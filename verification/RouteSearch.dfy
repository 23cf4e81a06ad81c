/**
 The route search of sr_handlepacket.  Addresses and masks lie in memory in network order, and the
 little-endian host compares masks as integers as they come, with their octets in the wrong order.
 */
module RouteSearch {
  import opened Common

  type octet = bv8

  /** An address or a mask: its octets in network order, the most significant first. */
  datatype Word = Word(b0: octet, b1: octet, b2: octet, b3: octet)

  datatype Route = Route(dest: Word, mask: Word, iface: string)

  /** The integer a little-endian host makes of four octets in memory. */
  function Host(w: Word): nat {
    w.b0 as nat + 0x100 * (w.b1 as nat) + 0x1_0000 * (w.b2 as nat) + 0x100_0000 * (w.b3 as nat)
  }

  function And(v: Word, w: Word): Word {
    Word(v.b0 & w.b0, v.b1 & w.b1, v.b2 & w.b2, v.b3 & w.b3)
  }

  // ---------- masks ----------

  /** An octet of ones, then zeros. */
  predicate OnesFirst(b: octet) {
    !b & (!b + 1) == 0
  }

  /** The number of leading ones of such an octet. */
  function Ones(b: octet): nat
    requires OnesFirst(b)
    decreases b
  {
    if b & 0x80 != 0 then 1 + Ones(b << 1) else 0
  }

  /** A mask of ones, then zeros. */
  predicate Contiguous(m: Word) {
    && OnesFirst(m.b0) && OnesFirst(m.b1) && OnesFirst(m.b2) && OnesFirst(m.b3)
    && (m.b0 != 0xff ==> m.b1 == 0) && (m.b1 != 0xff ==> m.b2 == 0) && (m.b2 != 0xff ==> m.b3 == 0)
  }

  function PrefixLen(m: Word): nat
    requires Contiguous(m)
  {
    Ones(m.b0) + Ones(m.b1) + Ones(m.b2) + Ones(m.b3)
  }

  lemma {:induction false} MoreOnesIsLarger(a: octet, b: octet)
    requires OnesFirst(a) && OnesFirst(b)
    ensures Ones(a) < Ones(b) <==> a < b
    decreases a
  {
    if a & 0x80 != 0 && b & 0x80 != 0 {
      MoreOnesIsLarger(a << 1, b << 1);
    }
  }

  lemma OctetOrder(a: octet, b: octet)
    ensures (a as nat) < (b as nat) <==> a < b
  {
  }

  lemma OctetsCompare(a: octet, b: octet)
    requires OnesFirst(a) && OnesFirst(b)
    ensures Ones(a) < Ones(b) <==> (a as nat) < (b as nat)
    ensures Ones(a) == Ones(b) <==> a == b
    ensures Ones(0) <= Ones(a) <= Ones(0xff)
  {
    MoreOnesIsLarger(a, b);
    MoreOnesIsLarger(b, a);
    MoreOnesIsLarger(a, 0);
    MoreOnesIsLarger(0xff, a);
    OctetOrder(a, b);
    OctetOrder(b, a);
  }

  /** Every octet of the mask of the longer prefix has at least as many ones as the other's. */
  lemma NoOctetShorter(a: Word, b: Word)
    requires Contiguous(a) && Contiguous(b) && PrefixLen(a) <= PrefixLen(b)
    ensures Ones(a.b0) <= Ones(b.b0) && Ones(a.b1) <= Ones(b.b1) && Ones(a.b2) <= Ones(b.b2) && Ones(a.b3) <= Ones(b.b3)
  {
    OctetsCompare(b.b0, a.b0);
    OctetsCompare(b.b1, a.b1);
    OctetsCompare(b.b2, a.b2);
    OctetsCompare(b.b3, a.b3);
  }

  lemma MoreOnesMoreValue(a: octet, b: octet)
    requires OnesFirst(a) && OnesFirst(b) && Ones(a) <= Ones(b)
    ensures (a as nat) <= (b as nat) && (Ones(a) < Ones(b) ==> (a as nat) < (b as nat))
  {
    OctetsCompare(a, b);
    OctetsCompare(b, a);
  }

  /** So every octet is at least as large, and one is larger. */
  lemma LongerIsLarger(a: Word, b: Word)
    requires Contiguous(a) && Contiguous(b) && PrefixLen(a) < PrefixLen(b)
    ensures Host(a) < Host(b)
  {
    NoOctetShorter(a, b);
    MoreOnesMoreValue(a.b0, b.b0);
    MoreOnesMoreValue(a.b1, b.b1);
    MoreOnesMoreValue(a.b2, b.b2);
    MoreOnesMoreValue(a.b3, b.b3);
  }

  lemma SameLengthSameMask(a: Word, b: Word)
    requires Contiguous(a) && Contiguous(b) && PrefixLen(a) == PrefixLen(b)
    ensures a == b
  {
    OctetsCompare(b.b0, a.b0);
    OctetsCompare(b.b1, a.b1);
    OctetsCompare(b.b2, a.b2);
    OctetsCompare(b.b3, a.b3);
    OctetsCompare(a.b0, b.b0);
    OctetsCompare(a.b1, b.b1);
    OctetsCompare(a.b2, b.b2);
    OctetsCompare(a.b3, b.b3);
  }

  /** Comparing masks as the host reads them is comparing prefix lengths. */
  lemma HostOrderIsPrefixOrder(a: Word, b: Word)
    requires Contiguous(a) && Contiguous(b)
    ensures Host(a) < Host(b) <==> PrefixLen(a) < PrefixLen(b)
  {
    if PrefixLen(a) < PrefixLen(b) {
      LongerIsLarger(a, b);
    } else if PrefixLen(a) > PrefixLen(b) {
      LongerIsLarger(b, a);
    } else {
      SameLengthSameMask(a, b);
    }
  }

  // ---------- the search ----------

  predicate Matches(r: Route, dst: Word) {
    And(r.mask, dst) == r.dest
  }

  // ---------- what matching means ----------

  /** Bit i of an octet, the highest first. */
  predicate BitOf(b: octet, i: nat)
    requires i < 8
    decreases i
  {
    if i == 0 then b & 0x80 != 0 else BitOf(b << 1, i - 1)
  }

  /** Bit i of an address, 0 to 31, the highest first. */
  predicate Bit(w: Word, i: nat)
    requires i < 32
  {
    if i < 8 then BitOf(w.b0, i)
    else if i < 16 then BitOf(w.b1, i - 8)
    else if i < 24 then BitOf(w.b2, i - 16)
    else BitOf(w.b3, i - 24)
  }

  lemma {:induction false} OnesAreFirst(m: octet, i: nat)
    requires OnesFirst(m) && i < 8
    ensures BitOf(m, i) <==> i < Ones(m)
    decreases i
  {
    if i > 0 && m & 0x80 != 0 {
      OnesAreFirst(m << 1, i - 1);
    } else if i > 0 {
      assert m == 0;
      ZeroBits(i);
    }
  }

  lemma {:induction false} ZeroBits(i: nat)
    requires i < 8
    ensures !BitOf(0, i)
  {
    if i > 0 {
      assert (0 as octet) << 1 == 0;
      ZeroBits(i - 1);
    }
  }

  lemma ShiftAnd(m: octet, d: octet)
    ensures (m & d) << 1 == (m << 1) & (d << 1)
  {
  }

  lemma {:induction false} AndBits(m: octet, d: octet, i: nat)
    requires i < 8
    ensures BitOf(m & d, i) <==> BitOf(m, i) && BitOf(d, i)
    decreases i
  {
    if i > 0 {
      ShiftAnd(m, d);
      AndBits(m << 1, d << 1, i - 1);
    }
  }

  lemma HighBits(a: octet)
    ensures BitOf(a, 0) <==> a & 0x80 != 0
    ensures BitOf(a, 1) <==> a & 0x40 != 0
    ensures BitOf(a, 2) <==> a & 0x20 != 0
    ensures BitOf(a, 3) <==> a & 0x10 != 0
  {
  }

  lemma LowBits(a: octet)
    ensures BitOf(a, 4) <==> a & 8 != 0
    ensures BitOf(a, 5) <==> a & 4 != 0
    ensures BitOf(a, 6) <==> a & 2 != 0
    ensures BitOf(a, 7) <==> a & 1 != 0
  {
  }

  lemma SameBits(a: octet, b: octet)
    requires forall i :: 0 <= i < 8 ==> (BitOf(a, i) <==> BitOf(b, i))
    ensures a == b
  {
    HighBits(a);
    HighBits(b);
    LowBits(a);
    LowBits(b);
  }

  lemma OctetEnds()
    ensures Ones(0) == 0 && Ones(0xff) == 8
  {
    OnesAreFirst(0xff, 7);
    OnesAtMost8(0xff);
    assert BitOf(0xff, 7);
  }

  lemma OnesAtMost8(m: octet)
    requires OnesFirst(m)
    ensures Ones(m) <= 8
  {
    if m & 0x80 != 0 {
      OnesAtMost(m << 1, 7);
    }
  }

  /** An octet whose lowest 8 - n bits are 0 has at most n leading ones. */
  lemma {:induction false} OnesAtMost(m: octet, n: nat)
    requires OnesFirst(m) && n <= 7 && !BitOf(m, n)
    ensures Ones(m) <= n
  {
    if m & 0x80 != 0 && n > 0 {
      OnesAtMost(m << 1, n - 1);
    }
  }

  lemma SameWord(v: Word, w: Word)
    requires forall i :: 0 <= i < 32 ==> (Bit(v, i) <==> Bit(w, i))
    ensures v == w
  {
    forall i | 0 <= i < 8 ensures BitOf(v.b0, i) <==> BitOf(w.b0, i) { assert Bit(v, i) <==> Bit(w, i); }
    SameBits(v.b0, w.b0);
    forall i | 0 <= i < 8 ensures BitOf(v.b1, i) <==> BitOf(w.b1, i) { assert Bit(v, i + 8) <==> Bit(w, i + 8); }
    SameBits(v.b1, w.b1);
    forall i | 0 <= i < 8 ensures BitOf(v.b2, i) <==> BitOf(w.b2, i) { assert Bit(v, i + 16) <==> Bit(w, i + 16); }
    SameBits(v.b2, w.b2);
    forall i | 0 <= i < 8 ensures BitOf(v.b3, i) <==> BitOf(w.b3, i) { assert Bit(v, i + 24) <==> Bit(w, i + 24); }
    SameBits(v.b3, w.b3);
  }

  lemma KeptBits(m: octet, d: octet, i: nat)
    requires OnesFirst(m) && i < 8
    ensures BitOf(m & d, i) <==> i < Ones(m) && BitOf(d, i)
  {
    AndBits(m, d, i);
    OnesAreFirst(m, i);
  }

  /** In each octet of x, bit i is that of dst if it is among the ones of the mask, and 0 otherwise. */
  predicate MaskedAt(m: Word, dst: Word, x: Word, i: nat)
    requires Contiguous(m) && i < 8
  {
    && (BitOf(x.b0, i) <==> i < Ones(m.b0) && BitOf(dst.b0, i))
    && (BitOf(x.b1, i) <==> i < Ones(m.b1) && BitOf(dst.b1, i))
    && (BitOf(x.b2, i) <==> i < Ones(m.b2) && BitOf(dst.b2, i))
    && (BitOf(x.b3, i) <==> i < Ones(m.b3) && BitOf(dst.b3, i))
  }

  lemma MaskedOctets(m: Word, dst: Word, i: nat)
    requires Contiguous(m) && i < 8
    ensures MaskedAt(m, dst, And(m, dst), i)
  {
    KeptBits(m.b0, dst.b0, i);
    KeptBits(m.b1, dst.b1, i);
    KeptBits(m.b2, dst.b2, i);
    KeptBits(m.b3, dst.b3, i);
  }

  /** How many ones each octet of a mask has. */
  lemma OctetsOf(m: Word, p: nat)
    requires Contiguous(m) && p == PrefixLen(m)
    ensures Ones(m.b0) == Min(p, 8) && Ones(m.b1) == if p < 8 then 0 else Min(p - 8, 8)
    ensures Ones(m.b2) == if p < 16 then 0 else Min(p - 16, 8)
    ensures Ones(m.b3) == if p < 24 then 0 else Min(p - 24, 8)
  {
    OctetEnds();
    OnesAtMost8(m.b0);
    OnesAtMost8(m.b1);
    OnesAtMost8(m.b2);
    OnesAtMost8(m.b3);
    if Ones(m.b0) == 8 { FullIf8(m.b0); }
    if Ones(m.b1) == 8 { FullIf8(m.b1); }
    if Ones(m.b2) == 8 { FullIf8(m.b2); }
  }

  lemma FullIf8(b: octet)
    requires OnesFirst(b) && Ones(b) == 8
    ensures b == 0xff
  {
    OctetEnds();
    OctetsCompare(b, 0xff);
  }

  lemma MaskedBits(m: Word, dst: Word, x: Word, i: nat)
    requires Contiguous(m) && i < 32 && MaskedAt(m, dst, x, i % 8)
    ensures Bit(x, i) <==> i < PrefixLen(m) && Bit(dst, i)
  {
    OctetsOf(m, PrefixLen(m));
  }

  /** A route matches exactly if its destination is the address up to the prefix length, and zeros from there on. */
  lemma MatchesIff(r: Route, dst: Word)
    requires Contiguous(r.mask)
    ensures Matches(r, dst) <==>
            forall i :: 0 <= i < 32 ==> (Bit(r.dest, i) <==> i < PrefixLen(r.mask) && Bit(dst, i))
  {
    forall i | 0 <= i < 32 ensures Bit(And(r.mask, dst), i) <==> i < PrefixLen(r.mask) && Bit(dst, i) {
      MaskedOctets(r.mask, dst, i % 8);
      MaskedBits(r.mask, dst, And(r.mask, dst), i);
    }
    if forall i :: 0 <= i < 32 ==> (Bit(r.dest, i) <==> i < PrefixLen(r.mask) && Bit(dst, i)) {
      SameWord(And(r.mask, dst), r.dest);
    }
  }

  /** Of the first n entries, i matches, no matching one has a larger mask, and no earlier one as large a mask. */
  ghost predicate Best(rs: seq<Route>, dst: Word, i: nat, n: nat)
    requires i < n <= |rs|
  {
    && Matches(rs[i], dst)
    && forall j :: 0 <= j < n && Matches(rs[j], dst) ==>
         Host(rs[j].mask) <= Host(rs[i].mask) && (j < i ==> Host(rs[j].mask) < Host(rs[i].mask))
  }

  ghost predicate ContiguousMasks(rs: seq<Route>) {
    forall i :: 0 <= i < |rs| ==> Contiguous(rs[i].mask)
  }

  /** Entry i matches, no matching prefix is longer, and no earlier one is as long. */
  ghost predicate Longest(rs: seq<Route>, dst: Word, i: nat)
    requires ContiguousMasks(rs) && i < |rs|
  {
    && Matches(rs[i], dst)
    && forall j :: 0 <= j < |rs| && Matches(rs[j], dst) ==>
         PrefixLen(rs[j].mask) <= PrefixLen(rs[i].mask) && (j < i ==> PrefixLen(rs[j].mask) < PrefixLen(rs[i].mask))
  }

  lemma BestIsLongest(rs: seq<Route>, dst: Word, i: nat)
    requires ContiguousMasks(rs) && i < |rs|
    ensures Best(rs, dst, i, |rs|) <==> Longest(rs, dst, i)
  {
    forall j | 0 <= j < |rs|
      ensures Host(rs[j].mask) <= Host(rs[i].mask) <==> PrefixLen(rs[j].mask) <= PrefixLen(rs[i].mask)
      ensures Host(rs[j].mask) < Host(rs[i].mask) <==> PrefixLen(rs[j].mask) < PrefixLen(rs[i].mask)
    {
      HostOrderIsPrefixOrder(rs[j].mask, rs[i].mask);
      HostOrderIsPrefixOrder(rs[i].mask, rs[j].mask);
    }
  }

  /**
   For masks that are not contiguous the host's order is none of lengths: of a /24 and a route that looks
   at the very last bit alone, the second is taken.
   */
  lemma LastBitWins(dst: Word, iface: string)
    ensures var m, last := Word(0xff, 0xff, 0xff, 0), Word(0, 0, 0, 1);
      var rs := [Route(And(m, dst), m, iface), Route(And(last, dst), last, iface)];
      Host(m) == 0x00ff_ffff && Host(last) == 0x0100_0000 && Best(rs, dst, 1, 2) && !Best(rs, dst, 0, 2)
  {
  }

  /**
   The loop over the routing table.  Whatever the masks, it finds the earliest of the largest as the
   host reads them; if they are contiguous, that is the longest prefix match.
   */
  method FindRoute(rs: seq<Route>, dst: Word) returns (best: Option<nat>)
    ensures best == None <==> forall j :: 0 <= j < |rs| ==> !Matches(rs[j], dst)
    ensures best.Some? ==> best.value < |rs| && Best(rs, dst, best.value, |rs|)
    ensures best.Some? && ContiguousMasks(rs) ==> Longest(rs, dst, best.value)
  {
    best := None;
    var search := 0;
    while search < |rs|
      invariant 0 <= search <= |rs|
      invariant best == None <==> forall j :: 0 <= j < search ==> !Matches(rs[j], dst)
      invariant best.Some? ==> best.value < search && Best(rs, dst, best.value, search)
    {
      if And(rs[search].mask, dst) == rs[search].dest {
        if best == None || Host(rs[search].mask) > Host(rs[best.value].mask) {
          best := Some(search);
        }
      }
      search := search + 1;
    }
    if best.Some? && ContiguousMasks(rs) {
      BestIsLongest(rs, dst, best.value);
    }
  }
}
