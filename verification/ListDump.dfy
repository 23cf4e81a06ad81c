/** The file format of list_dump and list_restore: a header of 30 octets, the elements, and a terminator. */
module DumpFormat {
  import opened Common

  const VERSION := 1
  const HEADERLEN := 30

  // ---------- integers in files ----------

  function Be16(n: nat): (s: seq<byte>)
    requires n < 0x1_0000
    ensures |s| == 2
  {
    [n / 0x100, n % 0x100]
  }

  function From16(s: seq<byte>): nat
    requires |s| == 2
  {
    0x100 * (s[0] as int) + s[1] as int
  }

  /** The order of the host, in which the size prefixes are written. */
  function Host32(n: nat): (s: seq<byte>)
    requires Is32(n)
    ensures |s| == 4
  {
    [n % 256, n / 0x100 % 256, n / 0x1_0000 % 256, n / 0x100_0000 % 256]
  }

  function FromHost32(s: seq<byte>): (n: nat)
    requires |s| == 4
    ensures Is32(n)
  {
    From32([s[3], s[2], s[1], s[0]])
  }

  lemma Host32RoundTrip(n: nat)
    requires Is32(n)
    ensures FromHost32(Host32(n)) == n
  {
    var s := Host32(n);
    assert [s[3], s[2], s[1], s[0]] == Be32(n);
    Be32RoundTrip(n);
  }

  // ---------- what a dump writes ----------

  datatype Header = Header(sec: nat, usec: nat, rndterm: nat, totlistlen: nat, numels: nat, elemlen: nat, hash: nat)

  predicate HeaderOk(h: Header) {
    && Is32(h.sec) && Is32(h.usec) && Is32(h.rndterm) && Is32(h.totlistlen)
    && Is32(h.numels) && Is32(h.elemlen) && Is32(h.hash)
  }

  function HeaderBytes(h: Header): (s: seq<byte>)
    requires HeaderOk(h)
    ensures |s| == HEADERLEN
  {
    Be16(VERSION) + Be32(h.sec) + Be32(h.usec) + Be32(h.rndterm)
    + Be32(h.totlistlen) + Be32(h.numels) + Be32(h.elemlen) + Be32(h.hash)
  }

  /** Elements one after the other. */
  function Body(es: seq<seq<byte>>): seq<byte> {
    if es == [] then [] else Body(es[..|es| - 1]) + es[|es| - 1]
  }

  /** What lies in memory beyond the variable when the length of element i is written. */
  type Memory = nat -> seq<byte>

  ghost predicate Wide(above: Memory, width: nat) {
    forall i: nat :: |above(i)| == width
  }

  function Nothing(i: nat): seq<byte> {
    []
  }

  /** Each element after its length, written as sizeof(size_t) octets of which `above` lie outside the variable. */
  function Prefixed(es: seq<seq<byte>>, above: Memory): seq<byte> {
    if es == [] then []
    else Prefixed(es[..|es| - 1], above) + Prefix(es[|es| - 1], above(|es| - 1)) + es[|es| - 1]
  }

  function Prefix(e: seq<byte>, beside: seq<byte>): seq<byte> {
    Host32(U32(|e|)) + beside
  }

  function TotalLen(es: seq<seq<byte>>): nat {
    if es == [] then 0 else TotalLen(es[..|es| - 1]) + |es[|es| - 1]|
  }

  predicate AllOfLength(es: seq<seq<byte>>, n: nat) {
    forall i :: 0 <= i < |es| ==> |es[i]| == n
  }

  /** The length all elements have, or 0 when there is none such. */
  function CommonLength(es: seq<seq<byte>>): nat {
    if es != [] && AllOfLength(es, |es[0]|) then |es[0]| else 0
  }

  /** How many elements come before the first of another length than the first element's. */
  function SameAsFirst(es: seq<seq<byte>>): (j: nat)
    ensures j <= |es| && (j < |es| ==> |es[j]| != |es[0]|)
    ensures forall i :: 0 <= i < j ==> |es[i]| == |es[0]|
  {
    SameFrom(es, 0)
  }

  function SameFrom(es: seq<seq<byte>>, i: nat): (j: nat)
    requires i <= |es| && forall k :: 0 <= k < i ==> |es[k]| == |es[0]|
    ensures j <= |es| && (j < |es| ==> |es[j]| != |es[0]|)
    ensures forall k :: 0 <= k < j ==> |es[k]| == |es[0]|
    decreases |es| - i
  {
    if i == |es| || |es[i]| != |es[0]| then i else SameFrom(es, i + 1)
  }

  /**
   The elements in the file.  When the guess of a constant length breaks, the writer starts again;
   the path that measures elements does not go back in the file first and leaves `waste` there.
   */
  function Content(es: seq<seq<byte>>, above: Memory, rewinds: bool): seq<byte> {
    if CommonLength(es) > 0 then Body(es) else Waste(es, rewinds) + Prefixed(es, above)
  }

  function Waste(es: seq<seq<byte>>, rewinds: bool): seq<byte> {
    if rewinds || es == [] || |es[0]| == 0 then [] else Body(es[..SameAsFirst(es)])
  }

  /** Clock, random terminator and hash come from elsewhere. */
  datatype Stamp = Stamp(sec: nat, usec: nat, rndterm: nat, hash: nat)

  predicate Dumpable(es: seq<seq<byte>>, st: Stamp) {
    && Is32(st.sec) && Is32(st.usec) && Is32(st.rndterm) && Is32(st.hash) && Is32(|es|)
    && forall i :: 0 <= i < |es| ==> Is32(|es[i]|)
  }

  function DumpHeader(es: seq<seq<byte>>, st: Stamp): (h: Header)
    requires Dumpable(es, st)
    ensures HeaderOk(h)
  {
    Header(st.sec, st.usec, st.rndterm, U32(TotalLen(es)), |es|, CommonLength(es), st.hash)
  }

  function Dumped(es: seq<seq<byte>>, st: Stamp, above: Memory, rewinds: bool): seq<byte>
    requires Dumpable(es, st)
  {
    HeaderBytes(DumpHeader(es, st)) + Content(es, above, rewinds) + Be32(st.rndterm)
  }

  // ---------- what a restore reads ----------

  function Take(f: seq<byte>, pos: nat, n: nat): (r: Option<seq<byte>>)
    ensures r.Some? <==> pos + n <= |f|
    ensures r.Some? ==> r.value == f[pos..pos + n]
  {
    if pos + n <= |f| then Some(f[pos..pos + n]) else None
  }

  function Field(f: seq<byte>, pos: nat): nat
    requires pos + 4 <= |f|
  {
    From32(f[pos..pos + 4])
  }

  function ReadHeader(f: seq<byte>): (h: Option<Header>)
    ensures h.Some? ==> |f| >= HEADERLEN && HeaderOk(h.value)
  {
    if |f| < HEADERLEN || From16(f[..2]) != VERSION then None
    else Some(Header(Field(f, 2), Field(f, 6), Field(f, 10), Field(f, 14), Field(f, 18), Field(f, 22), Field(f, 26)))
  }

  /** Elements read, with the count of their octets and the position after them. */
  datatype Elements = Short | Elements(es: seq<seq<byte>>, total: nat, pos: nat)

  /** One element from pos on, of length elemlen, or, if that is 0, of the length in host order before it. */
  function ReadElement(f: seq<byte>, pos: nat, elemlen: nat): (e: Option<seq<byte>>)
    ensures e.Some? ==> (elemlen > 0 ==> |e.value| == elemlen) && pos + Room(e.value, elemlen) <= |f|
  {
    if elemlen > 0 then Take(f, pos, elemlen)
    else if pos + 4 > |f| then None
    else Take(f, pos + 4, FromHost32(f[pos..pos + 4]))
  }

  /** How far an element takes the reader. */
  function Room(e: seq<byte>, elemlen: nat): nat {
    if elemlen > 0 then elemlen else 4 + |e|
  }

  /** `count` elements, from pos on. */
  function ReadElements(f: seq<byte>, pos: nat, elemlen: nat, count: nat): (r: Elements)
    ensures r.Elements? ==> |r.es| == count
  {
    if count == 0 then Elements([], 0, pos) else Extend(f, ReadElements(f, pos, elemlen, count - 1), elemlen)
  }

  function Extend(f: seq<byte>, r: Elements, elemlen: nat): Elements {
    if r.Short? then Short
    else
      match ReadElement(f, r.pos, elemlen)
      case None => Short
      case Some(e) => Elements(r.es + [e], U32(r.total + |e|), r.pos + Room(e, elemlen))
  }

  /** The elements of a file that list_restore accepts. */
  function Parse(f: seq<byte>): Option<seq<seq<byte>>> {
    match ReadHeader(f)
    case None => None
    case Some(h) =>
      match ReadElements(f, HEADERLEN, h.elemlen, h.numels)
      case Short => None
      case Elements(es, total, p) =>
        if p + 4 > |f| then None
        else if TotalRead(h, total) != h.totlistlen && Field(f, p) == h.rndterm then None
        else if p + 4 != |f| then None
        else Some(es)
  }

  /** The total that the reader compares with the header: counted only if the elements have their own lengths. */
  function TotalRead(h: Header, total: nat): nat {
    if h.elemlen > 0 then U32(h.numels * h.elemlen) else total
  }

  // ---------- the round trip ----------

  /** The elements as the reader takes them: bare if they have one length, else after four octets of length. */
  function Stored(es: seq<seq<byte>>, elemlen: nat): seq<byte> {
    if elemlen > 0 then Body(es) else Prefixed(es, Nothing)
  }

  predicate Storable(es: seq<seq<byte>>, elemlen: nat) {
    && (elemlen > 0 ==> AllOfLength(es, elemlen))
    && forall i :: 0 <= i < |es| ==> Is32(|es[i]|)
  }

  lemma {:induction false} ConstantTotal(es: seq<seq<byte>>, n: nat)
    requires AllOfLength(es, n)
    ensures TotalLen(es) == |es| * n && |Body(es)| == |es| * n
  {
    if es != [] {
      ConstantTotal(es[..|es| - 1], n);
      assert |es| * n == (|es| - 1) * n + n;
    }
  }

  function OneStored(e: seq<byte>, elemlen: nat): seq<byte> {
    if elemlen > 0 then e else Host32(U32(|e|)) + e
  }

  lemma StoredNext(es: seq<seq<byte>>, elemlen: nat)
    requires es != []
    ensures Stored(es, elemlen) == Stored(es[..|es| - 1], elemlen) + OneStored(es[|es| - 1], elemlen)
  {
    var e := es[|es| - 1];
    assert Prefix(e, []) == Host32(U32(|e|));
  }

  lemma OneReads(f: seq<byte>, pos: nat, e: seq<byte>, elemlen: nat)
    requires Is32(|e|) && (elemlen > 0 ==> |e| == elemlen)
    requires At(f, pos, OneStored(e, elemlen))
    ensures ReadElement(f, pos, elemlen) == Some(e) && Room(e, elemlen) == |OneStored(e, elemlen)|
  {
    if elemlen == 0 {
      Slices(f, pos, Host32(|e|), e);
      Host32RoundTrip(|e|);
    }
  }

  /** The octets d are in the file at pos. */
  predicate At(f: seq<byte>, pos: nat, d: seq<byte>) {
    pos + |d| <= |f| && f[pos..pos + |d|] == d
  }

  lemma StoredSplits(f: seq<byte>, pos: nat, es: seq<seq<byte>>, elemlen: nat)
    requires es != [] && At(f, pos, Stored(es, elemlen))
    ensures var es', e := es[..|es| - 1], es[|es| - 1];
      && |Stored(es, elemlen)| == |Stored(es', elemlen)| + |OneStored(e, elemlen)|
      && At(f, pos, Stored(es', elemlen)) && At(f, pos + |Stored(es', elemlen)|, OneStored(e, elemlen))
  {
    StoredNext(es, elemlen);
    Slices(f, pos, Stored(es[..|es| - 1], elemlen), OneStored(es[|es| - 1], elemlen));
  }

  /** What the reader is to find. */
  function Expected(es: seq<seq<byte>>, elemlen: nat, pos: nat): Elements {
    Elements(es, U32(TotalLen(es)), pos + |Stored(es, elemlen)|)
  }

  lemma ExtendReads(f: seq<byte>, p: nat, es: seq<seq<byte>>, t: nat, e: seq<byte>, elemlen: nat)
    requires Is32(|e|) && (elemlen > 0 ==> |e| == elemlen) && At(f, p, OneStored(e, elemlen))
    ensures Extend(f, Elements(es, t, p), elemlen) == Elements(es + [e], U32(t + |e|), p + |OneStored(e, elemlen)|)
  {
    OneReads(f, p, e, elemlen);
  }

  lemma ExpectedNext(f: seq<byte>, pos: nat, es: seq<seq<byte>>, elemlen: nat)
    requires es != [] && Storable(es, elemlen) && At(f, pos, Stored(es, elemlen))
    ensures Extend(f, Expected(es[..|es| - 1], elemlen, pos), elemlen) == Expected(es, elemlen, pos)
  {
    var es', e := es[..|es| - 1], es[|es| - 1];
    StoredSplits(f, pos, es, elemlen);
    ExtendReads(f, pos + |Stored(es', elemlen)|, es', U32(TotalLen(es')), e, elemlen);
    AddU32(TotalLen(es'), |e|);
    assert es' + [e] == es;
  }

  lemma {:induction false} StoredReads(f: seq<byte>, pos: nat, es: seq<seq<byte>>, elemlen: nat)
    requires Storable(es, elemlen) && At(f, pos, Stored(es, elemlen))
    ensures ReadElements(f, pos, elemlen, |es|) == Expected(es, elemlen, pos)
  {
    if es != [] {
      StoredSplits(f, pos, es, elemlen);
      StoredReads(f, pos, es[..|es| - 1], elemlen);
      ExpectedNext(f, pos, es, elemlen);
    }
  }

  lemma Slices(f: seq<byte>, pos: nat, a: seq<byte>, b: seq<byte>)
    requires At(f, pos, a + b)
    ensures At(f, pos, a) && At(f, pos + |a|, b)
  {
    assert f[pos..pos + |a|] == f[pos..pos + |a| + |b|][..|a|];
    assert f[pos + |a|..pos + |a| + |b|] == f[pos..pos + |a| + |b|][|a|..];
  }

  lemma HeaderReads(h: Header, rest: seq<byte>)
    requires HeaderOk(h)
    ensures ReadHeader(HeaderBytes(h) + rest) == Some(h)
  {
    var f := HeaderBytes(h) + rest;
    assert f[..2] == Be16(VERSION);
    assert f[2..6] == Be32(h.sec) && f[6..10] == Be32(h.usec) && f[10..14] == Be32(h.rndterm);
    assert f[14..18] == Be32(h.totlistlen) && f[18..22] == Be32(h.numels);
    assert f[22..26] == Be32(h.elemlen) && f[26..30] == Be32(h.hash);
    Be32RoundTrip(h.sec);
    Be32RoundTrip(h.usec);
    Be32RoundTrip(h.rndterm);
    Be32RoundTrip(h.totlistlen);
    Be32RoundTrip(h.numels);
    Be32RoundTrip(h.elemlen);
    Be32RoundTrip(h.hash);
  }

  /** A file of another version, or too short to have one, is refused. */
  lemma OtherVersion(f: seq<byte>)
    requires |f| < 30 || f[0] != 0 || f[1] != 1
    ensures Parse(f) == None
  {
    if |f| >= 30 {
      assert f[..2][0] == f[0] && f[..2][1] == f[1];
    }
  }

  lemma TotalMatters(h: Header, es: seq<seq<byte>>)
    requires h.numels == |es| && Storable(es, h.elemlen)
    ensures TotalRead(h, U32(TotalLen(es))) == U32(TotalLen(es))
  {
    if h.elemlen > 0 {
      ConstantTotal(es, h.elemlen);
    }
  }

  /**
   A file of a header, elements stored as it says, a last word and some extra octets is accepted if and
   only if nothing is extra and the total in the header is right or the last word is not the terminator
   of the header: the two tests are joined, so a wrong terminator excuses a wrong total.
   */
  lemma AcceptedIff(h: Header, es: seq<seq<byte>>, last: nat, extra: seq<byte>)
    requires HeaderOk(h) && Is32(last) && h.numels == |es| && Storable(es, h.elemlen)
    ensures Parse(HeaderBytes(h) + Stored(es, h.elemlen) + Be32(last) + extra) ==
            if extra == [] && (U32(TotalLen(es)) == h.totlistlen || last != h.rndterm) then Some(es) else None
  {
    var f := HeaderBytes(h) + Stored(es, h.elemlen) + Be32(last) + extra;
    Parts(HeaderBytes(h), Stored(es, h.elemlen), Be32(last), extra);
    HeaderReads(h, Stored(es, h.elemlen) + Be32(last) + extra);
    Be32RoundTrip(last);
    StoredReads(f, HEADERLEN, es, h.elemlen);
    TotalMatters(h, es);
  }

  lemma Parts(a: seq<byte>, b: seq<byte>, c: seq<byte>, d: seq<byte>)
    ensures a + b + c + d == a + (b + c + d)
    ensures (a + b + c + d)[|a|..|a| + |b|] == b
    ensures (a + b + c + d)[|a| + |b|..|a| + |b| + |c|] == c
  {
  }

  /**
   When the writer stores elements as the reader takes them: none, all of one nonzero length, or, on a
   machine whose size_t has four octets, any, as long as no abandoned pass is left in the file.
   The size_t has `width` octets more than the four.
   */
  predicate Restorable(es: seq<seq<byte>>, width: nat, rewinds: bool) {
    es == [] || CommonLength(es) > 0 || (width == 0 && (rewinds || !GuessBreaks(es)))
  }

  lemma {:induction false} NothingBeside(es: seq<seq<byte>>, above: Memory)
    requires Wide(above, 0)
    ensures Prefixed(es, above) == Prefixed(es, Nothing)
  {
    if es != [] {
      NothingBeside(es[..|es| - 1], above);
      assert above(|es| - 1) == [];
    }
  }

  lemma StoredAsRead(es: seq<seq<byte>>, above: Memory, width: nat, rewinds: bool)
    requires Wide(above, width) && Restorable(es, width, rewinds)
    ensures Content(es, above, rewinds) == Stored(es, CommonLength(es))
  {
    if width == 0 {
      NothingBeside(es, above);
    }
  }

  /** A list that is restorable comes back as it was, if nothing follows the dump. */
  lemma RoundTrip(es: seq<seq<byte>>, st: Stamp, above: Memory, width: nat, rewinds: bool, extra: seq<byte>)
    requires Dumpable(es, st) && Wide(above, width) && Restorable(es, width, rewinds)
    ensures Parse(Dumped(es, st, above, rewinds) + extra) == if extra == [] then Some(es) else None
  {
    StoredAsRead(es, above, width, rewinds);
    AcceptedIff(DumpHeader(es, st), es, st.rndterm, extra);
  }

  lemma {:induction false} PrefixedLength(es: seq<seq<byte>>, above: Memory, width: nat)
    requires Wide(above, width)
    ensures |Prefixed(es, above)| == |es| * (4 + width) + TotalLen(es)
  {
    if es != [] {
      PrefixedLength(es[..|es| - 1], above, width);
      assert |above(|es| - 1)| == width;
      assert |es| * (4 + width) == (|es| - 1) * (4 + width) + 4 + width;
    }
  }

  lemma {:induction false} VariableRoom(f: seq<byte>, pos: nat, count: nat)
    requires ReadElements(f, pos, 0, count).Elements?
    ensures var r := ReadElements(f, pos, 0, count); r.pos == pos + 4 * count + TotalLen(r.es)
  {
    if count > 0 {
      VariableRoom(f, pos, count - 1);
      var r, r' := ReadElements(f, pos, 0, count), ReadElements(f, pos, 0, count - 1);
      assert r.es[..count - 1] == r'.es;
    }
  }

  /**
   What the header file promises of dump and restore, and exactly when it is so.  Where size_t has
   eight octets, no list whose elements differ in length, or are empty, comes back from its own dump.
   */
  lemma RoundTripIff(es: seq<seq<byte>>, st: Stamp, above: Memory, width: nat, rewinds: bool)
    requires Dumpable(es, st) && Wide(above, width)
    ensures Parse(Dumped(es, st, above, rewinds)) == Some(es) <==> Restorable(es, width, rewinds)
  {
    var f := Dumped(es, st, above, rewinds);
    if Restorable(es, width, rewinds) {
      RoundTrip(es, st, above, width, rewinds, []);
      assert f + [] == f;
    } else if Parse(f) == Some(es) {
      TooLong(es, st, above, width, rewinds);
    }
  }

  /** A list of one octet and two octets, dumped where size_t has eight octets: it does not come back. */
  lemma RoundTripExample(x: byte, y: byte, z: byte, st: Stamp, above: Memory, rewinds: bool)
    requires Dumpable([[x], [y, z]], st) && Wide(above, 4)
    ensures Parse(Dumped([[x], [y, z]], st, above, rewinds)) != Some([[x], [y, z]])
  {
    var es: seq<seq<byte>> := [[x], [y, z]];
    assert |es[1]| != |es[0]|;
    RoundTripIff(es, st, above, 4, rewinds);
  }

  lemma ParsedLength(f: seq<byte>, h: Header)
    requires ReadHeader(f) == Some(h) && h.elemlen == 0 && Parse(f).Some?
    ensures var es := Parse(f).value; |es| == h.numels && |f| == HEADERLEN + 4 * |es| + TotalLen(es) + 4
  {
    VariableRoom(f, HEADERLEN, h.numels);
  }

  lemma DumpReads(es: seq<seq<byte>>, st: Stamp, above: Memory, rewinds: bool)
    requires Dumpable(es, st)
    ensures var f := Dumped(es, st, above, rewinds);
      ReadHeader(f) == Some(DumpHeader(es, st)) && |f| == HEADERLEN + |Content(es, above, rewinds)| + 4
  {
    var h, rest := DumpHeader(es, st), Content(es, above, rewinds) + Be32(st.rndterm);
    assert Dumped(es, st, above, rewinds) == HeaderBytes(h) + rest;
    HeaderReads(h, rest);
  }

  lemma TooLong(es: seq<seq<byte>>, st: Stamp, above: Memory, width: nat, rewinds: bool)
    requires Dumpable(es, st) && Wide(above, width)
    requires CommonLength(es) == 0 && Parse(Dumped(es, st, above, rewinds)) == Some(es)
    ensures Restorable(es, width, rewinds)
  {
    DumpReads(es, st, above, rewinds);
    ParsedLength(Dumped(es, st, above, rewinds), DumpHeader(es, st));
    PrefixedLength(es, above, width);
    NothingMore(|es|, width, |Waste(es, rewinds)|);
    if GuessBreaks(es) {
      WasteTakesRoom(es);
    }
  }

  lemma NothingMore(n: nat, a: nat, w: nat)
    requires w + n * (4 + a) == 4 * n
    ensures w == 0 && (n == 0 || a == 0)
  {
    assert n * (4 + a) == 4 * n + n * a;
    assert n > 0 && a > 0 ==> n * a > 0;
  }

  lemma WasteTakesRoom(es: seq<seq<byte>>)
    requires GuessBreaks(es)
    ensures Waste(es, false) != []
  {
    var j := SameAsFirst(es);
    assert j > 0;
    ConstantTotal(es[..j], |es[0]|);
    assert j * |es[0]| > 0;
  }

  // ---------- the octets of two dumps ----------

  lemma HeaderOctets(h: Header)
    requires h == Header(0x01020304, 0x05060708, 0x090A0B0C, 4, 2, 2, 0x0D0E0F10)
    ensures HeaderBytes(h) == [0, 1, 1, 2, 3, 4, 5, 6, 7, 8, 9, 10, 11, 12] +
                              [0, 0, 0, 4, 0, 0, 0, 2, 0, 0, 0, 2, 13, 14, 15, 16]
  {
    assert Be32(0x01020304) == [1, 2, 3, 4] && Be32(0x05060708) == [5, 6, 7, 8];
    assert Be32(0x090A0B0C) == [9, 10, 11, 12] && Be32(0x0D0E0F10) == [13, 14, 15, 16];
    assert Be32(4) == [0, 0, 0, 4] && Be32(2) == [0, 0, 0, 2] && Be16(1) == [0, 1];
  }

  lemma TwoAlike(es: seq<seq<byte>>, w: byte, x: byte, y: byte, z: byte)
    requires es == [[w, x], [y, z]]
    ensures TotalLen(es) == 4 && CommonLength(es) == 2 && Body(es) == [w, x, y, z]
  {
    assert es[..1] == [[w, x]] && es[..1][..0] == [];
    assert TotalLen(es[..1]) == 0 + 2 && TotalLen(es) == TotalLen(es[..1]) + 2;
    assert Body(es[..1]) == [] + [w, x] && Body(es) == Body(es[..1]) + [y, z];
  }

  /** Two elements of two octets: the version, seven numbers highest octet first, the elements, the terminator. */
  lemma ConstantExample(es: seq<seq<byte>>, st: Stamp, w: byte, x: byte, y: byte, z: byte, above: Memory, rewinds: bool)
    requires es == [[w, x], [y, z]] && st == Stamp(0x01020304, 0x05060708, 0x090A0B0C, 0x0D0E0F10)
    ensures Dumpable(es, st)
    ensures Dumped(es, st, above, rewinds) ==
      [0, 1, 1, 2, 3, 4, 5, 6, 7, 8, 9, 10, 11, 12] + [0, 0, 0, 4, 0, 0, 0, 2, 0, 0, 0, 2, 13, 14, 15, 16] +
      [w, x, y, z] + [9, 10, 11, 12]
  {
    TwoAlike(es, w, x, y, z);
    HeaderOctets(DumpHeader(es, st));
    assert Be32(0x090A0B0C) == [9, 10, 11, 12];
  }

  /** One octet and two: each after its length, the lowest octet first, and what lies above it in memory. */
  lemma PrefixedExample(es: seq<seq<byte>>, x: byte, y: byte, z: byte, above: Memory)
    requires es == [[x], [y, z]]
    ensures Content(es, above, true) == [1, 0, 0, 0] + above(0) + [x] + ([2, 0, 0, 0] + above(1) + [y, z])
  {
    assert |es[1]| != |es[0]| && es[..1] == [[x]] && es[..1][..0] == [];
    assert Host32(1) == [1, 0, 0, 0] && Host32(2) == [2, 0, 0, 0];
    assert Prefixed(es[..1], above) == [] + Prefix([x], above(0)) + [x];
    assert Prefixed(es, above) == Prefixed(es[..1], above) + Prefix([y, z], above(1)) + [y, z];
  }

  // ---------- the octets of an abandoned pass ----------

  /** The guess of a constant length is made and fails. */
  predicate GuessBreaks(es: seq<seq<byte>>) {
    es != [] && |es[0]| > 0 && CommonLength(es) == 0
  }

  /** The path that does not go back in the file writes something else if and only if the guess breaks. */
  lemma WasteIffGuessBreaks(es: seq<seq<byte>>, above: Memory)
    ensures Content(es, above, false) == Content(es, above, true) <==> !GuessBreaks(es)
  {
    if GuessBreaks(es) {
      WasteTakesRoom(es);
    }
  }

  /** An element of one octet and one of two: the first is in the file twice. */
  lemma WasteExample(x: byte, y: byte, z: byte, above: Memory)
    ensures Content([[x], [y, z]], above, true) == Prefixed([[x], [y, z]], above)
    ensures Content([[x], [y, z]], above, false) == [x] + Prefixed([[x], [y, z]], above)
  {
    var es: seq<seq<byte>> := [[x], [y, z]];
    assert |es[1]| != |es[0]|;
    assert SameAsFirst(es) == 1;
    assert es[..1] == [[x]] && [[x]][..0] == [];
    assert Body([[x]]) == Body([]) + [x];
  }
}

/** list_dump_filedescriptor and list_restore_filedescriptor, on a file that is octets and a position. */
module ListDump {
  import opened Common
  import opened DumpFormat
  import L = SimcList

  /** What precedes position n once something is written there. */
  function Padded(s: seq<byte>, n: nat): (r: seq<byte>)
    ensures |r| == n
  {
    if |s| < n then s + Zeros(n - |s|) else s[..n]
  }

  /** What of a file lies past its first n octets. */
  function Beyond(s: seq<byte>, n: nat): seq<byte> {
    if |s| > n then s[n..] else []
  }

  /** From position m on, octets and base are the same. */
  ghost predicate KeptFrom(bytes: seq<byte>, base: seq<byte>, m: nat) {
    Beyond(bytes, m) == Beyond(base, m)
  }

  class File {
    var bytes: seq<byte>
    var pos: nat
    ghost var base: seq<byte>

    constructor ()
      ensures bytes == [] && pos == 0
    {
      bytes, pos := [], 0;
    }

    method Seek(p: nat)
      modifies `pos
      ensures pos == p
    {
      pos := p;
    }

    /** The place of the header, before it is written: what is there, and zeros where the file ends short of it. */
    ghost function Hole(): (r: seq<byte>)
      reads this
      ensures |r| == HEADERLEN
    {
      Padded(base, HEADERLEN)
    }

    method Write(d: seq<byte>)
      modifies `bytes, `pos
      ensures pos == old(pos) + |d|
      ensures bytes == Padded(old(bytes), old(pos)) + d + (if pos < |old(bytes)| then old(bytes)[pos..] else [])
    {
      var tail := if pos + |d| < |bytes| then bytes[pos + |d|..] else [];
      bytes := Padded(bytes, pos) + d + tail;
      pos := pos + |d|;
    }

    method Read(n: nat) returns (r: Option<seq<byte>>)
      modifies `pos
      ensures r == Take(bytes, old(pos), n)
      ensures pos == if r.Some? then old(pos) + n else old(pos)
    {
      if pos + n <= |bytes| {
        r := Some(bytes[pos..pos + n]);
        pos := pos + n;
      } else {
        r := None;
      }
    }

    /** The octets before the position are `done`; past it and past `limit` the file is still what it was, `base`. */
    ghost predicate Written(done: seq<byte>, limit: nat)
      reads this
    {
      pos == |done| && Padded(bytes, pos) == done && KeptFrom(bytes, base, if pos < limit then limit else pos)
    }

    method Append(d: seq<byte>, ghost done: seq<byte>, ghost limit: nat)
      requires Written(done, limit)
      modifies `bytes, `pos
      ensures Written(done + d, limit)
      ensures d != [] && limit == 0 ==> bytes == done + d + Beyond(base, |done + d|)
    {
      Write(d);
      assert bytes[..pos] == done + d;
    }

    /** Writes over the start of what is there. */
    method Overwrite(d: seq<byte>, ghost done: seq<byte>, ghost orig: seq<byte>)
      requires pos == |done| && |done| + |d| <= |orig| && bytes == done + orig[|done|..]
      modifies `bytes, `pos
      ensures pos == |done + d| && bytes == done + d + orig[|done + d|..]
    {
      Write(d);
    }

    method WriteHeader(h: Header)
      requires HeaderOk(h) && |bytes| >= HEADERLEN
      modifies `bytes, `pos
      ensures bytes == HeaderBytes(h) + old(bytes)[HEADERLEN..]
    {
      ghost var orig := bytes;
      ghost var a := Be16(VERSION);
      ghost var b := a + Be32(h.sec);
      ghost var c := b + Be32(h.usec);
      ghost var d := c + Be32(h.rndterm);
      ghost var e := d + Be32(h.totlistlen);
      ghost var f := e + Be32(h.numels);
      ghost var g := f + Be32(h.elemlen);
      Seek(0);
      Overwrite(Be16(VERSION), [], orig);
      Overwrite(Be32(h.sec), a, orig);
      Overwrite(Be32(h.usec), b, orig);
      Overwrite(Be32(h.rndterm), c, orig);
      Overwrite(Be32(h.totlistlen), d, orig);
      Overwrite(Be32(h.numels), e, orig);
      Overwrite(Be32(h.elemlen), f, orig);
      Overwrite(Be32(h.hash), g, orig);
    }
  }

  ghost function Encoded<T>(xs: seq<T>, ser: T -> seq<byte>): seq<seq<byte>> {
    seq(|xs|, i requires 0 <= i < |xs| => ser(xs[i]))
  }

  lemma OneMore(es: seq<seq<byte>>, k: nat, above: Memory)
    requires k < |es|
    ensures Body(es[..k + 1]) == Body(es[..k]) + es[k]
    ensures Prefixed(es[..k + 1], above) == Prefixed(es[..k], above) + Prefix(es[k], above(k)) + es[k]
    ensures TotalLen(es[..k + 1]) == TotalLen(es[..k]) + |es[k]|
  {
    assert es[..k + 1][..k] == es[..k];
  }

  lemma {:induction false} PrefixesTakeRoom(es: seq<seq<byte>>, j: nat, above: Memory)
    requires j <= |es|
    ensures |Body(es[..j])| <= |Prefixed(es, above)|
  {
    if j == |es| {
      assert es[..j] == es;
    }
    if es != [] {
      var es' := es[..|es| - 1];
      if j < |es| {
        assert es[..j] == es'[..j];
        PrefixesTakeRoom(es', j, above);
      } else {
        assert es'[..j - 1] == es';
        PrefixesTakeRoom(es', j - 1, above);
      }
    }
  }

  /** While the guess of a constant length holds. */
  ghost predicate Guessing(f: File, es: seq<seq<byte>>, k: nat)
    requires k <= |es| && es != []
    reads f
  {
    && |es[0]| > 0 && AllOfLength(es[..k], |es[0]|)
    && f.Written(f.Hole() + Body(es[..k]), HEADERLEN)
  }

  /** What is before the position when k elements are written with their lengths. */
  ghost function SoFar(hole: seq<byte>, es: seq<seq<byte>>, k: nat, above: Memory, rewinds: bool): seq<byte>
    requires k <= |es|
  {
    hole + Waste(es, rewinds) + Prefixed(es[..k], above)
  }

  lemma SoFarNext(hole: seq<byte>, es: seq<seq<byte>>, k: nat, above: Memory, rewinds: bool)
    requires k < |es| && Is32(|es[k]|)
    ensures SoFar(hole, es, k + 1, above, rewinds) ==
            SoFar(hole, es, k, above, rewinds) + (Host32(|es[k]|) + above(k)) + es[k]
  {
    OneMore(es, k, above);
  }

  /** The most the file can hold when the writer starts again. */
  ghost function Reach(es: seq<seq<byte>>): nat {
    HEADERLEN + if es != [] && |es[0]| > 0 then |Body(es[..SameAsFirst(es)])| else 0
  }

  /** Once every element is written with its length. */
  ghost predicate Prefixing(f: File, es: seq<seq<byte>>, k: nat, above: Memory, rewinds: bool)
    requires k <= |es| && es != []
    reads f
  {
    CommonLength(es) == 0 && f.Written(SoFar(f.Hole(), es, k, above, rewinds), Reach(es))
  }

  method WriteBare(f: File, e: seq<byte>, ghost es: seq<seq<byte>>, ghost k: nat)
    requires k < |es| && e == es[k] && |e| == |es[0]| && Guessing(f, es, k)
    modifies f`bytes, f`pos
    ensures Guessing(f, es, k + 1)
  {
    OneMore(es, k, Nothing);
    f.Append(e, f.Hole() + Body(es[..k]), HEADERLEN);
    assert f.Hole() + Body(es[..k]) + e == f.Hole() + Body(es[..k + 1]);
  }

  method WritePrefixed(f: File, e: seq<byte>, ghost above: Memory, beside: seq<byte>, rewinds: bool,
                       ghost es: seq<seq<byte>>, ghost k: nat)
    requires k < |es| && beside == above(k) && e == es[k] && Is32(|e|) && Prefixing(f, es, k, above, rewinds)
    modifies f`bytes, f`pos
    ensures Prefixing(f, es, k + 1, above, rewinds)
  {
    ghost var done := SoFar(f.Hole(), es, k, above, rewinds);
    SoFarNext(f.Hole(), es, k, above, rewinds);
    f.Append(Host32(|e|) + beside, done, Reach(es));
    f.Append(e, done + (Host32(|e|) + beside), Reach(es));
  }

  lemma PadTwice(s: seq<byte>, n: nat, m: nat)
    requires m <= n
    ensures Padded(s, m) == Padded(s, n)[..m]
  {
  }

  /** The element at k breaks the guess: all is to be written again. */
  method Restart(f: File, rewinds: bool, above: Memory, ghost es: seq<seq<byte>>, ghost k: nat)
    requires k < |es| && Guessing(f, es, k) && |es[k]| != |es[0]|
    modifies f`bytes, f`pos
    ensures Prefixing(f, es, 0, above, rewinds)
  {
    assert SameAsFirst(es) == k by {
      forall i | 0 <= i < k ensures |es[i]| == |es[0]| {
        assert es[..k][i] == es[i];
      }
    }
    assert !AllOfLength(es, |es[0]|);
    if rewinds {
      PadTwice(f.bytes, f.pos, HEADERLEN);
      f.Seek(HEADERLEN);
    }
    assert SoFar(f.Hole(), es, 0, above, rewinds) == f.Hole() + Waste(es, rewinds);
  }

  /** The entry after entry k of the chain ns, the head sentinel being number 0. */
  method After<T(0)>(x: L.Entry<T>, tail: L.Entry<T>, ghost k: nat, ghost ns: seq<L.Entry<T>>, ghost s: seq<T>,
                     ghost r: set<L.Entry<T>>)
    returns (y: L.Entry<T>)
    requires L.Linked(ns, r) && L.Carries(ns, s, r) && k <= |s| && x == ns[k] && tail == ns[|s| + 1]
    ensures y == ns[k + 1] && (y == tail <==> k == |s|)
    ensures k < |s| ==> y.data == s[k]
  {
    assert L.LinkAt(ns, k, r);
    y := x.next;
    L.SameIndex(ns, k + 1, |s| + 1);
    if k < |s| {
      assert L.DataAt(ns, s, k, r);
    }
  }

  /** The part of the file written so far, by the guess of a constant length or without it. */
  ghost predicate InLoop(f: File, es: seq<seq<byte>>, k: nat, elemlen: nat, total: nat, above: Memory,
                         rewinds: bool, restarts: nat)
    requires k <= |es| && es != []
    reads f
  {
    && total == U32(TotalLen(es[..k]))
    && (if elemlen != 0 then elemlen == |es[0]| && restarts == 0 && Guessing(f, es, k)
        else restarts == (if |es[0]| > 0 then 1 else 0) && Prefixing(f, es, k, above, rewinds))
  }

  lemma LoopStarts(f: File, es: seq<seq<byte>>, above: Memory, rewinds: bool)
    requires es != [] && f.pos == HEADERLEN && f.bytes == f.base
    ensures InLoop(f, es, 0, |es[0]|, 0, above, rewinds, 0)
  {
    assert f.Hole() == f.Hole() + Body(es[..0]);
    if |es[0]| == 0 {
      assert SoFar(f.Hole(), es, 0, above, rewinds) == f.Hole();
    }
  }

  /** One turn of the loop: true if the element is written, false if all is to be written again. */
  method WriteElement(f: File, e: seq<byte>, rewinds: bool, above: Memory, elemlen0: nat, total0: nat,
                      ghost es: seq<seq<byte>>, k0: nat, ghost restarts0: nat)
    returns (elemlen: nat, total: nat, written: bool, k: nat, ghost restarts: nat)
    requires k0 < |es| && e == es[k0] && Is32(|e|) && InLoop(f, es, k0, elemlen0, total0, above, rewinds, restarts0)
    modifies f`bytes, f`pos
    ensures k <= |es| && InLoop(f, es, k, elemlen, total, above, rewinds, restarts)
    ensures k == if written then k0 + 1 else 0
    ensures if written then elemlen == elemlen0 else elemlen0 != 0 && elemlen == 0
  {
    elemlen, total, k, restarts := elemlen0, U32(total0 + |e|), k0 + 1, restarts0;
    OneMore(es, k0, above);
    AddU32(TotalLen(es[..k0]), |e|);
    if elemlen != 0 {
      if elemlen != |e| {
        Restart(f, rewinds, above, es, k0);
        elemlen, total, written, k, restarts := 0, 0, false, 0, 1;
      } else {
        WriteBare(f, e, es, k0);
        written := true;
      }
    } else {
      WritePrefixed(f, e, above, above(k0), rewinds, es, k0);
      written := true;
    }
  }

  lemma GuessDone(f: File, es: seq<seq<byte>>, above: Memory, rewinds: bool)
    requires es != [] && Guessing(f, es, |es|)
    ensures f.Written(f.Hole() + Content(es, above, rewinds), 0) && CommonLength(es) == |es[0]|
  {
    assert es[..|es|] == es;
  }

  lemma PrefixesDone(f: File, es: seq<seq<byte>>, above: Memory, rewinds: bool)
    requires es != [] && Prefixing(f, es, |es|, above, rewinds)
    ensures f.Written(f.Hole() + Content(es, above, rewinds), 0)
  {
    assert es[..|es|] == es;
    PrefixesTakeRoom(es, SameAsFirst(es), above);
    assert |SoFar(f.Hole(), es, |es|, above, rewinds)| >= Reach(es);
    Regroup(f.Hole(), Waste(es, rewinds), Prefixed(es, above));
  }

  lemma Regroup(a: seq<byte>, b: seq<byte>, c: seq<byte>)
    ensures a + b + c == a + (b + c)
  {
  }

  lemma LoopDone(f: File, es: seq<seq<byte>>, elemlen: nat, total: nat, above: Memory, rewinds: bool, restarts: nat)
    requires es != [] && InLoop(f, es, |es|, elemlen, total, above, rewinds, restarts)
    ensures f.Written(f.Hole() + Content(es, above, rewinds), 0)
    ensures elemlen == CommonLength(es) && total == U32(TotalLen(es))
    ensures restarts == if |es[0]| > 0 && CommonLength(es) == 0 then 1 else 0
  {
    assert es[..|es|] == es;
    if elemlen == 0 {
      PrefixesDone(f, es, above, rewinds);
    } else {
      GuessDone(f, es, above, rewinds);
    }
  }

  /** The loop over the elements, which starts again at most once.  k tells whose turn it is. */
  method WriteElements<T(0)>(l: L.List<T>, f: File, ser: T -> seq<byte>, rewinds: bool, above: Memory,
                             ghost es: seq<seq<byte>>)
    returns (elemlen: nat, total: nat, ghost restarts: nat)
    requires l.Chained() && es == Encoded(l.contents, ser) && es != []
    requires forall i :: 0 <= i < |es| ==> Is32(|es[i]|)
    requires f.pos == HEADERLEN && f.bytes == f.base
    modifies f`bytes, f`pos
    ensures f.Written(f.Hole() + Content(es, above, rewinds), 0)
    ensures elemlen == CommonLength(es) && total == U32(TotalLen(es))
    ensures restarts == if |es[0]| > 0 && CommonLength(es) == 0 then 1 else 0
  {
    ghost var ns, s, r := l.nodes, l.contents, l.repr;
    var head, tail := l.headSentinel, l.tailSentinel;
    var x := After(head, tail, 0, ns, s, r);
    elemlen, total, restarts := |ser(x.data)|, 0, 0;
    var k := 0;
    LoopStarts(f, es, above, rewinds);
    while x != tail
      invariant L.Linked(ns, r) && L.Carries(ns, s, r)
      invariant 0 <= k <= |es| && x == ns[k + 1] && (x == tail <==> k == |es|)
      invariant k < |es| ==> x.data == s[k]
      invariant InLoop(f, es, k, elemlen, total, above, rewinds, restarts)
      decreases elemlen != 0, |es| - k
    {
      var written: bool;
      elemlen, total, written, k, restarts :=
        WriteElement(f, ser(x.data), rewinds, above, elemlen, total, es, k, restarts);
      x := After(if written then x else head, tail, k, ns, s, r);
    }
    LoopDone(f, es, elemlen, total, above, rewinds, restarts);
  }

  lemma WithoutHole(hole: seq<byte>, content: seq<byte>, term: seq<byte>, rest: seq<byte>)
    requires |hole| == HEADERLEN
    ensures (hole + content + term + rest)[HEADERLEN..] == content + term + rest
  {
  }

  /** The terminator after the elements, and the header before them. */
  method Complete(f: File, h: Header, ghost content: seq<byte>)
    requires HeaderOk(h) && f.Written(f.Hole() + content, 0)
    modifies f`bytes, f`pos
    ensures var d := HeaderBytes(h) + content + Be32(h.rndterm); f.bytes == d + Beyond(f.base, |d|)
  {
    ghost var term := Be32(h.rndterm);
    f.Append(Be32(h.rndterm), f.Hole() + content, 0);
    WithoutHole(f.Hole(), content, term, Beyond(f.base, |f.Hole() + content + term|));
    f.WriteHeader(h);
  }

  /**
   list_dump_filedescriptor.  With `rewinds` it is the path of a serializer, without it the path of a
   meter.  What the file held beyond the end of the dump stays.  The length reported is 32, the size
   of the header structure in memory, and the octets of all elements modulo 2^32.
   */
  method Dump<T(0)>(l: L.List<T>, f: File, ser: T -> seq<byte>, rewinds: bool, st: Stamp, above: Memory)
    returns (len: nat, ghost restarts: nat)
    requires l.Valid() && Dumpable(Encoded(l.contents, ser), st)
    modifies f
    ensures var d := Dumped(Encoded(l.contents, ser), st, above, rewinds); f.bytes == d + Beyond(old(f.bytes), |d|)
    ensures len == 32 + U32(TotalLen(Encoded(l.contents, ser)))
    ensures restarts == if GuessBreaks(Encoded(l.contents, ser)) then 1 else 0
  {
    ghost var es := Encoded(l.contents, ser);
    var elemlen, total := 0, 0;
    restarts := 0;
    f.base := f.bytes;
    f.Seek(HEADERLEN);
    if l.numels > 0 {
      elemlen, total, restarts := WriteElements(l, f, ser, rewinds, above, es);
    } else {
      assert f.Hole() == f.Hole() + Content(es, above, rewinds);
    }
    Complete(f, Header(st.sec, st.usec, st.rndterm, total, l.numels, elemlen, st.hash), Content(es, above, rewinds));
    len := 32 + total;
  }

  // ---------- restore ----------

  method ReadField(f: File) returns (n: Option<nat>)
    modifies f`pos
    ensures n == if old(f.pos) + 4 <= |f.bytes| then Some(Field(f.bytes, old(f.pos))) else None
    ensures f.pos == if n.Some? then old(f.pos) + 4 else old(f.pos)
  {
    var b := f.Read(4);
    n := if b.Some? then Some(From32(b.value)) else None;
  }

  /** The reads of the header: the version, the stamp and the terminator, the three sizes, the hash. */
  method ReadHeaderFields(f: File) returns (h: Option<Header>)
    requires f.pos == 0
    modifies f`pos
    ensures h == ReadHeader(f.bytes)
    ensures h.Some? ==> f.pos == HEADERLEN
  {
    var ver := f.Read(2);
    if ver.None? || From16(ver.value) != VERSION {
      return None;
    }
    var sec := ReadField(f);
    var usec := ReadField(f);
    var rndterm := ReadField(f);
    if rndterm.None? {
      return None;
    }
    var totlistlen := ReadField(f);
    var numels := ReadField(f);
    var elemlen := ReadField(f);
    var hash := ReadField(f);
    if hash.None? {
      return None;
    }
    h := Some(Header(sec.value, usec.value, rndterm.value, totlistlen.value, numels.value, elemlen.value, hash.value));
  }

  ghost function Decoded<T>(es: seq<seq<byte>>, unser: seq<byte> -> T): seq<T> {
    seq(|es|, i requires 0 <= i < |es| => unser(es[i]))
  }

  /** What a list gains from read elements: nothing while it is being iterated over. */
  ghost function Gained<T>(active: bool, es: seq<seq<byte>>, unser: seq<byte> -> T): seq<T> {
    if active then [] else Decoded(es, unser)
  }

  lemma DecodedAppend<T>(es: seq<seq<byte>>, e: seq<byte>, unser: seq<byte> -> T)
    ensures Decoded(es + [e], unser) == Decoded(es, unser) + [unser(e)]
  {
  }

  /** list_append */
  method Append<T(0)>(l: L.List<T>, data: T)
    requires l.Valid()
    modifies l`numels, l`mid, l`nodes, l`contents, l`spareelsnum, l`repr, l.spareels, l.repr
    ensures l.Valid() && fresh(l.repr - old(l.repr))
    ensures l.contents == old(l.contents) + if l.iterActive then [] else [data]
  {
    ghost var s := l.contents;
    var code := l.InsertAt(data, l.numels);
    assert L.Inserted(s, |s|, data) == s + [data];
  }

  /** One element is read: its length first, if the header does not give it. */
  method ReadOne(f: File, elemlen: nat) returns (e: Option<seq<byte>>)
    modifies f`pos
    ensures e == ReadElement(f.bytes, old(f.pos), elemlen)
    ensures e.Some? ==> f.pos == old(f.pos) + Room(e.value, elemlen)
  {
    if elemlen > 0 {
      e := f.Read(elemlen);
    } else {
      var elsize := f.Read(4);
      e := None;
      if elsize.Some? {
        e := f.Read(FromHost32(elsize.value));
      }
    }
  }

  /** One turn of the loop of list_restore: an element is read and appended. */
  method ReadAppend<T(0)>(l: L.List<T>, f: File, elemlen: nat, unser: seq<byte> -> T,
                          ghost before: seq<T>, ghost es: seq<seq<byte>>)
    returns (e: Option<seq<byte>>)
    requires l.Valid() && l.contents == before + Gained(l.iterActive, es, unser)
    modifies f`pos, l`numels, l`mid, l`nodes, l`contents, l`spareelsnum, l`repr, l.spareels, l.repr
    ensures l.Valid() && fresh(l.repr - old(l.repr))
    ensures e == ReadElement(f.bytes, old(f.pos), elemlen)
    ensures e.Some? ==> f.pos == old(f.pos) + Room(e.value, elemlen)
    ensures l.contents == before + Gained(l.iterActive, if e.Some? then es + [e.value] else es, unser)
  {
    e := ReadOne(f, elemlen);
    if e.Some? {
      DecodedAppend(es, e.value, unser);
      Append(l, unser(e.value));
    }
  }

  /** What the turns of the loop read, one after the other. */
  ghost predicate Turns(rs: seq<Elements>, f: seq<byte>, pos: nat, elemlen: nat, count: nat) {
    && |rs| == count + 1 && rs[0] == Elements([], 0, pos)
    && forall i :: 0 <= i < count ==> rs[i + 1] == Extend(f, rs[i], elemlen)
  }

  ghost function AllTurns(f: seq<byte>, pos: nat, elemlen: nat, count: nat): (rs: seq<Elements>)
    ensures Turns(rs, f, pos, elemlen, count) && rs[count] == ReadElements(f, pos, elemlen, count)
  {
    if count == 0 then [Elements([], 0, pos)]
    else
      var rs := AllTurns(f, pos, elemlen, count - 1);
      rs + [Extend(f, rs[count - 1], elemlen)]
  }

  lemma {:induction false} ShortStays(rs: seq<Elements>, f: seq<byte>, pos: nat, elemlen: nat, c: nat, count: nat)
    requires c <= count && Turns(rs, f, pos, elemlen, count) && rs[c].Short?
    ensures rs[count].Short?
    decreases count - c
  {
    if c < count {
      ShortStays(rs, f, pos, elemlen, c + 1, count);
    }
  }

  /** One turn of the loop of list_restore. */
  method ReadTurn<T(0)>(l: L.List<T>, f: File, elemlen: nat, unser: seq<byte> -> T, total0: nat,
                        ghost before: seq<T>, ghost es0: seq<seq<byte>>)
    returns (ok: bool, total: nat, ghost es: seq<seq<byte>>)
    requires l.Valid() && l.contents == before + Gained(l.iterActive, es0, unser)
    modifies f`pos, l`numels, l`mid, l`nodes, l`contents, l`spareelsnum, l`repr, l.spareels, l.repr
    ensures l.Valid() && fresh(l.repr - old(l.repr)) && l.contents == before + Gained(l.iterActive, es, unser)
    ensures Extend(f.bytes, Elements(es0, total0, old(f.pos)), elemlen) ==
            if ok then Elements(es, total, f.pos) else Short
  {
    var e := ReadAppend(l, f, elemlen, unser, before, es0);
    ok, total, es := e.Some?, total0, es0;
    if e.Some? {
      total, es := U32(total0 + |e.value|), es0 + [e.value];
    }
  }

  /** The loop of list_restore.  What was read before the file came to its end stays on the list. */
  method ReadInto<T(0)>(l: L.List<T>, f: File, elemlen: nat, count: nat, unser: seq<byte> -> T)
    returns (ok: bool, total: nat, ghost es: seq<seq<byte>>)
    requires l.Valid()
    modifies f`pos, l`numels, l`mid, l`nodes, l`contents, l`spareelsnum, l`repr, l.spareels, l.repr
    ensures l.Valid() && l.contents == old(l.contents) + Gained(l.iterActive, es, unser)
    ensures ReadElements(f.bytes, old(f.pos), elemlen, count) == if ok then Elements(es, total, f.pos) else Short
  {
    ok, total, es := true, 0, [];
    ghost var bytes, start, before, active := f.bytes, f.pos, l.contents, l.iterActive;
    ghost var rs := AllTurns(bytes, start, elemlen, count);
    var cnt := 0;
    while cnt < count && ok
      invariant 0 <= cnt <= count && l.Valid() && fresh(l.repr - old(l.repr))
      invariant l.contents == before + Gained(active, es, unser)
      invariant rs[cnt] == if ok then Elements(es, total, f.pos) else Short
    {
      ok, total, es := ReadTurn(l, f, elemlen, unser, total, before, es);
      cnt := cnt + 1;
    }
    if !ok {
      ShortStays(rs, bytes, start, elemlen, cnt, count);
    }
  }

  /** list_restore_filedescriptor: the elements of the file go to the end of the list. */
  method Restore<T(0)>(l: L.List<T>, f: File, unser: seq<byte> -> T) returns (code: int)
    requires l.Valid() && f.pos == 0
    modifies f`pos, l`numels, l`mid, l`nodes, l`contents, l`spareelsnum, l`repr, l.spareels, l.repr
    ensures l.Valid() && old(l.contents) <= l.contents
    ensures code == if Parse(f.bytes).Some? then 0 else -1
    ensures code == 0 ==> f.pos == |f.bytes|
    ensures code == 0 ==> l.contents == old(l.contents) + Gained(l.iterActive, Parse(f.bytes).value, unser)
  {
    var h := ReadHeaderFields(f);
    if h.None? {
      return -1;
    }
    var ok, total;
    ghost var es;
    ok, total, es := ReadInto(l, f, h.value.elemlen, h.value.numels, unser);
    if !ok {
      return -1;
    }
    if h.value.elemlen > 0 {
      total := U32(h.value.numels * h.value.elemlen);
    }
    var term := ReadField(f);
    if term.None? || (total != h.value.totlistlen && term.value == h.value.rndterm) || f.pos != |f.bytes| {
      return -1;
    }
    return 0;
  }

  lemma DecodedEncoded<T>(xs: seq<T>, ser: T -> seq<byte>, unser: seq<byte> -> T)
    requires forall i :: 0 <= i < |xs| ==> unser(ser(xs[i])) == xs[i]
    ensures Decoded(Encoded(xs, ser), unser) == xs
  {
  }

  method DumpAndRewind<T(0)>(l: L.List<T>, f: File, ser: T -> seq<byte>, rewinds: bool, st: Stamp, above: Memory,
                             ghost width: nat)
    requires l.Valid() && Dumpable(Encoded(l.contents, ser), st)
    requires Wide(above, width) && Restorable(Encoded(l.contents, ser), width, rewinds)
    modifies f
    ensures f.pos == 0
    ensures var es := Encoded(l.contents, ser);
      Parse(f.bytes) == if |old(f.bytes)| <= |Dumped(es, st, above, rewinds)| then Some(es) else None
  {
    ghost var es := Encoded(l.contents, ser);
    ghost var restarts, extra := 0, Beyond(f.bytes, |Dumped(es, st, above, rewinds)|);
    RoundTrip(es, st, above, width, rewinds, extra);
    var len;
    len, restarts := Dump(l, f, ser, rewinds, st, above);
    f.Seek(0);
  }

  /**
   A restorable list, dumped into a file and restored into an empty list, comes back as it was, and the
   whole file is used, if and only if the file was no longer than the dump.
   */
  method DumpThenRestore<T(0)>(l: L.List<T>, l': L.List<T>, f: File, ser: T -> seq<byte>, unser: seq<byte> -> T,
                               rewinds: bool, st: Stamp, above: Memory, ghost width: nat)
    returns (code: int)
    requires l.Valid() && l'.Valid() && l'.contents == [] && !l'.iterActive
    requires Dumpable(Encoded(l.contents, ser), st)
    requires Wide(above, width) && Restorable(Encoded(l.contents, ser), width, rewinds)
    requires forall i :: 0 <= i < |l.contents| ==> unser(ser(l.contents[i])) == l.contents[i]
    modifies f, l'`numels, l'`mid, l'`nodes, l'`contents, l'`spareelsnum, l'`repr, l'.spareels, l'.repr
    ensures l'.Valid()
    ensures code == 0 <==> |old(f.bytes)| <= |Dumped(Encoded(old(l.contents), ser), st, above, rewinds)|
    ensures code == 0 ==> l'.contents == old(l.contents) && f.pos == |f.bytes|
  {
    ghost var es := Encoded(l.contents, ser);
    DecodedEncoded(l.contents, ser, unser);
    DumpAndRewind(l, f, ser, rewinds, st, above, width);
    code := Restore(l', f, unser);
  }
}
