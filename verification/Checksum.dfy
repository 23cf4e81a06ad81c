/**
 The Internet checksum of RFC 1071 as the router computes it: big-endian words summed in a 32-bit
 accumulator, carries folded back in, the complement swapped to network order, and 0 never returned.
 The host is little-endian, so htons swaps the octets of a word.
 */
module Checksum {
  import opened Common

  const M := 0xffff

  function Swap(w: nat): (r: nat)
    requires w <= M
    ensures r <= M
  {
    (w % 0x100) * 0x100 + w / 0x100
  }

  lemma SwapTwice(w: nat)
    requires w <= M
    ensures Swap(Swap(w)) == w
  {
    var h, l := w / 0x100, w % 0x100;
    assert Swap(w) == 0x100 * l + h;
    assert Swap(w) / 0x100 == l && Swap(w) % 0x100 == h;
  }

  /** The words of a buffer added up, a last odd octet being the high half of a word. */
  function WordSum(d: seq<byte>): nat {
    if |d| == 0 then 0
    else if |d| == 1 then 0x100 * (d[0] as int)
    else 0x100 * (d[0] as int) + d[1] as int + WordSum(d[2..])
  }

  /** An odd octet counts as if a zero octet followed it. */
  lemma {:induction false} OddAsPadded(d: seq<byte>)
    requires |d| % 2 == 1
    ensures WordSum(d) == WordSum(d + [0])
    decreases |d|
  {
    if |d| == 1 {
      assert (d + [0])[2..] == [];
    } else {
      assert (d + [0])[2..] == d[2..] + [0];
      OddAsPadded(d[2..]);
    }
  }

  /** One pass of folding: the carries come back in. */
  function FoldOnce(sum: nat): nat {
    sum / 0x1_0000 + sum % 0x1_0000
  }

  function Fold(sum: nat): (r: nat)
    ensures r <= M
  {
    if sum > M then Fold(FoldOnce(sum)) else sum
  }

  /** The complement of a folded sum in network order, and never 0. */
  function Finish(sum: nat): (r: nat)
    ensures 0 < r <= M
  {
    var r := Swap(M - Fold(sum));
    if r != 0 then r else M
  }

  /** What cksum returns. */
  function Cksum(d: seq<byte>): (r: nat)
    ensures 0 < r <= M
  {
    Finish(WordSum(d))
  }

  // ---------- folding ----------

  /** Folding keeps the sum's residue modulo 65535 and never turns a nonzero sum into zero. */
  lemma {:induction false} FoldKeepsResidue(sum: nat)
    ensures Fold(sum) % M == sum % M && (Fold(sum) == 0 <==> sum == 0)
    decreases sum
  {
    if sum > M {
      var h, l := sum / 0x1_0000, sum % 0x1_0000;
      assert sum == FoldOnce(sum) + M * h;
      ResidueOfMultiple(FoldOnce(sum), h);
      FoldKeepsResidue(FoldOnce(sum));
    }
  }

  lemma ResidueOfMultiple(a: int, h: int)
    ensures (a + M * h) % M == a % M
  {
    var q, r := a / M, a % M;
    assert a + M * h == M * (q + h) + r;
  }

  /** So a folded sum is the residue, but for a nonzero multiple of 65535, which folds to 65535. */
  lemma FoldIsResidue(sum: nat)
    ensures Fold(sum) == if sum % M != 0 then sum % M else if sum == 0 then 0 else M
  {
    FoldKeepsResidue(sum);
  }

  lemma {:induction false} SumFits(d: seq<byte>)
    ensures WordSum(d) <= M * ((|d| + 1) / 2)
    decreases |d|
  {
    if |d| > 1 {
      SumFits(d[2..]);
    }
  }

  function Pair(d: seq<byte>, i: nat): nat
    requires i + 2 <= |d|
  {
    0x100 * (d[i] as int) + d[i + 1] as int
  }

  lemma NextPair(d: seq<byte>, i: nat)
    requires i + 2 <= |d|
    ensures WordSum(d[i..]) == Pair(d, i) + WordSum(d[i + 2..])
  {
    assert d[i..][2..] == d[i + 2..];
  }

  /** The first loop of cksum, in an accumulator of 32 bits. */
  method SumWords(d: seq<byte>) returns (sum: nat)
    ensures sum == U32(WordSum(d))
  {
    var i := 0;
    ghost var exact := 0;
    sum := 0;
    while |d| - i >= 2
      invariant 0 <= i <= |d| && exact + WordSum(d[i..]) == WordSum(d) && sum == U32(exact)
    {
      NextPair(d, i);
      AddU32(exact, Pair(d, i));
      sum, exact := U32(sum + Pair(d, i)), exact + Pair(d, i);
      i := i + 2;
    }
    if |d| - i > 0 {
      AddU32(exact, 0x100 * (d[i] as int));
      sum := U32(sum + 0x100 * (d[i] as int));
    }
  }

  lemma AccumulatorSuffices(d: seq<byte>)
    requires |d| <= 131074
    ensures U32(WordSum(d)) == WordSum(d)
  {
    SumFits(d);
  }

  /** cksum.  The 32 bits of the accumulator are enough for a buffer of at most 131074 octets. */
  method ComputeCksum(d: seq<byte>) returns (r: nat)
    ensures r == Finish(U32(WordSum(d)))
    ensures |d| <= 131074 ==> r == Cksum(d)
  {
    var sum: nat := SumWords(d);
    while sum > M
      invariant Fold(sum) == Fold(U32(WordSum(d)))
      decreases sum
    {
      sum := sum / 0x1_0000 + sum % 0x1_0000;
    }
    sum := Swap(M - sum);
    r := if sum != 0 then sum else M;
    if |d| <= 131074 {
      AccumulatorSuffices(d);
    }
  }

  // ---------- what the checksum is for ----------

  /** 0xffff says that the words add up to nothing modulo 65535, and only that. */
  lemma AllOnesIff(d: seq<byte>)
    ensures Cksum(d) == M <==> WordSum(d) % M == 0
  {
    FoldIsResidue(WordSum(d));
    SwapTwice(M - Fold(WordSum(d)));
  }

  /** A 16-bit value put into memory at an even offset, by a little-endian host. */
  function Store(d: seq<byte>, k: nat, w: nat): seq<byte>
    requires k + 1 < |d| && w <= M
  {
    d[k := w % 0x100][k + 1 := w / 0x100]
  }

  lemma {:induction false} StoreAddsWord(d: seq<byte>, k: nat, w: nat)
    requires k % 2 == 0 && k + 1 < |d| && w <= M && d[k] == 0 && d[k + 1] == 0
    ensures WordSum(Store(d, k, w)) == WordSum(d) + Swap(w)
    decreases k
  {
    if k == 0 {
      assert Store(d, k, w)[2..] == d[2..];
    } else {
      assert Store(d, k, w)[2..] == Store(d[2..], k - 2, w);
      StoreAddsWord(d[2..], k - 2, w);
    }
  }

  lemma SumOfResidues(a: int, b: int)
    requires a % M == b % M
    ensures (a - b) % M == 0
  {
    var q := a / M - b / M;
    assert a - b == M * q;
  }

  lemma Completes(sum: nat, f: nat, w: nat)
    requires sum % M == f % M && f <= M && w == if f < M then M - f else M
    ensures (sum + w) % M == 0
  {
    SumOfResidues(sum, f);
    ResidueOfMultiple(sum - f, if f < M then 1 else 2);
  }

  lemma FinishSwapped(sum: nat)
    ensures Swap(Finish(sum)) == if Fold(sum) < M then M - Fold(sum) else M
  {
    SwapTwice(M - Fold(sum));
  }

  /** The word cksum leaves in memory, read big-endian, completes the sum to a multiple of 65535. */
  lemma CompletesSum(d: seq<byte>)
    ensures (WordSum(d) + Swap(Cksum(d))) % M == 0
  {
    FinishSwapped(WordSum(d));
    FoldKeepsResidue(WordSum(d));
    Completes(WordSum(d), Fold(WordSum(d)), Swap(Cksum(d)));
  }

  /**
   RFC 1071, section 1: with cksum's result stored in the zeroed field it was computed over, a second
   cksum over the buffer returns 0xffff.
   */
  lemma StoredVerifies(d: seq<byte>, k: nat)
    requires k % 2 == 0 && k + 1 < |d| && d[k] == 0 && d[k + 1] == 0
    ensures Cksum(Store(d, k, Cksum(d))) == M
  {
    StoreAddsWord(d, k, Cksum(d));
    CompletesSum(d);
    AllOnesIff(Store(d, k, Cksum(d)));
  }

  lemma ApartUnlessSame(c: nat)
    requires c <= M
    ensures (Swap(c) - c) % M == 0 <==> c / 0x100 == c % 0x100
  {
    var hi, lo := c / 0x100, c % 0x100;
    assert Swap(c) - c == 255 * (lo - hi);
  }

  /**
   The router swaps the result once more before it stores it.  The forwarded header then verifies if
   and only if the two octets of the checksum are the same.
   */
  lemma SwappedVerifiesIff(d: seq<byte>, k: nat)
    requires k % 2 == 0 && k + 1 < |d| && d[k] == 0 && d[k + 1] == 0
    ensures Cksum(Store(d, k, Swap(Cksum(d)))) == M <==> Cksum(d) / 0x100 == Cksum(d) % 0x100
  {
    var c, sum := Cksum(d), WordSum(d);
    StoreAddsWord(d, k, Swap(c));
    AllOnesIff(Store(d, k, Swap(c)));
    SwapTwice(c);
    CompletesSum(d);
    ApartUnlessSame(c);
    if (sum + c) % M == 0 {
      SumOfResidues(sum + Swap(c), sum + c);
    }
    if (Swap(c) - c) % M == 0 {
      SumOfResidues(sum + Swap(c), Swap(c) - c);
    }
  }

  // ---------- a header that fails ----------

  /** A header without options, from 10.0.0.1 to 10.0.0.2, its checksum at octet 10 zeroed. */
  const HEADER: seq<byte> :=
    [0x45, 0, 0, 0x14] + ([0, 0, 0x40, 0] + ([0x40, 1, 0, 0] + ([10, 0, 0, 1] + [10, 0, 0, 2])))

  lemma {:induction false} SumSplits(a: seq<byte>, b: seq<byte>)
    requires |a| % 2 == 0
    ensures WordSum(a + b) == WordSum(a) + WordSum(b)
    decreases |a|
  {
    if a == [] {
      assert a + b == b;
    } else {
      assert (a + b)[2..] == a[2..] + b;
      SumSplits(a[2..], b);
    }
  }

  lemma TwoWords(p: byte, q: byte, r: byte, s: byte, rest: seq<byte>)
    ensures WordSum([p, q, r, s] + rest) == 0x100 * ((p as int) + (r as int)) + (q as int) + (s as int) + WordSum(rest)
  {
    var x: seq<byte>, y: seq<byte> := [p, q, r, s], [r, s];
    assert x[2..] == y && y[2..] == [];
    assert WordSum(y) == 0x100 * (r as int) + (s as int) + WordSum([]);
    SumSplits(x, rest);
  }

  lemma HeaderSum()
    ensures WordSum(HEADER) == 0xd918
  {
    var e: seq<byte> := [10, 0, 0, 2];
    var d: seq<byte> := [10, 0, 0, 1] + e;
    var c: seq<byte> := [0x40, 1, 0, 0] + d;
    var b: seq<byte> := [0, 0, 0x40, 0] + c;
    TwoWords(0x45, 0, 0, 0x14, b);
    TwoWords(0, 0, 0x40, 0, c);
    TwoWords(0x40, 1, 0, 0, d);
    TwoWords(10, 0, 0, 1, e);
    TwoWords(10, 0, 0, 2, []);
    assert e + [] == e;
  }

  lemma FinishExample()
    ensures Finish(0xd918) == 0xe726
  {
    assert Fold(0xd918) == 0xd918;
  }

  lemma SwappedFails(d: seq<byte>, k: nat)
    requires k % 2 == 0 && k + 1 < |d| && d[k] == 0 && d[k + 1] == 0 && WordSum(d) == 0xd918
    ensures Cksum(d) == 0xe726 && Cksum(Store(d, k, Swap(Cksum(d)))) != M
  {
    FinishExample();
    SwappedVerifiesIff(d, k);
  }

  /** Its checksum has two different octets, and a header with them stored as the router does is refused. */
  lemma SwappedExample()
    ensures Cksum(HEADER) == 0xe726 && Cksum(Store(HEADER, 10, Swap(Cksum(HEADER)))) != M
  {
    HeaderSum();
    SwappedFails(HEADER, 10);
  }
}
