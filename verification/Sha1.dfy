/** The secure hash of FIPS PUB 180-1, for messages of whole octets. */
module Fips180 {
  import opened Common

  type word = bv32

  /** Section 3: the circular left shift S^n. */
  function S(n: nat, x: word): word
    requires n <= 32
  {
    (x << n) | (x >> (32 - n))
  }

  /** Section 5: the logical functions. */
  function F(t: nat, b: word, c: word, d: word): word {
    if t < 20 then Choice(b, c, d) else if 40 <= t < 60 then Majority(b, c, d) else Parity(b, c, d)
  }

  function Choice(b: word, c: word, d: word): word { (b & c) | (!b & d) }

  function Majority(b: word, c: word, d: word): word { (b & c) | (b & d) | (c & d) }

  function Parity(b: word, c: word, d: word): word { b ^ c ^ d }

  /** Addition of words is modulo 2^32. */
  function Add(x: word, y: word): word { x + y }

  /** Section 6: the constants. */
  function K(t: nat): word {
    if t < 20 then 0x5A827999 else if t < 40 then 0x6ED9EBA1 else if t < 60 then 0x8F1BBCDC else 0xCA62C1D6
  }

  function Word(x: byte): word {
    x as word
  }

  function BigEndian(b: seq<byte>): word
    requires |b| == 4
  {
    (Word(b[0]) << 24) | (Word(b[1]) << 16) | (Word(b[2]) << 8) | Word(b[3])
  }

  /** Section 7, steps a and b: word t of the schedule of a block. */
  function W(block: seq<byte>, t: nat): word
    requires |block| == 64
  {
    if t < 16 then BigEndian(block[4 * t..4 * t + 4])
    else S(1, W(block, t - 3) ^ W(block, t - 8) ^ W(block, t - 14) ^ W(block, t - 16))
  }

  datatype Five = Five(a: word, b: word, c: word, d: word, e: word)

  const H0 := Five(0x67452301, 0xEFCDAB89, 0x98BADCFE, 0x10325476, 0xC3D2E1F0)

  /** Section 7, step d: one of the eighty rounds. */
  function Round(v: Five, t: nat, w: word): Five {
    Five(Add(Add(Add(Add(S(5, v.a), F(t, v.b, v.c, v.d)), v.e), w), K(t)), v.a, S(30, v.b), v.c, v.d)
  }

  function Rounds(h: Five, block: seq<byte>, t: nat): Five
    requires |block| == 64
  {
    if t == 0 then h else Round(Rounds(h, block, t - 1), t - 1, W(block, t - 1))
  }

  function Sum(h: Five, v: Five): Five {
    Five(Add(h.a, v.a), Add(h.b, v.b), Add(h.c, v.c), Add(h.d, v.d), Add(h.e, v.e))
  }

  function Compress(h: Five, block: seq<byte>): Five
    requires |block| == 64
  {
    Sum(h, Rounds(h, block, 80))
  }

  /** The blocks of a padded message, one after the other. */
  function Fold(h: Five, m: seq<byte>): Five
    decreases |m|
  {
    if |m| < 64 then h else Fold(Compress(h, m[..64]), m[64..])
  }

  /** A number below 2^64 as two words of four octets. */
  function Octets64(n: nat): (s: seq<byte>)
    requires n < 0x1_0000_0000_0000_0000
    ensures |s| == 8
  {
    Be32(n / 0x1_0000_0000) + Be32(n % 0x1_0000_0000)
  }

  predicate Hashable(m: seq<byte>) {
    8 * |m| < 0x1_0000_0000_0000_0000
  }

  /** Section 4: a 1 bit, the fewest 0 bits that leave 64 to a whole block, and the length in bits. */
  function Pad(m: seq<byte>): seq<byte>
    requires Hashable(m)
  {
    m + [0x80] + Zeros((55 - |m|) % 64) + Octets64(8 * |m|)
  }

  function Digest(m: seq<byte>): Five
    requires Hashable(m)
  {
    Fold(H0, Pad(m))
  }

  // ---------- facts about folding and padding ----------

  lemma {:induction false} FoldAppend(h: Five, a: seq<byte>, b: seq<byte>)
    requires |a| % 64 == 0
    ensures Fold(h, a + b) == Fold(Fold(h, a), b)
    decreases |a|
  {
    if a == [] {
      assert a + b == b;
    } else {
      assert (a + b)[..64] == a[..64] && (a + b)[64..] == a[64..] + b;
      FoldAppend(Compress(h, a[..64]), a[64..], b);
    }
  }

  lemma FoldBlock(h: Five, a: seq<byte>, block: seq<byte>)
    requires |a| % 64 == 0 && |block| == 64
    ensures Fold(h, a + block) == Compress(Fold(h, a), block)
  {
    FoldAppend(h, a, block);
    assert block[..64] == block && block[64..] == [];
  }

  /** The padded message is whole blocks: one more than the message fills if its tail leaves 9 octets free, else two. */
  lemma PadFillsBlocks(m: seq<byte>)
    requires Hashable(m)
    ensures |Pad(m)| % 64 == 0
    ensures |Pad(m)| == 64 * (|m| / 64) + if |m| % 64 <= 55 then 64 else 128
  {
    assert |Pad(m)| == |m| + 1 + (55 - |m|) % 64 + 8;
    Gap(|m|, |m| / 64, |m| % 64);
  }

  lemma Gap(n: nat, q: int, r: int)
    requires n == 64 * q + r && 0 <= r < 64
    ensures (55 - n) % 64 == if r <= 55 then 55 - r else 119 - r
    ensures (n + 1 + (55 - n) % 64 + 8) % 64 == 0
  {
    if r <= 55 {
      assert 55 - n == 64 * (0 - q) + (55 - r);
      assert n + 9 + 55 - r == 64 * (q + 1);
    } else {
      assert 55 - n == 64 * (0 - q - 1) + (119 - r);
      assert n + 9 + 119 - r == 64 * (q + 2);
    }
  }

  lemma Be32Injective(x: nat, y: nat)
    requires Is32(x) && Is32(y) && Be32(x) == Be32(y)
    ensures x == y
  {
    Be32RoundTrip(x);
    Be32RoundTrip(y);
  }

  /** Different messages are padded differently, so nothing is lost before the compression. */
  lemma PadInjective(m: seq<byte>, n: seq<byte>)
    requires Hashable(m) && Hashable(n) && Pad(m) == Pad(n)
    ensures m == n
  {
    var k := |Pad(m)| - 8;
    assert Pad(m)[k..] == Octets64(8 * |m|) && Pad(n)[k..] == Octets64(8 * |n|);
    var x, y := Octets64(8 * |m|), Octets64(8 * |n|);
    assert x[..4] == Be32(8 * |m| / 0x1_0000_0000) && y[..4] == Be32(8 * |n| / 0x1_0000_0000);
    assert x[4..] == Be32(8 * |m| % 0x1_0000_0000) && y[4..] == Be32(8 * |n| % 0x1_0000_0000);
    Be32Injective(8 * |m| / 0x1_0000_0000, 8 * |n| / 0x1_0000_0000);
    Be32Injective(8 * |m| % 0x1_0000_0000, 8 * |n| % 0x1_0000_0000);
    assert Pad(m)[..|m|] == m && Pad(n)[..|n|] == n;
  }
}

/** SHA1Context and its functions: octets come in one at a time and whole blocks are processed in place. */
module Sha1 {
  import opened Common
  import opened Fips180

  class Context {
    const digest: array<word>
    const block: array<byte>
    var lengthLow: nat
    var lengthHigh: nat
    var index: nat
    var computed: bool
    var corrupted: bool
    ghost var message: seq<byte>

    ghost predicate Buffers()
      reads this
    {
      digest.Length == 5 && block.Length == 64
    }

    function H(): Five
      requires Buffers()
      reads this, digest
    {
      Five(digest[0], digest[1], digest[2], digest[3], digest[4])
    }

    method SetH(v: Five)
      requires Buffers()
      modifies digest
      ensures H() == v
    {
      digest[0], digest[1], digest[2], digest[3], digest[4] := v.a, v.b, v.c, v.d, v.e;
    }

    /** W[t], put together from the four octets it is made of. */
    method LoadWord(w: array<word>, t: nat)
      requires Buffers() && w.Length == 80 && t < 16
      modifies w
      ensures w[t] == W(block[..], t)
      ensures forall i :: 0 <= i < 80 && i != t ==> w[i] == old(w[i])
    {
      w[t] := Gather(block[t * 4], block[t * 4 + 1], block[t * 4 + 2], block[t * 4 + 3], block[4 * t..4 * t + 4]);
    }

    /** The four shifts. */
    static method Gather(b0: byte, b1: byte, b2: byte, b3: byte, ghost b: seq<byte>) returns (x: word)
      requires b == [b0, b1, b2, b3]
      ensures x == BigEndian(b)
    {
      x := Word(b0) << 24;
      x := x | (Word(b1) << 16);
      x := x | (Word(b2) << 8);
      x := x | Word(b3);
    }

    /** The first two loops of SHA1ProcessMessageBlock fill W. */
    method Schedule(w: array<word>)
      requires Buffers() && w.Length == 80
      modifies w
      ensures forall t :: 0 <= t < 80 ==> w[t] == W(block[..], t)
    {
      var t := 0;
      while t < 16
        invariant 0 <= t <= 16
        invariant forall i :: 0 <= i < t ==> w[i] == W(block[..], i)
      {
        LoadWord(w, t);
        t := t + 1;
      }
      Extend(w, block[..]);
    }

    static method NextWord(w: array<word>, t: nat, ghost b: seq<byte>)
      requires w.Length == 80 && |b| == 64 && 16 <= t < 80
      requires w[t - 3] == W(b, t - 3) && w[t - 8] == W(b, t - 8)
      requires w[t - 14] == W(b, t - 14) && w[t - 16] == W(b, t - 16)
      modifies w
      ensures w[t] == W(b, t)
      ensures forall i :: 0 <= i < 80 && i != t ==> w[i] == old(w[i])
    {
      w[t] := S(1, w[t - 3] ^ w[t - 8] ^ w[t - 14] ^ w[t - 16]);
    }

    static method Extend(w: array<word>, ghost b: seq<byte>)
      requires w.Length == 80 && |b| == 64
      requires forall i :: 0 <= i < 16 ==> w[i] == W(b, i)
      modifies w
      ensures forall t :: 0 <= t < 80 ==> w[t] == W(b, t)
    {
      var t := 16;
      while t < 80
        invariant 16 <= t <= 80
        invariant forall i :: 0 <= i < t ==> w[i] == W(b, i)
      {
        NextWord(w, t, b);
        t := t + 1;
      }
    }

    static ghost function AllRounds(h: Five, m: seq<byte>): (vs: seq<Five>)
      requires |m| == 64
      ensures |vs| == 81 && vs[0] == h && vs[80] == Rounds(h, m, 80)
      ensures forall t :: 0 <= t < 80 ==> vs[t + 1] == Round(vs[t], t, W(m, t))
    {
      var vs := seq(81, t requires t >= 0 => Rounds(h, m, t));
      assert forall t :: 0 <= t < 80 ==> Rounds(h, m, t + 1) == Round(Rounds(h, m, t), t, W(m, t));
      vs
    }

    /** The four loops of SHA1ProcessMessageBlock, from the digest so far. */
    static method Turn(h: Five, w: array<word>, ghost vs: seq<Five>) returns (v: Five)
      requires w.Length == 80 && |vs| == 81 && vs[0] == h
      requires forall t :: 0 <= t < 80 ==> vs[t + 1] == Round(vs[t], t, w[t])
      ensures v == vs[80]
    {
      var t, temp := 0, 0;
      var a, b, c, d, e := h.a, h.b, h.c, h.d, h.e;
      while t < 20
        invariant 0 <= t <= 20 && Five(a, b, c, d, e) == vs[t]
      {
        temp := Add(Add(Add(Add(S(5, a), Choice(b, c, d)), e), w[t]), 0x5A827999);
        e, d, c, b, a := d, c, S(30, b), a, temp;
        t := t + 1;
      }
      while t < 40
        invariant 20 <= t <= 40 && Five(a, b, c, d, e) == vs[t]
      {
        temp := Add(Add(Add(Add(S(5, a), Parity(b, c, d)), e), w[t]), 0x6ED9EBA1);
        e, d, c, b, a := d, c, S(30, b), a, temp;
        t := t + 1;
      }
      while t < 60
        invariant 40 <= t <= 60 && Five(a, b, c, d, e) == vs[t]
      {
        temp := Add(Add(Add(Add(S(5, a), Majority(b, c, d)), e), w[t]), 0x8F1BBCDC);
        e, d, c, b, a := d, c, S(30, b), a, temp;
        t := t + 1;
      }
      while t < 80
        invariant 60 <= t <= 80 && Five(a, b, c, d, e) == vs[t]
      {
        temp := Add(Add(Add(Add(S(5, a), Parity(b, c, d)), e), w[t]), 0xCA62C1D6);
        e, d, c, b, a := d, c, S(30, b), a, temp;
        t := t + 1;
      }
      v := Five(a, b, c, d, e);
    }

    method ProcessMessageBlock()
      requires Buffers()
      modifies digest, `index
      ensures H() == Compress(old(H()), block[..]) && index == 0
    {
      var w := new word[80];
      Schedule(w);
      ghost var vs := AllRounds(H(), block[..]);
      var v := Turn(H(), w, vs);
      AddToDigest(v);
      index := 0;
    }

    method AddToDigest(v: Five)
      requires Buffers()
      modifies digest
      ensures H() == Sum(old(H()), v)
    {
      digest[0] := Add(digest[0], v.a);
      digest[1] := Add(digest[1], v.b);
      digest[2] := Add(digest[2], v.c);
      digest[3] := Add(digest[3], v.d);
      digest[4] := Add(digest[4], v.e);
    }

    // ---------- the stream ----------

    /** The message so far is folded up to its last whole block; the rest waits in the block. */
    ghost predicate Streaming()
      reads this, digest, block
    {
      && Buffers() && !computed && !corrupted && Hashable(message)
      && Counts(lengthLow, lengthHigh, |message|)
      && Buffered(message, index, block[..], H())
    }

    /** The two words hold the number of bits in n octets. */
    static ghost predicate Counts(low: nat, high: nat, n: nat) {
      low == 8 * n % 0x1_0000_0000 && high == 8 * n / 0x1_0000_0000
    }

    static ghost predicate Buffered(m: seq<byte>, index: nat, b: seq<byte>, h: Five) {
      && |b| == 64 && index == |m| % 64
      && b[..index] == m[|m| - index..]
      && h == Fold(H0, m[..|m| - index])
    }

    ghost predicate Valid()
      reads this, digest, block
    {
      && Buffers()
      && (!corrupted && !computed ==> Streaming())
      && (!corrupted && computed ==> Hashable(message) && H() == Digest(message))
    }

    constructor ()
      ensures Streaming() && message == [] && fresh(digest) && fresh(block)
    {
      digest := new word[5];
      block := new byte[64];
      new;
      Reset();
    }

    /** SHA1Reset */
    method Reset()
      requires Buffers()
      modifies this, digest
      ensures Streaming() && message == []
    {
      lengthLow, lengthHigh, index := 0, 0, 0;
      SetH(Five(0x67452301, 0xEFCDAB89, 0x98BADCFE, 0x10325476, 0xC3D2E1F0));
      computed, corrupted := false, false;
      message := [];
    }

    /** As Buffered, except that the block may just have become full. */
    static ghost predicate Holding(m: seq<byte>, index: nat, b: seq<byte>, h: Five) {
      && |b| == 64 && index <= 64 && index <= |m| && (|m| - index) % 64 == 0
      && b[..index] == m[|m| - index..]
      && h == Fold(H0, m[..|m| - index])
    }

    static lemma HoldOneMore(m: seq<byte>, index: nat, b: seq<byte>, h: Five, x: byte)
      requires Buffered(m, index, b, h)
      ensures Holding(m + [x], index + 1, b[index := x], h)
    {
      WholeBlocks(|m|);
      var n := |m| - index;
      assert (m + [x])[..n] == m[..n];
      assert b[index := x][..index + 1] == b[..index] + [x];
      assert (m + [x])[n..] == m[n..] + [x];
    }

    static lemma WholeBlocks(n: nat)
      ensures n % 64 <= n && (n - n % 64) % 64 == 0
    {
    }

    static lemma FullBlock(m: seq<byte>, b: seq<byte>, h: Five)
      requires Holding(m, 64, b, h)
      ensures Buffered(m, 0, b, Compress(h, b))
    {
      var n := |m| - 64;
      assert b[..64] == b;
      assert m == m[..n] + b;
      FoldBlock(H0, m[..n], b);
      assert m[..|m|] == m;
    }

    /** The bit count goes up by 8 in two words, for a message that has grown to m; past 64 bits it is too long. */
    method CountOctet(ghost m: seq<byte>)
      requires m != [] && Counts(lengthLow, lengthHigh, |m| - 1) && Hashable(m[1..]) && !corrupted
      modifies `lengthLow, `lengthHigh, `corrupted
      ensures corrupted <==> !Hashable(m)
      ensures !corrupted ==> Counts(lengthLow, lengthHigh, |m|)
    {
      lengthLow := (lengthLow + 8) % 0x1_0000_0000;
      if lengthLow == 0 {
        lengthHigh := (lengthHigh + 1) % 0x1_0000_0000;
        if lengthHigh == 0 {
          corrupted := true;
        }
      }
    }

    method StoreOctet(x: byte)
      requires Buffers() && Buffered(message, index, block[..], H())
      modifies block, `index, `message
      ensures message == old(message) + [x] && Holding(message, index, block[..], H()) && index > 0
    {
      HoldOneMore(message, index, block[..], H(), x);
      block[index] := x;
      index := index + 1;
      message := message + [x];
    }

    method ProcessWhenFull()
      requires Buffers() && Holding(message, index, block[..], H()) && index > 0
      modifies digest, `index
      ensures Buffered(message, index, block[..], H())
    {
      if index == 64 {
        FullBlock(message, block[..], H());
        ProcessMessageBlock();
      }
    }

    /** One turn of SHA1Input's loop. */
    method InputOctet(x: byte)
      requires Streaming()
      modifies `lengthLow, `lengthHigh, `index, `corrupted, `message, digest, block
      ensures corrupted <==> !Hashable(old(message) + [x])
      ensures !corrupted ==> Streaming() && message == old(message) + [x]
    {
      StoreOctet(x);
      CountOctet(message);
      ProcessWhenFull();
    }

    /** SHA1Input */
    method Input(data: seq<byte>)
      requires Valid()
      modifies `lengthLow, `lengthHigh, `index, `corrupted, `message, digest, block
      ensures Valid()
      ensures corrupted <==> old(corrupted) || (data != [] && (old(computed) || !Hashable(old(message) + data)))
      ensures !corrupted ==> message == old(message) + data
      ensures data == [] ==> H() == old(H()) && message == old(message)
    {
      if |data| == 0 {
        return;
      }
      if computed || corrupted {
        corrupted := true;
        return;
      }
      var i := 0;
      while i < |data| && !corrupted
        invariant 0 <= i <= |data| && Buffers()
        invariant corrupted ==> !Hashable(old(message) + data)
        invariant !corrupted ==> Streaming() && message == old(message) + data[..i]
      {
        assert data[..i + 1] == data[..i] + [data[i]];
        InputOctet(data[i]);
        i := i + 1;
      }
      assert data[..|data|] == data;
    }

    /** Fills the block with zeros up to octet n. */
    method ZeroTo(n: nat)
      requires Buffers() && index <= n <= 64
      modifies block, `index
      ensures index == n && block[..n] == old(block[..index]) + Zeros(n - old(index))
    {
      ghost var i0 := index;
      while index < n
        invariant i0 <= index <= n
        invariant block[..index] == old(block[..index]) + Zeros(index - i0)
      {
        block[index] := 0;
        index := index + 1;
      }
    }

    method StoreLength()
      requires Buffers() && index == 56
      requires Is32(lengthLow) && Is32(lengthHigh)
      modifies block
      ensures block[..] == old(block[..56]) + Be32(lengthHigh) + Be32(lengthLow)
    {
      block[56] := lengthHigh / 0x100_0000 % 256;
      block[57] := lengthHigh / 0x1_0000 % 256;
      block[58] := lengthHigh / 0x100 % 256;
      block[59] := lengthHigh % 256;
      block[60] := lengthLow / 0x100_0000 % 256;
      block[61] := lengthLow / 0x1_0000 % 256;
      block[62] := lengthLow / 0x100 % 256;
      block[63] := lengthLow % 256;
    }

    /** What is left of the padded message after its folded part: one block or two. */
    static function Tail(tail: seq<byte>, length: seq<byte>): seq<byte>
      requires |tail| < 64 && |length| == 8
    {
      tail + [0x80] + Zeros(if |tail| <= 55 then 55 - |tail| else 119 - |tail|) + length
    }

    static lemma PadSplits(p: seq<byte>, t: seq<byte>)
      requires |p| % 64 == 0 && |t| < 64 && Hashable(p + t)
      ensures Pad(p + t) == p + Tail(t, Octets64(8 * |p + t|))
    {
      Gap(|p + t|, |p| / 64, |t|);
      Regroup(p, t, Zeros((55 - |p + t|) % 64), Octets64(8 * |p + t|));
    }

    static lemma Regroup(p: seq<byte>, t: seq<byte>, z: seq<byte>, l: seq<byte>)
      ensures (p + t) + [0x80] + z + l == p + (t + [0x80] + z + l)
    {
    }

    static lemma PaddedTail(m: seq<byte>, index: nat, b: seq<byte>, h: Five)
      requires Buffered(m, index, b, h) && Hashable(m)
      ensures Digest(m) == Fold(h, Tail(b[..index], Octets64(8 * |m|)))
    {
      WholeBlocks(|m|);
      var p, t := m[..|m| - index], b[..index];
      assert m == p + t;
      PadSplits(p, t);
      FoldAppend(H0, p, Tail(t, Octets64(8 * |m|)));
    }

    static lemma FoldShort(h: Five, t: seq<byte>, length: seq<byte>)
      requires |t| <= 55 && |length| == 8
      ensures Fold(h, Tail(t, length)) == Compress(h, t + [0x80] + Zeros(55 - |t|) + length)
    {
      assert Fold(h, []) == h;
      FoldBlock(h, [], Tail(t, length));
      assert [] + Tail(t, length) == Tail(t, length);
    }

    static lemma FoldLong(h: Five, t: seq<byte>, length: seq<byte>)
      requires 55 < |t| < 64 && |length| == 8
      ensures Fold(h, Tail(t, length)) == Compress(Compress(h, t + [0x80] + Zeros(63 - |t|)), Zeros(56) + length)
    {
      var first, last := t + [0x80] + Zeros(63 - |t|), Zeros(56) + length;
      assert Tail(t, length) == first + last;
      assert Fold(h, []) == h;
      FoldBlock(h, [], first);
      assert [] + first == first;
      FoldBlock(h, first, last);
    }

    /** The first 0x80, and zeros up to octet n. */
    method MarkAndZeroTo(n: nat, ghost t: seq<byte>)
      requires Buffers() && index < n <= 64 && t == block[..index]
      modifies block, `index
      ensures index == n && block[..n] == t + [0x80] + Zeros(n - 1 - |t|)
    {
      block[index] := 0x80;
      index := index + 1;
      assert block[..index] == t + [0x80];
      ZeroTo(n);
    }

    /** SHA1PadMessage, when the length does not fit the block begun. */
    method PadIntoSecondBlock(ghost t: seq<byte>)
      requires Buffers() && 55 < index < 64 && t == block[..index]
      modifies digest, block, `index
      ensures Buffers() && index == 56 && block[..56] == Zeros(56)
      ensures H() == Compress(old(H()), t + [0x80] + Zeros(63 - |t|))
    {
      MarkAndZeroTo(64, t);
      assert block[..64] == block[..];
      ProcessMessageBlock();
      ZeroTo(56);
    }

    /** A block like this lacks only the length, and then the digest is that of the message. */
    static ghost predicate Lacks(m: seq<byte>, h: Five, begun: seq<byte>) {
      Hashable(m) && |begun| == 56 && Digest(m) == Compress(h, begun + Octets64(8 * |m|))
    }

    static lemma ShortLacks(m: seq<byte>, t: seq<byte>, b: seq<byte>, h: Five)
      requires Hashable(m) && |t| <= 55 && Buffered(m, |t|, b, h) && t == b[..|t|]
      ensures Lacks(m, h, t + [0x80] + Zeros(55 - |t|))
    {
      PaddedTail(m, |t|, b, h);
      FoldShort(h, t, Octets64(8 * |m|));
    }

    static lemma LongLacks(m: seq<byte>, t: seq<byte>, b: seq<byte>, h: Five)
      requires Hashable(m) && 55 < |t| < 64 && Buffered(m, |t|, b, h) && t == b[..|t|]
      ensures Lacks(m, Compress(h, t + [0x80] + Zeros(63 - |t|)), Zeros(56))
    {
      PaddedTail(m, |t|, b, h);
      FoldLong(h, t, Octets64(8 * |m|));
    }

    /** SHA1PadMessage, when the length fits the block begun. */
    method PadShort()
      requires Streaming() && index <= 55
      modifies block, `index
      ensures index == 56 && Lacks(message, H(), block[..56])
    {
      ghost var t := block[..index];
      ShortLacks(message, t, block[..], H());
      MarkAndZeroTo(56, t);
    }

    /** SHA1PadMessage, when it does not. */
    method PadLong()
      requires Streaming() && index > 55
      modifies digest, block, `index
      ensures index == 56 && Lacks(message, H(), block[..56])
    {
      ghost var t := block[..index];
      LongLacks(message, t, block[..], H());
      PadIntoSecondBlock(t);
    }

    /** The end of SHA1PadMessage: the length goes into the last eight octets. */
    method EndWithLength()
      requires Buffers() && index == 56 && Lacks(message, H(), block[..56])
      requires Counts(lengthLow, lengthHigh, |message|)
      modifies digest, block, `index
      ensures Buffers() && H() == Digest(message)
    {
      ghost var bits := 8 * |message|;
      StoreLength();
      assert block[..] == old(block[..56]) + Octets64(bits);
      ProcessMessageBlock();
    }

    /** SHA1PadMessage */
    method PadMessage()
      requires Streaming()
      modifies digest, block, `index
      ensures Buffers() && H() == Digest(message)
    {
      if index > 55 {
        PadLong();
      } else {
        PadShort();
      }
      EndWithLength();
    }

    /** SHA1Result */
    method Result() returns (ok: bool)
      requires Valid()
      modifies `computed, `index, digest, block
      ensures Valid()
      ensures ok <==> !corrupted
      ensures ok ==> computed && H() == Digest(message)
      ensures old(computed) ==> H() == old(H())
    {
      if corrupted {
        return false;
      }
      if !computed {
        PadMessage();
        computed := true;
      }
      return true;
    }
  }

  function Concat(parts: seq<seq<byte>>): seq<byte> {
    if parts == [] then [] else Concat(parts[..|parts| - 1]) + parts[|parts| - 1]
  }

  /**
   A message hashed piece by piece, as the router hashes salt and key: however it is cut, the result
   is the digest of the whole, and fails exactly when the message has 2^64 bits or more.
   */
  method HashPieces(parts: seq<seq<byte>>) returns (ok: bool, digest: Five)
    ensures ok <==> Hashable(Concat(parts))
    ensures ok ==> digest == Digest(Concat(parts))
  {
    var context := new Context();
    var i := 0;
    while i < |parts|
      invariant 0 <= i <= |parts| && context.Valid() && !context.computed
      invariant fresh(context) && fresh(context.digest) && fresh(context.block)
      invariant context.corrupted <==> !Hashable(Concat(parts[..i]))
      invariant !context.corrupted ==> context.message == Concat(parts[..i])
    {
      assert parts[..i + 1][..i] == parts[..i];
      context.Input(parts[i]);
      i := i + 1;
    }
    assert parts[..|parts|] == parts;
    ok := context.Result();
    digest := context.H();
  }
}
