/** What several of the models share. */
module Common {

  datatype Option<+T> = None | Some(value: T)

  type byte = x: int | 0 <= x < 256 witness 0

  /** A C unsigned int of 32 bits wraps round. */
  function U32(x: int): (r: nat)
    ensures r < 0x1_0000_0000 && (0 <= x < 0x1_0000_0000 ==> r == x)
  {
    x % 0x1_0000_0000
  }

  lemma AddU32(t: int, n: int)
    ensures U32(U32(t) + n) == U32(t + n)
  {
  }

  predicate Is32(n: int) {
    0 <= n < 0x1_0000_0000
  }

  /** A 32-bit number as four octets, the highest first. */
  function Be32(n: nat): (s: seq<byte>)
    requires Is32(n)
    ensures |s| == 4
  {
    [n / 0x100_0000 % 256, n / 0x1_0000 % 256, n / 0x100 % 256, n % 256]
  }

  function From32(s: seq<byte>): (n: nat)
    requires |s| == 4
    ensures Is32(n)
  {
    0x100_0000 * (s[0] as int) + 0x1_0000 * (s[1] as int) + 0x100 * (s[2] as int) + s[3] as int
  }

  lemma Be32RoundTrip(n: nat)
    requires Is32(n)
    ensures From32(Be32(n)) == n
  {
    assert n / 0x1_0000 == 0x100 * (n / 0x100_0000) + n / 0x1_0000 % 256;
    assert n / 0x100 == 0x100 * (n / 0x1_0000) + n / 0x100 % 256;
  }

  function Zeros(n: nat): seq<byte> {
    seq(n, _ => 0)
  }

  function Min(a: int, b: int): int {
    if a < b then a else b
  }

  /** The first position of key k in a list, or the list's length. */
  function First<T, K(==)>(s: seq<T>, key: T -> K, k: K): (r: nat)
    ensures r <= |s| && (r < |s| ==> key(s[r]) == k)
    ensures forall j :: 0 <= j < r ==> key(s[j]) != k
  {
    if s == [] || key(s[0]) == k then 0
    else
      var r := First(s[1..], key, k);
      assert forall j :: 0 < j < r + 1 ==> s[j] == s[1..][j - 1];
      r + 1
  }
}
