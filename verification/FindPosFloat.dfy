/**
 The choice of a starting point in list_findpos, in the single precision it is computed in.  The node
 lists of SimcList take the quotient of position and count to be exact; here is when that is right.
 */
module FindPosFloat {
  import opened Common

  /** A float has 24 significant bits. */
  const BITS24 := 0x100_0000

  /** The distance of neighbouring floats around m. */
  function Scale(m: nat): (s: nat)
    ensures s > 0
  {
    if m < BITS24 then 1 else 2 * Scale(m / 2)
  }

  /** m / s to the nearest integer, to the even one of two. */
  function HalfEven(m: nat, s: nat): nat
    requires s > 0
  {
    var q, r := m / s, m % s;
    if 2 * r < s || (2 * r == s && q % 2 == 0) then q else q + 1
  }

  /** An unsigned int converted to float. */
  function Float(m: nat): nat {
    Scale(m) * HalfEven(m, Scale(m))
  }

  // ---------- conversion ----------

  lemma {:induction false} ScaleBounds(m: nat)
    ensures m < Scale(m) * BITS24 && (m >= BITS24 ==> Scale(m) * (BITS24 / 2) <= m)
  {
    if m >= BITS24 {
      ScaleBounds(m / 2);
    }
  }

  lemma {:induction false} ScaleSteps(m: nat, n: nat)
    requires m <= n
    ensures Scale(m) == Scale(n) || 2 * Scale(m) == Scale(n) || 4 * Scale(m) <= Scale(n)
  {
    if n >= BITS24 {
      if m >= BITS24 {
        ScaleSteps(m / 2, n / 2);
      }
    }
  }

  lemma DivBounds(m: nat, s: nat, k: nat)
    requires s > 0
    ensures m < s * k ==> m / s < k
    ensures s * k <= m ==> k <= m / s
  {
    var q, r := m / s, m % s;
    assert m == s * q + r;
    if q >= k {
      assert s * q >= s * k;
    } else {
      assert s * (q + 1) <= s * k;
    }
  }

  /** A float is a number of at most 24 bits times its scale, and of just 24 bits if the scale is not 1. */
  lemma FloatShape(m: nat)
    ensures HalfEven(m, Scale(m)) <= BITS24
    ensures m >= BITS24 ==> BITS24 / 2 <= HalfEven(m, Scale(m))
    ensures m < BITS24 ==> Float(m) == m
  {
    ScaleBounds(m);
    DivBounds(m, Scale(m), BITS24);
    DivBounds(m, Scale(m), BITS24 / 2);
  }

  /** Of two floats equally near, the one with an even last bit. */
  lemma TiesToEven()
    ensures Float(16777217) == 16777216 && Float(16777219) == 16777220
  {
    assert Scale(16777217 / 2) == 1 && Scale(16777219 / 2) == 1;
    assert Scale(16777217) == 2 && Scale(16777219) == 2;
  }

  lemma HalfEvenMonotone(m: nat, n: nat, s: nat)
    requires m <= n && s > 0
    ensures HalfEven(m, s) <= HalfEven(n, s)
  {
    DivBounds(n, s, m / s);
    assert m == s * (m / s) + m % s && n == s * (n / s) + n % s;
    assert s * (m / s) <= m;
  }

  lemma Times(s: nat, a: nat, b: nat)
    requires a <= b
    ensures s * a <= s * b
  {
  }

  lemma FloatMonotone(m: nat, n: nat)
    requires m <= n
    ensures Float(m) <= Float(n)
  {
    var s, t := Scale(m), Scale(n);
    ScaleSteps(m, n);
    FloatShape(m);
    FloatShape(n);
    if s == t {
      HalfEvenMonotone(m, n, s);
      Times(s, HalfEven(m, s), HalfEven(n, s));
    } else {
      Times(s, HalfEven(m, s), BITS24);
      Times(t, BITS24 / 2, HalfEven(n, t));
    }
  }

  lemma HalfEvenDoubles(m: nat, s: nat)
    requires s > 0
    ensures HalfEven(2 * m, 2 * s) == HalfEven(m, s)
  {
    var q, r := m / s, m % s;
    assert m == s * q + r;
    assert 2 * m == (2 * s) * q + 2 * r;
    Quotient(2 * m, 2 * s, q, 2 * r);
  }

  lemma Quotient(m: nat, s: nat, q: nat, r: nat)
    requires s > 0 && m == s * q + r && r < s
    ensures m / s == q && m % s == r
  {
    DivBounds(m, s, q);
    DivBounds(m, s, q + 1);
  }

  lemma FloatDoubles(m: nat)
    ensures Float(2 * m) == 2 * Float(m)
  {
    if 2 * m < BITS24 {
      FloatShape(m);
      FloatShape(2 * m);
    } else {
      assert Scale(2 * m) == 2 * Scale(m);
      HalfEvenDoubles(m, Scale(m));
    }
  }

  // ---------- division ----------

  /** x is a / b rounded: larger by at most one part in 2^24, and not below 1/2, which is a float, if a / b is not. */
  ghost predicate IsQuotient(x: real, a: nat, b: nat) {
    && x * (b as real * BITS24 as real) <= a as real * (BITS24 + 1) as real
    && (2 * a >= b ==> x >= 0.5)
  }

  lemma GapSameScale(s: nat, p: nat, q: nat)
    requires p < q <= BITS24
    ensures s * q <= BITS24 * (s * q - s * p)
  {
    assert s * q - s * p == s * (q - p);
    Times(s, q, BITS24 * (q - p));
    assert s * (BITS24 * (q - p)) == BITS24 * (s * (q - p));
  }

  const HALF24 := BITS24 / 2

  lemma SmallerScaleBelow(s: nat, p: nat, t: nat)
    requires p <= BITS24 && 2 * s <= t
    ensures s * p <= HALF24 * (2 * s) <= HALF24 * t
  {
    Times(s, p, BITS24);
  }

  /** The larger float is not the smallest of its scale. */
  lemma GapAbove(s: nat, p: nat, t: nat, q: nat)
    requires p <= BITS24 && HALF24 < q <= BITS24 && 2 * s <= t
    ensures t * q <= BITS24 * (t * q - s * p)
  {
    SmallerScaleBelow(s, p, t);
    Times(t, HALF24 + 1, q);
    assert t * (HALF24 + 1) == HALF24 * t + t;
    Times(t, q, BITS24);
  }

  /** It is the smallest of its scale, the other of the scale below. */
  lemma GapNext(s: nat, p: nat)
    requires p < BITS24
    ensures s * BITS24 <= BITS24 * (s * BITS24 - s * p)
  {
    Times(s, p, BITS24 - 1);
    assert s * (BITS24 - 1) == s * BITS24 - s;
  }

  /** It is the smallest of its scale, the other of a smaller one still. */
  lemma GapBelow(s: nat, p: nat, t: nat)
    requires p <= BITS24 && 4 * s <= t
    ensures HALF24 * t <= BITS24 * (HALF24 * t - s * p)
  {
    SmallerScaleBelow(s, p, 2 * s);
  }

  lemma GapLargerScale(s: nat, p: nat, t: nat, q: nat)
    requires p <= BITS24 && HALF24 <= q <= BITS24 && s * p < t * q
    requires 2 * s == t || 4 * s <= t
    ensures t * q <= BITS24 * (t * q - s * p)
  {
    if q > HALF24 {
      GapAbove(s, p, t, q);
    } else if 2 * s == t {
      assert t * q == s * BITS24;
      GapNext(s, p);
    } else {
      GapBelow(s, p, t);
    }
  }

  /** Two floats are not closer than one part in 2^24. */
  lemma Gap(m: nat, n: nat)
    requires Float(m) < Float(n)
    ensures Float(n) <= BITS24 * (Float(n) - Float(m))
  {
    FloatShape(m);
    FloatShape(n);
    if m >= n {
      FloatMonotone(n, m);
    }
    ScaleSteps(m, n);
    var s, t := Scale(m), Scale(n);
    var p, q := HalfEven(m, s), HalfEven(n, t);
    if s == t {
      if p >= q {
        Times(s, q, p);
      }
      GapSameScale(s, p, q);
    } else {
      GapLargerScale(s, p, t, q);
    }
  }

  lemma Smaller(x: real, y: real, c: real)
    requires c > 0.0 && x * c < y * c
    ensures x < y
  {
  }

  lemma NotHalf(x: real, a: nat, b: nat)
    requires b > 0 && IsQuotient(x, a, b) && 2 * a < b <= BITS24 * (b - 2 * a)
    ensures x < 0.5
  {
    assert 2 * (a * (BITS24 + 1)) < b * BITS24;
    assert a as real * (BITS24 + 1) as real < 0.5 * (b as real * BITS24 as real);
    Smaller(x, 0.5, b as real * BITS24 as real);
  }

  /** So a quotient below 1/2 is not rounded up to 1/2. */
  lemma BelowHalf(m: nat, n: nat, x: real)
    requires Float(n) > 0 && IsQuotient(x, Float(m), Float(n))
    ensures x < 0.5 <==> 2 * Float(m) < Float(n)
  {
    if 2 * Float(m) < Float(n) {
      FloatDoubles(m);
      Gap(2 * m, n);
      NotHalf(x, Float(m), Float(n));
    }
  }

  lemma NearHalf(x: real, a: nat, b: nat)
    requires b > 0 && IsQuotient(x, a, b) && 2 * a == b
    ensures x < 0.75
  {
    assert a as real * (BITS24 + 1) as real < 0.75 * (b as real * BITS24 as real);
    Smaller(x, 0.75, b as real * BITS24 as real);
  }

  // ---------- the four walks ----------

  /** The index at which the walk from the chosen starting point ends. */
  function Reached(n: nat, p: int, x: real): int {
    var mid := (n - 1) / 2;
    if x <= 0.25 then p
    else if x < 0.5 then (if mid > p then p else mid)
    else if x <= 0.75 then (if mid < p then p else mid)
    else if n > p then p else n
  }

  lemma ReachedIff(n: nat, p: int, x: real, a: nat, b: nat)
    requires n > 0 && -1 <= p <= n && b > 0 && IsQuotient(x, a, b) && (x < 0.5 <==> 2 * a < b)
    requires (n <= 2 * (p + 1) ==> b <= 2 * a) && (2 * (p + 1) <= n ==> 2 * a <= b)
    ensures Reached(n, p, x) == p <==> !(p < (n - 1) / 2 && 2 * a == b)
    ensures p < (n - 1) / 2 && 2 * a == b ==> Reached(n, p, x) == (n - 1) / 2
  {
    if 2 * a == b {
      NearHalf(x, a, b);
    }
  }

  lemma FloatPositive(n: nat)
    requires n > 0
    ensures Float(n) > 0
  {
    FloatMonotone(1, n);
    FloatShape(1);
  }

  /** The position lies before the middle, and twice its place is, in single precision, the count. */
  predicate Misled(n: nat, p: int)
    requires p >= -1
  {
    p < (n - 1) / 2 && 2 * Float(p + 1) == Float(n)
  }

  /** list_findpos reaches the element asked for unless it is misled; then it ends at the middle. */
  lemma FindPosIff(n: nat, p: int, x: real)
    requires n > 0 && -1 <= p <= n && IsQuotient(x, Float(p + 1), Float(n))
    ensures Reached(n, p, x) == p <==> !Misled(n, p)
    ensures Misled(n, p) ==> Reached(n, p, x) == (n - 1) / 2
  {
    FloatPositive(n);
    BelowHalf(p + 1, n, x);
    FloatDoubles(p + 1);
    if n <= 2 * (p + 1) {
      FloatMonotone(n, 2 * (p + 1));
    }
    if 2 * (p + 1) <= n {
      FloatMonotone(2 * (p + 1), n);
    }
    ReachedIff(n, p, x, Float(p + 1), Float(n));
  }

  /** In lists of at most 2^24 elements every one is reached. */
  lemma FindPosWithin24Bits(n: nat, p: int, x: real)
    requires 0 < n <= BITS24 && -1 <= p <= n && IsQuotient(x, Float(p + 1), Float(n))
    ensures Reached(n, p, x) == p
  {
    FindPosIff(n, p, x);
    FloatShape(n);
    if p < (n - 1) / 2 {
      FloatShape(p + 1);
      assert n == BITS24 ==> Float(n) == n by {
        assert Scale(BITS24 / 2) == 1;
      }
    }
  }

  /** In a list of 2^25 + 1 elements the one before the middle is not: its neighbour is. */
  lemma FindPosExample(x: real)
    requires IsQuotient(x, Float(16777216), Float(33554433))
    ensures Reached(33554433, 16777215, x) == 16777216
  {
    assert Scale(16777216 / 2) == 1;
    assert Scale(33554433 / 2) == 2 && Scale(33554433) == 4;
    assert Float(16777216) == 16777216 && Float(33554433) == 33554432;
    FindPosIff(33554433, 16777215, x);
  }

  // ---------- what it does to the list ----------

  /** The index of mid after list_insert_at for position pos has put the new entry at index `at`. */
  function MidAfterInsert(n: nat, pos: nat, at: int): int
    requires n > 0
  {
    var mid := (n - 1) / 2;
    var pushed := if at <= mid then mid + 1 else mid;
    if (n + 1) % 2 == 1 then (if pos >= n / 2 then pushed + 1 else pushed)
    else (if pos <= n / 2 then pushed - 1 else pushed)
  }

  /** The new entry is where it should be, and mid in the middle, unless the search is misled; then neither is. */
  lemma InsertIff(n: nat, pos: nat, x: real)
    requires 0 < n && pos <= n && IsQuotient(x, Float(pos), Float(n))
    ensures var at := Reached(n, pos - 1, x) + 1;
      && (at == pos <==> !Misled(n, pos - 1))
      && (MidAfterInsert(n, pos, at) == n / 2 <==> !Misled(n, pos - 1))
      && (Misled(n, pos - 1) ==> at == (n - 1) / 2 + 1 && MidAfterInsert(n, pos, at) == n / 2 - 1)
  {
    FindPosIff(n, pos - 1, x);
  }

  /** The index that list_drop_elem moves mid to, before the entry goes. */
  function MidBeforeDrop(n: nat, pos: nat): int {
    var mid := (n - 1) / 2;
    if n % 2 == 1 then (if pos >= n / 2 then mid - 1 else mid)
    else (if pos < n / 2 then mid + 1 else mid)
  }

  /**
   list_delete_at takes out the element asked for unless the search is misled; then it takes out the
   middle one, and with an odd count mid is left at the very entry that is gone.
   */
  lemma DeleteIff(n: nat, pos: nat, x: real)
    requires 1 < n && pos < n && IsQuotient(x, Float(pos + 1), Float(n))
    ensures var gone, mid := Reached(n, pos, x), MidBeforeDrop(n, pos);
      && (gone == pos <==> !Misled(n, pos))
      && (mid == gone <==> Misled(n, pos) && n % 2 == 1)
      && (mid != gone ==> (if mid < gone then mid else mid - 1) == (n - 2) / 2)
  {
    FindPosIff(n, pos, x);
  }
}
