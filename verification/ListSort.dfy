/**
 list_sort: a quicksort that swaps the data of the entries and never touches a link, with a
 selection sort for short stretches.  The pivot entry is picked by an arbitrary number, so what
 is proved holds for every sequence of random numbers.

 The methods carry the list's data as a ghost sequence s, tied to the chain by `Carries`.
 */
module ListSort {
  import opened SimcList

  const MIN_QUICKSORT_ELS := 24

  type Comparator<!T> = (T, T) -> int

  /** The quantity the code tests: positive when x must not stand before y. */
  function Misplaced<T>(cmp: Comparator<T>, versus: int, x: T, y: T): int {
    cmp(x, y) * -versus
  }

  ghost predicate Leq<T>(cmp: Comparator<T>, versus: int, x: T, y: T) {
    Misplaced(cmp, versus, x, y) <= 0
  }

  /** A comparator says positive, zero or negative for x below, level with or above y. */
  ghost predicate TotalPreorder<T>(cmp: Comparator<T>, u: set<T>) {
    && (forall x, y :: x in u && y in u ==> (cmp(x, y) > 0 <==> cmp(y, x) < 0))
    && (forall x, y, z :: x in u && y in u && z in u && cmp(x, y) >= 0 && cmp(y, z) >= 0 ==> cmp(x, z) >= 0)
  }

  /** What the sorts rely on: the tests against zero order u. */
  ghost predicate Orders<T>(cmp: Comparator<T>, versus: int, u: set<T>) {
    && (forall x, y :: x in u && y in u && Misplaced(cmp, versus, x, y) >= 0 ==> Leq(cmp, versus, y, x))
    && (forall x, y, z :: x in u && y in u && z in u && Leq(cmp, versus, x, y) && Leq(cmp, versus, y, z) ==>
          Leq(cmp, versus, x, z))
  }

  lemma SignOfProduct(c: int, versus: int)
    ensures versus > 0 ==> (c * -versus <= 0 <==> c >= 0) && (c * -versus >= 0 <==> c <= 0)
    ensures versus < 0 ==> (c * -versus <= 0 <==> c <= 0) && (c * -versus >= 0 <==> c >= 0)
    ensures versus == 0 ==> c * -versus == 0
  {
    if versus > 0 && c > 0 {
      assert c * versus > 0;
    } else if versus > 0 && c < 0 {
      assert (-c) * versus > 0;
    } else if versus < 0 && c > 0 {
      assert c * -versus > 0;
    } else if versus < 0 && c < 0 {
      assert (-c) * -versus > 0;
    }
  }

  lemma PreorderOrders<T>(cmp: Comparator<T>, versus: int, u: set<T>)
    requires TotalPreorder(cmp, u)
    ensures Orders(cmp, versus, u)
  {
    forall x, y
      ensures versus > 0 ==> (Misplaced(cmp, versus, x, y) <= 0 <==> cmp(x, y) >= 0)
      ensures versus > 0 ==> (Misplaced(cmp, versus, x, y) >= 0 <==> cmp(x, y) <= 0)
      ensures versus < 0 ==> (Misplaced(cmp, versus, x, y) <= 0 <==> cmp(x, y) <= 0)
      ensures versus < 0 ==> (Misplaced(cmp, versus, x, y) >= 0 <==> cmp(x, y) >= 0)
      ensures versus == 0 ==> Misplaced(cmp, versus, x, y) == 0
    {
      SignOfProduct(cmp(x, y), versus);
    }
  }

  // ---------- rearrangements of a stretch ----------

  ghost predicate Kept<T>(s: seq<T>, t: seq<T>, k: int)
    requires 0 <= k < |s| == |t|
  {
    s[k] == t[k]
  }

  /** t is s with the elements from lo up to hi rearranged. */
  ghost predicate Perm<T>(s: seq<T>, t: seq<T>, lo: int, hi: int) {
    && 0 <= lo <= hi <= |s| == |t|
    && multiset(s) == multiset(t)
    && forall k :: 0 <= k < lo || hi <= k < |s| ==> Kept(s, t, k)
  }

  function Swapped<T>(s: seq<T>, i: int, j: int): seq<T>
    requires 0 <= i < |s| && 0 <= j < |s|
  {
    s[i := s[j]][j := s[i]]
  }

  lemma SwappedPerm<T>(s: seq<T>, i: int, j: int, lo: int, hi: int)
    requires 0 <= lo <= i < hi <= |s| && lo <= j < hi
    ensures Perm(s, Swapped(s, i, j), lo, hi)
  {
  }

  lemma PermTrans<T>(s: seq<T>, t: seq<T>, v: seq<T>, lo: int, hi: int)
    requires Perm(s, t, lo, hi) && Perm(t, v, lo, hi)
    ensures Perm(s, v, lo, hi)
  {
    forall k | 0 <= k < lo || hi <= k < |s|
      ensures Kept(s, v, k)
    {
      assert Kept(s, t, k) && Kept(t, v, k);
    }
  }

  lemma PermWider<T>(s: seq<T>, t: seq<T>, lo: int, hi: int, lo': int, hi': int)
    requires Perm(s, t, lo, hi) && 0 <= lo' <= lo && hi <= hi' <= |s|
    ensures Perm(s, t, lo', hi')
  {
  }

  lemma StretchesOf<T>(s: seq<T>, lo: int, hi: int)
    requires 0 <= lo <= hi <= |s|
    ensures multiset(s) == multiset(s[..lo]) + multiset(s[lo..hi]) + multiset(s[hi..])
  {
    assert s == s[..lo] + s[lo..hi] + s[hi..];
  }

  /** An element of a rearranged stretch came from the stretch. */
  lemma PermSource<T>(s: seq<T>, t: seq<T>, lo: int, hi: int, k: int) returns (j: int)
    requires Perm(s, t, lo, hi) && lo <= k < hi
    ensures lo <= j < hi && s[j] == t[k]
  {
    forall i | 0 <= i < lo || hi <= i < |s|
      ensures s[i] == t[i]
    {
      assert Kept(s, t, i);
    }
    assert s[..lo] == t[..lo] && s[hi..] == t[hi..];
    StretchesOf(s, lo, hi);
    StretchesOf(t, lo, hi);
    var e := t[lo..hi][k - lo];
    assert multiset(s[..lo]) == multiset(t[..lo]) && multiset(s[hi..]) == multiset(t[hi..]);
    assert multiset(s)[e] == multiset(t)[e];
    assert e in t[lo..hi] && multiset(t[lo..hi])[e] > 0;
    assert e in s[lo..hi];
    var i :| 0 <= i < hi - lo && s[lo..hi][i] == t[k];
    j := lo + i;
  }

  ghost predicate Within<T>(s: seq<T>, u: set<T>) {
    forall i {:trigger s[i] in u} :: 0 <= i < |s| ==> s[i] in u
  }

  lemma PermWithin<T>(s: seq<T>, t: seq<T>, lo: int, hi: int, u: set<T>)
    requires Perm(s, t, lo, hi) && Within(s, u)
    ensures Within(t, u)
  {
    forall k | 0 <= k < |t|
      ensures t[k] in u
    {
      if lo <= k < hi {
        var j := PermSource(s, t, lo, hi, k);
      } else {
        assert Kept(s, t, k);
      }
    }
  }

  ghost predicate SortedRange<T>(cmp: Comparator<T>, versus: int, s: seq<T>, lo: int, hi: int)
    requires 0 <= lo <= hi <= |s|
  {
    forall i, j {:trigger Leq(cmp, versus, s[i], s[j])} :: lo <= i < j < hi ==> Leq(cmp, versus, s[i], s[j])
  }

  /** Nothing from lo up to hi belongs after p. */
  ghost predicate AllBefore<T>(cmp: Comparator<T>, versus: int, s: seq<T>, lo: int, hi: int, p: T)
    requires 0 <= lo <= hi <= |s|
  {
    forall k {:trigger Leq(cmp, versus, s[k], p)} :: lo <= k < hi ==> Leq(cmp, versus, s[k], p)
  }

  ghost predicate AllAfter<T>(cmp: Comparator<T>, versus: int, s: seq<T>, lo: int, hi: int, p: T)
    requires 0 <= lo <= hi <= |s|
  {
    forall k {:trigger Leq(cmp, versus, p, s[k])} :: lo <= k < hi ==> Leq(cmp, versus, p, s[k])
  }

  lemma PermBefore<T>(cmp: Comparator<T>, versus: int, s: seq<T>, t: seq<T>, lo: int, hi: int, p: T)
    requires Perm(s, t, lo, hi) && AllBefore(cmp, versus, s, lo, hi, p)
    ensures AllBefore(cmp, versus, t, lo, hi, p)
  {
    forall k | lo <= k < hi
      ensures Leq(cmp, versus, t[k], p)
    {
      var j := PermSource(s, t, lo, hi, k);
    }
  }

  lemma PermAfter<T>(cmp: Comparator<T>, versus: int, s: seq<T>, t: seq<T>, lo: int, hi: int, p: T)
    requires Perm(s, t, lo, hi) && AllAfter(cmp, versus, s, lo, hi, p)
    ensures AllAfter(cmp, versus, t, lo, hi, p)
  {
    forall k | lo <= k < hi
      ensures Leq(cmp, versus, p, t[k])
    {
      var j := PermSource(s, t, lo, hi, k);
    }
  }

  // ---------- the code ----------

  /** Exchanges the data of the entries x and y, the elements at indices i and j. */
  method SwapData<T(0)>(x: Entry<T>, y: Entry<T>, ghost i: nat, ghost j: nat,
                        ghost ns: seq<Entry<T>>, ghost s: seq<T>, ghost r: set<Entry<T>>)
    requires Linked(ns, r) && Carries(ns, s, r) && i < |s| && j < |s| && x == ns[i + 1] && y == ns[j + 1]
    requires x in r && y in r
    modifies x`data, y`data
    ensures Carries(ns, Swapped(s, i, j), r)
  {
    assert DataAt(ns, s, i, r) && DataAt(ns, s, j, r);
    var tmpdata := x.data;
    x.data := y.data;
    y.data := tmpdata;
    ghost var t := Swapped(s, i, j);
    forall k | 0 <= k < |t|
      ensures DataAt(ns, t, k, r)
    {
      assert old(DataAt(ns, s, k, r));
      SameIndex(ns, k + 1, i + 1);
      SameIndex(ns, k + 1, j + 1);
    }
  }

  lemma NewFirst<T>(cmp: Comparator<T>, versus: int, u: set<T>, s: seq<T>, lo: nat, k: nat, at: nat)
    requires lo <= at < k < |s| && Within(s, u) && Orders(cmp, versus, u)
    requires AllAfter(cmp, versus, s, lo, k, s[at]) && Misplaced(cmp, versus, s[at], s[k]) > 0
    ensures AllAfter(cmp, versus, s, lo, k + 1, s[k])
  {
    assert s[at] in u && s[k] in u;
    assert Leq(cmp, versus, s[k], s[at]);
    forall j | lo <= j < k + 1
      ensures Leq(cmp, versus, s[k], s[j])
    {
      assert s[j] in u;
      if j < k {
        assert Leq(cmp, versus, s[at], s[j]);
      } else if Misplaced(cmp, versus, s[k], s[k]) >= 0 {
        assert Leq(cmp, versus, s[k], s[k]);
      }
    }
  }

  /** The entry to bring to the front: no element from its stretch belongs before it. */
  method FindNext<T(0)>(cmp: Comparator<T>, versus: int, first: Entry<T>, lel: Entry<T>,
                        ghost u: set<T>, ghost lo: nat, ghost last: nat,
                        ghost ns: seq<Entry<T>>, ghost s: seq<T>, ghost r: set<Entry<T>>)
    returns (toswap: Entry<T>, ghost at: nat)
    requires Linked(ns, r) && Carries(ns, s, r) && Within(s, u) && Orders(cmp, versus, u)
    requires lo <= last < |s| && first == ns[lo + 1] && lel == ns[last + 1]
    ensures lo <= at <= last && toswap == ns[at + 1] && toswap in r
    ensures AllAfter(cmp, versus, s, lo, last + 1, s[at])
  {
    assert LinkAt(ns, lo + 1, r) && LinkAt(ns, last + 1, r);
    toswap, at := first, lo;
    var cursor := first.next;
    ghost var k := lo + 1;
    assert Leq(cmp, versus, s[at], s[at]);
    while cursor != lel.next
      invariant lo < k <= last + 1 && cursor == ns[k + 1]
      invariant lo <= at < k && toswap == ns[at + 1] && toswap in r
      invariant AllAfter(cmp, versus, s, lo, k, s[at])
      decreases last + 1 - k
    {
      SameIndex(ns, k + 1, last + 2);
      assert LinkAt(ns, k + 1, r) && DataAt(ns, s, k, r) && DataAt(ns, s, at, r);
      if Misplaced(cmp, versus, toswap.data, cursor.data) > 0 {
        NewFirst(cmp, versus, u, s, lo, k, at);
        toswap, at := cursor, k;
      } else {
        assert Leq(cmp, versus, s[at], s[k]);
      }
      cursor, k := cursor.next, k + 1;
    }
    SameIndex(ns, k + 1, last + 2);
  }

  /** What selection sort keeps: the front up to k is sorted and before all the rest. */
  ghost predicate FrontSorted<T>(cmp: Comparator<T>, versus: int, t: seq<T>, first: nat, k: nat, last: nat)
    requires first <= k <= last + 1 <= |t|
  {
    && SortedRange(cmp, versus, t, first, k)
    && forall i :: first <= i < k ==> AllAfter(cmp, versus, t, k, last + 1, t[i])
  }

  /** Brings to index k the element that is next in order. */
  method SelectOne<T(0)>(cmp: Comparator<T>, versus: int, firstunsorted: Entry<T>, lel: Entry<T>,
                         ghost u: set<T>, ghost first: nat, ghost k: nat, ghost last: nat,
                         ghost ns: seq<Entry<T>>, ghost s: seq<T>, ghost r: set<Entry<T>>)
    returns (ghost t: seq<T>)
    requires Linked(ns, r) && Carries(ns, s, r) && Within(s, u) && Orders(cmp, versus, u)
    requires first <= k <= last < |s| && firstunsorted == ns[k + 1] && lel == ns[last + 1]
    requires FrontSorted(cmp, versus, s, first, k, last)
    modifies r`data
    ensures Linked(ns, r) && Carries(ns, t, r) && Within(t, u)
    ensures Perm(s, t, first, last + 1) && FrontSorted(cmp, versus, t, first, k + 1, last)
  {
    var toswap, at := FindNext(cmp, versus, firstunsorted, lel, u, k, last, ns, s, r);
    assert LinkAt(ns, k + 1, r);
    SelectStep(cmp, versus, u, s, first, k, at, last);
    t := Swapped(s, k, at);
    if toswap != firstunsorted {
      SwapData(firstunsorted, toswap, k, at, ns, s, r);
    } else {
      assert Same(ns, k + 1, at + 1);
      assert t == s;
    }
  }

  method SelectionSort<T(0)>(cmp: Comparator<T>, versus: int, ghost u: set<T>,
                             first: nat, fel: Entry<T>, last: nat, lel: Entry<T>,
                             ghost ns: seq<Entry<T>>, ghost s: seq<T>, ghost r: set<Entry<T>>)
    returns (ghost t: seq<T>)
    requires Linked(ns, r) && Carries(ns, s, r) && Within(s, u) && Orders(cmp, versus, u)
    requires first <= last < |s| && fel == ns[first + 1] && lel == ns[last + 1]
    modifies r`data
    ensures Linked(ns, r) && Carries(ns, t, r)
    ensures Perm(s, t, first, last + 1) && SortedRange(cmp, versus, t, first, last + 1)
  {
    t := s;
    if last <= first {
      return;
    }
    var firstunsorted := fel;
    ghost var k := first;
    while firstunsorted != lel
      invariant first <= k <= last && firstunsorted == ns[k + 1]
      invariant Linked(ns, r) && Carries(ns, t, r) && Within(t, u)
      invariant Perm(s, t, first, last + 1) && FrontSorted(cmp, versus, t, first, k, last)
      decreases last - k
    {
      SameIndex(ns, k + 1, last + 1);
      ghost var was := t;
      t := SelectOne(cmp, versus, firstunsorted, lel, u, first, k, last, ns, t, r);
      PermTrans(s, was, t, first, last + 1);
      assert LinkAt(ns, k + 1, r);
      firstunsorted, k := firstunsorted.next, k + 1;
    }
    SameIndex(ns, k + 1, last + 1);
  }

  /** One step of the selection: the sorted front grows by the element that was at index at. */
  lemma SelectStep<T>(cmp: Comparator<T>, versus: int, u: set<T>, s: seq<T>, first: nat, k: nat, at: nat, last: nat)
    requires first <= k <= at <= last < |s| && Within(s, u) && Orders(cmp, versus, u)
    requires FrontSorted(cmp, versus, s, first, k, last)
    requires AllAfter(cmp, versus, s, k, last + 1, s[at])
    ensures Perm(s, Swapped(s, k, at), first, last + 1) && Within(Swapped(s, k, at), u)
    ensures FrontSorted(cmp, versus, Swapped(s, k, at), first, k + 1, last)
  {
    var t := Swapped(s, k, at);
    SwappedPerm(s, k, at, k, last + 1);
    SwappedPerm(s, k, at, first, last + 1);
    PermWithin(s, t, first, last + 1, u);
    forall i | first <= i < k
      ensures AllAfter(cmp, versus, t, k, last + 1, t[i])
    {
      PermAfter(cmp, versus, s, t, k, last + 1, s[i]);
    }
    PermAfter(cmp, versus, s, t, k, last + 1, s[at]);
  }

  // ---------- quicksort ----------

  /** The state of a partition: everything outside li..ri is on its side of the pivot at pi. */
  ghost predicate Split<T>(cmp: Comparator<T>, versus: int, s: seq<T>, first: int, li: int, pi: int, ri: int, last: int) {
    && 0 <= first <= li <= pi <= ri <= last < |s|
    && AllBefore(cmp, versus, s, first, li, s[pi])
    && AllAfter(cmp, versus, s, ri + 1, last + 1, s[pi])
  }

  /** The entries of a running partition are where the indices say. */
  ghost predicate Cursors<T(0)>(ns: seq<Entry<T>>, n: int, left: Entry<T>, li: int, pivot: Entry<T>, pi: int,
                                right: Entry<T>, ri: int) {
    && |ns| == n + 2 && 0 <= li <= pi <= ri < n
    && left == ns[li + 1] && pivot == ns[pi + 1] && right == ns[ri + 1]
  }

  method ScanLeft<T(0)>(cmp: Comparator<T>, versus: int, from: Entry<T>, pivot: Entry<T>, right: Entry<T>,
                        ghost first: nat, ghost li: nat, ghost pi: nat, ghost ri: nat, ghost last: nat,
                        ghost ns: seq<Entry<T>>, ghost s: seq<T>, ghost r: set<Entry<T>>)
    returns (left: Entry<T>, ghost lj: nat)
    requires Linked(ns, r) && Carries(ns, s, r) && Cursors(ns, |s|, from, li, pivot, pi, right, ri)
    requires Split(cmp, versus, s, first, li, pi, ri, last)
    ensures li <= lj && Cursors(ns, |s|, left, lj, pivot, pi, right, ri)
    ensures Split(cmp, versus, s, first, lj, pi, ri, last)
    ensures (left == pivot) == (lj == pi)
    ensures left != pivot ==> Misplaced(cmp, versus, s[lj], s[pi]) > 0
  {
    left, lj := from, li;
    while true
      invariant li <= lj && Cursors(ns, |s|, left, lj, pivot, pi, right, ri)
      invariant Split(cmp, versus, s, first, lj, pi, ri, last)
      decreases pi - lj
    {
      SameIndex(ns, lj + 1, pi + 1);
      if left == pivot { break; }
      assert DataAt(ns, s, lj, r) && DataAt(ns, s, pi, r) && LinkAt(ns, lj + 1, r);
      if Misplaced(cmp, versus, left.data, pivot.data) > 0 { break; }
      left, lj := left.next, lj + 1;
    }
  }

  method ScanRight<T(0)>(cmp: Comparator<T>, versus: int, left: Entry<T>, pivot: Entry<T>, from: Entry<T>,
                         ghost u: set<T>, ghost first: nat, ghost li: nat, ghost pi: nat, ghost ri: nat, ghost last: nat,
                         ghost ns: seq<Entry<T>>, ghost s: seq<T>, ghost r: set<Entry<T>>)
    returns (right: Entry<T>, ghost rj: nat)
    requires Linked(ns, r) && Carries(ns, s, r) && Cursors(ns, |s|, left, li, pivot, pi, from, ri)
    requires Within(s, u) && Orders(cmp, versus, u)
    requires Split(cmp, versus, s, first, li, pi, ri, last)
    ensures rj <= ri && Cursors(ns, |s|, left, li, pivot, pi, right, rj)
    ensures Split(cmp, versus, s, first, li, pi, rj, last)
    ensures (right == pivot) == (rj == pi)
    ensures right != pivot ==> Misplaced(cmp, versus, s[rj], s[pi]) < 0
  {
    right, rj := from, ri;
    while true
      invariant rj <= ri && Cursors(ns, |s|, left, li, pivot, pi, right, rj)
      invariant Split(cmp, versus, s, first, li, pi, rj, last)
      decreases rj
    {
      SameIndex(ns, rj + 1, pi + 1);
      if right == pivot { break; }
      assert DataAt(ns, s, rj, r) && DataAt(ns, s, pi, r) && LinkAt(ns, rj + 1, r);
      if Misplaced(cmp, versus, right.data, pivot.data) < 0 { break; }
      right, rj := right.prev, rj - 1;
    }
  }

  lemma SwapSplit<T>(cmp: Comparator<T>, versus: int, u: set<T>, s: seq<T>, first: nat, li: nat, pi: nat, ri: nat, last: nat)
    requires Within(s, u) && Orders(cmp, versus, u) && Split(cmp, versus, s, first, li, pi, ri, last) && li < pi < ri
    requires Misplaced(cmp, versus, s[li], s[pi]) > 0 && Misplaced(cmp, versus, s[ri], s[pi]) < 0
    ensures Perm(s, Swapped(s, li, ri), first, last + 1) && Within(Swapped(s, li, ri), u)
    ensures Split(cmp, versus, Swapped(s, li, ri), first, li + 1, pi, ri - 1, last)
  {
    SwappedPerm(s, li, ri, first, last + 1);
    PermWithin(s, Swapped(s, li, ri), first, last + 1, u);
  }

  /** Exchanges a misplaced pair and moves both cursors past it. */
  method Exchange<T(0)>(cmp: Comparator<T>, versus: int, left: Entry<T>, pivot: Entry<T>, right: Entry<T>,
                        ghost u: set<T>, ghost first: nat, ghost li: nat, ghost pi: nat, ghost ri: nat, ghost last: nat,
                        ghost ns: seq<Entry<T>>, ghost s: seq<T>, ghost r: set<Entry<T>>)
    returns (left': Entry<T>, right': Entry<T>, ghost t: seq<T>)
    requires Linked(ns, r) && Carries(ns, s, r) && Within(s, u) && Orders(cmp, versus, u)
    requires Cursors(ns, |s|, left, li, pivot, pi, right, ri) && Split(cmp, versus, s, first, li, pi, ri, last)
    requires li < pi < ri
    requires Misplaced(cmp, versus, s[li], s[pi]) > 0 && Misplaced(cmp, versus, s[ri], s[pi]) < 0
    modifies r`data
    ensures Linked(ns, r) && Carries(ns, t, r) && Within(t, u) && Perm(s, t, first, last + 1)
    ensures Split(cmp, versus, t, first, li + 1, pi, ri - 1, last)
    ensures Cursors(ns, |t|, left', li + 1, pivot, pi, right', ri - 1)
  {
    assert LinkAt(ns, li + 1, r) && LinkAt(ns, ri + 1, r);
    SwapSplit(cmp, versus, u, s, first, li, pi, ri, last);
    SwapData(left, right, li, ri, ns, s, r);
    t := Swapped(s, li, ri);
    left', right' := left.next, right.prev;
  }

  /** The two cursors close in on the pivot, exchanging misplaced pairs, until one reaches it. */
  method Converge<T(0)>(cmp: Comparator<T>, versus: int, fel: Entry<T>, pivot: Entry<T>, lel: Entry<T>,
                        ghost u: set<T>, ghost first: nat, ghost pi: nat, ghost last: nat,
                        ghost ns: seq<Entry<T>>, ghost s: seq<T>, ghost r: set<Entry<T>>)
    returns (left: Entry<T>, right: Entry<T>, ghost li: nat, ghost ri: nat, ghost t: seq<T>)
    requires Linked(ns, r) && Carries(ns, s, r) && Within(s, u) && Orders(cmp, versus, u)
    requires first <= pi <= last < |s| && Cursors(ns, |s|, fel, first, pivot, pi, lel, last)
    modifies r`data
    ensures Linked(ns, r) && Carries(ns, t, r) && Within(t, u) && Perm(s, t, first, last + 1)
    ensures Cursors(ns, |t|, left, li, pivot, pi, right, ri) && Split(cmp, versus, t, first, li, pi, ri, last)
    ensures if right == pivot then ri == pi else li == pi
  {
    left, right, li, ri, t := fel, lel, first, last, s;
    while left != pivot && right != pivot
      invariant Linked(ns, r) && Carries(ns, t, r) && Within(t, u) && Perm(s, t, first, last + 1)
      invariant Cursors(ns, |t|, left, li, pivot, pi, right, ri) && Split(cmp, versus, t, first, li, pi, ri, last)
      decreases ri - li
    {
      left, li := ScanLeft(cmp, versus, left, pivot, right, first, li, pi, ri, last, ns, t, r);
      right, ri := ScanRight(cmp, versus, left, pivot, right, u, first, li, pi, ri, last, ns, t, r);
      if left != pivot && right != pivot {
        ghost var was := t;
        left, right, t := Exchange(cmp, versus, left, pivot, right, u, first, li, pi, ri, last, ns, t, r);
        PermTrans(s, was, t, first, last + 1);
        li, ri := li + 1, ri - 1;
      }
    }
    SameIndex(ns, li + 1, pi + 1);
    SameIndex(ns, ri + 1, pi + 1);
  }

  /** s with the elements at i, q and p moved round: q's to i, p's to q, i's to p. */
  function Rotated<T>(s: seq<T>, i: int, q: int, p: int): seq<T>
    requires 0 <= i < |s| && 0 <= q < |s| && 0 <= p < |s|
  {
    s[i := s[q]][q := s[p]][p := s[i]]
  }

  lemma RotatedAsSwaps<T>(s: seq<T>, i: int, q: int, p: int)
    requires 0 <= i < |s| && 0 <= q < |s| && 0 <= p < |s| && p != i && p != q
    ensures Rotated(s, i, q, p) == if i == q then Swapped(s, q, p) else Swapped(Swapped(s, q, p), i, p)
  {
  }

  lemma RotatedPerm<T>(s: seq<T>, i: int, q: int, p: int, lo: int, hi: int)
    requires 0 <= lo <= i < hi <= |s| && lo <= q < hi && lo <= p < hi && p != i && p != q
    ensures Perm(s, Rotated(s, i, q, p), lo, hi)
  {
    var t := Swapped(s, q, p);
    RotatedAsSwaps(s, i, q, p);
    SwappedPerm(s, q, p, lo, hi);
    if i != q {
      SwappedPerm(t, i, p, lo, hi);
      PermTrans(s, t, Swapped(t, i, p), lo, hi);
    }
  }

  /** Moves the data of e to pivot, pivot's to its neighbour y, and y's to e. */
  method RotateData<T(0)>(e: Entry<T>, y: Entry<T>, pivot: Entry<T>, ghost i: nat, ghost q: nat, ghost p: nat,
                          ghost ns: seq<Entry<T>>, ghost s: seq<T>, ghost r: set<Entry<T>>)
    requires Linked(ns, r) && Carries(ns, s, r) && i < |s| && q < |s| && p < |s| && p != i && p != q
    requires e == ns[i + 1] && y == ns[q + 1] && pivot == ns[p + 1] && e in r && y in r && pivot in r
    modifies e`data, y`data, pivot`data
    ensures Carries(ns, Rotated(s, i, q, p), r)
  {
    assert DataAt(ns, s, i, r) && DataAt(ns, s, q, r) && DataAt(ns, s, p, r);
    SameIndex(ns, p + 1, i + 1);
    SameIndex(ns, p + 1, q + 1);
    SameIndex(ns, i + 1, q + 1);
    var tmpdata := e.data;
    e.data := y.data;
    y.data := pivot.data;
    pivot.data := tmpdata;
    ghost var t := Rotated(s, i, q, p);
    forall k | 0 <= k < |t|
      ensures DataAt(ns, t, k, r)
    {
      assert old(DataAt(ns, s, k, r));
      SameIndex(ns, k + 1, i + 1);
      SameIndex(ns, k + 1, q + 1);
      SameIndex(ns, k + 1, p + 1);
    }
  }

  lemma RotateDownSplit<T>(cmp: Comparator<T>, versus: int, u: set<T>, s: seq<T>, first: nat, li: nat, pi: nat, last: nat)
    requires Within(s, u) && Orders(cmp, versus, u) && Split(cmp, versus, s, first, li, pi, pi, last) && li < pi
    requires Misplaced(cmp, versus, s[li], s[pi]) > 0
    ensures Perm(s, Rotated(s, li, pi - 1, pi), first, last + 1) && Within(Rotated(s, li, pi - 1, pi), u)
    ensures Split(cmp, versus, Rotated(s, li, pi - 1, pi), first, li, pi - 1, pi - 1, last)
  {
    RotatedPerm(s, li, pi - 1, pi, first, last + 1);
    PermWithin(s, Rotated(s, li, pi - 1, pi), first, last + 1, u);
  }

  lemma RotateUpSplit<T>(cmp: Comparator<T>, versus: int, u: set<T>, s: seq<T>, first: nat, pi: nat, ri: nat, last: nat)
    requires Within(s, u) && Orders(cmp, versus, u) && Split(cmp, versus, s, first, pi, pi, ri, last) && pi < ri
    requires Misplaced(cmp, versus, s[ri], s[pi]) < 0
    ensures Perm(s, Rotated(s, ri, pi + 1, pi), first, last + 1) && Within(Rotated(s, ri, pi + 1, pi), u)
    ensures Split(cmp, versus, Rotated(s, ri, pi + 1, pi), first, pi + 1, pi + 1, ri, last)
  {
    RotatedPerm(s, ri, pi + 1, pi, first, last + 1);
    PermWithin(s, Rotated(s, ri, pi + 1, pi), first, last + 1, u);
  }

  /** Hands the misplaced element at left over the pivot, which moves one entry down. */
  method PivotDown<T(0)>(cmp: Comparator<T>, versus: int, left: Entry<T>, pivot: Entry<T>,
                         ghost u: set<T>, ghost first: nat, ghost li: nat, ghost pi: nat, ghost last: nat,
                         ghost ns: seq<Entry<T>>, ghost s: seq<T>, ghost r: set<Entry<T>>)
    returns (down: Entry<T>, ghost t: seq<T>)
    requires Linked(ns, r) && Carries(ns, s, r) && Within(s, u) && Orders(cmp, versus, u)
    requires Split(cmp, versus, s, first, li, pi, pi, last) && Cursors(ns, |s|, left, li, pivot, pi, pivot, pi)
    requires li < pi && Misplaced(cmp, versus, s[li], s[pi]) > 0
    modifies r`data
    ensures Linked(ns, r) && Carries(ns, t, r) && Within(t, u) && Perm(s, t, first, last + 1)
    ensures Split(cmp, versus, t, first, li, pi - 1, pi - 1, last)
    ensures down == ns[pi]
  {
    assert LinkAt(ns, li + 1, r) && LinkAt(ns, pi, r) && LinkAt(ns, pi + 1, r);
    RotateDownSplit(cmp, versus, u, s, first, li, pi, last);
    RotateData(left, pivot.prev, pivot, li, pi - 1, pi, ns, s, r);
    t := Rotated(s, li, pi - 1, pi);
    down := pivot.prev;
  }

  /** Hands the misplaced element at right over the pivot, which moves one entry up. */
  method PivotUp<T(0)>(cmp: Comparator<T>, versus: int, right: Entry<T>, pivot: Entry<T>,
                       ghost u: set<T>, ghost first: nat, ghost pi: nat, ghost ri: nat, ghost last: nat,
                       ghost ns: seq<Entry<T>>, ghost s: seq<T>, ghost r: set<Entry<T>>)
    returns (up: Entry<T>, ghost t: seq<T>)
    requires Linked(ns, r) && Carries(ns, s, r) && Within(s, u) && Orders(cmp, versus, u)
    requires Split(cmp, versus, s, first, pi, pi, ri, last) && Cursors(ns, |s|, pivot, pi, pivot, pi, right, ri)
    requires pi < ri && Misplaced(cmp, versus, s[ri], s[pi]) < 0
    modifies r`data
    ensures Linked(ns, r) && Carries(ns, t, r) && Within(t, u) && Perm(s, t, first, last + 1)
    ensures Split(cmp, versus, t, first, pi + 1, pi + 1, ri, last)
    ensures up == ns[pi + 2]
  {
    assert LinkAt(ns, ri + 1, r) && LinkAt(ns, pi + 1, r) && LinkAt(ns, pi + 2, r);
    RotateUpSplit(cmp, versus, u, s, first, pi, ri, last);
    RotateData(right, pivot.next, pivot, ri, pi + 1, pi, ns, s, r);
    t := Rotated(s, ri, pi + 1, pi);
    up := pivot.next;
  }

  /** One turn towards the pivot from the left: a misplaced datum goes over the pivot, any other is passed. */
  method TurnLeft<T(0)>(cmp: Comparator<T>, versus: int, left0: Entry<T>, pivot0: Entry<T>,
                        ghost u: set<T>, ghost first: nat, ghost li0: nat, ghost pi: nat, ghost last: nat,
                        ghost ns: seq<Entry<T>>, ghost s: seq<T>, ghost r: set<Entry<T>>)
    returns (left: Entry<T>, pivot: Entry<T>, down: bool, ghost li: nat, ghost t: seq<T>)
    requires Linked(ns, r) && Carries(ns, s, r) && Within(s, u) && Orders(cmp, versus, u)
    requires Split(cmp, versus, s, first, li0, pi, pi, last) && Cursors(ns, |s|, left0, li0, pivot0, pi, pivot0, pi)
    requires li0 < pi
    modifies r`data
    ensures Linked(ns, r) && Carries(ns, t, r) && Within(t, u) && Perm(s, t, first, last + 1)
    ensures if down then li == li0 else li == li0 + 1
    ensures var pj := if down then pi - 1 else pi;
      Split(cmp, versus, t, first, li, pj, pj, last) && Cursors(ns, |t|, left, li, pivot, pj, pivot, pj)
  {
    assert LinkAt(ns, li0 + 1, r) && DataAt(ns, s, li0, r) && DataAt(ns, s, pi, r);
    down := Misplaced(cmp, versus, left0.data, pivot0.data) > 0;
    left, pivot, li, t := left0, pivot0, li0, s;
    if down {
      pivot, t := PivotDown(cmp, versus, left0, pivot0, u, first, li0, pi, last, ns, s, r);
    } else {
      left, li := left0.next, li0 + 1;
    }
  }

  /** Nothing is left right of the pivot: what belongs there is taken from the left, the pivot moving down. */
  method CloseLeft<T(0)>(cmp: Comparator<T>, versus: int, fromLeft: Entry<T>, fromPivot: Entry<T>, fromId: nat,
                         ghost u: set<T>, ghost first: nat, ghost fromLi: nat, ghost last: nat,
                         ghost ns: seq<Entry<T>>, ghost s: seq<T>, ghost r: set<Entry<T>>)
    returns (pivot: Entry<T>, pivotid: nat, ghost t: seq<T>)
    requires Linked(ns, r) && Carries(ns, s, r) && Within(s, u) && Orders(cmp, versus, u)
    requires Split(cmp, versus, s, first, fromLi, first + fromId, first + fromId, last)
    requires Cursors(ns, |s|, fromLeft, fromLi, fromPivot, first + fromId, fromPivot, first + fromId)
    modifies r`data
    ensures Linked(ns, r) && Carries(ns, t, r) && Within(t, u) && Perm(s, t, first, last + 1)
    ensures Split(cmp, versus, t, first, first + pivotid, first + pivotid, first + pivotid, last)
    ensures pivot == ns[first + pivotid + 1]
  {
    var left: Entry<T> := fromLeft;
    ghost var li := fromLi;
    pivot, pivotid, t := fromPivot, fromId, s;
    SameIndex(ns, li + 1, first + pivotid + 1);
    while left != pivot
      invariant Linked(ns, r) && Carries(ns, t, r) && Within(t, u) && Perm(s, t, first, last + 1)
      invariant Split(cmp, versus, t, first, li, first + pivotid, first + pivotid, last)
      invariant Cursors(ns, |t|, left, li, pivot, first + pivotid, pivot, first + pivotid)
      invariant (left == pivot) == (li == first + pivotid)
      decreases first + pivotid - li
    {
      ghost var was := t;
      var down: bool;
      left, pivot, down, li, t :=
        TurnLeft(cmp, versus, left, pivot, u, first, li, first + pivotid, last, ns, t, r);
      PermTrans(s, was, t, first, last + 1);
      if down {
        pivotid := pivotid - 1;
      }
      SameIndex(ns, li + 1, first + pivotid + 1);
    }
  }

  /** One turn towards the pivot from the right. */
  method TurnRight<T(0)>(cmp: Comparator<T>, versus: int, right0: Entry<T>, pivot0: Entry<T>,
                         ghost u: set<T>, ghost first: nat, ghost pi: nat, ghost ri0: nat, ghost last: nat,
                         ghost ns: seq<Entry<T>>, ghost s: seq<T>, ghost r: set<Entry<T>>)
    returns (right: Entry<T>, pivot: Entry<T>, up: bool, ghost ri: nat, ghost t: seq<T>)
    requires Linked(ns, r) && Carries(ns, s, r) && Within(s, u) && Orders(cmp, versus, u)
    requires Split(cmp, versus, s, first, pi, pi, ri0, last) && Cursors(ns, |s|, pivot0, pi, pivot0, pi, right0, ri0)
    requires pi < ri0
    modifies r`data
    ensures Linked(ns, r) && Carries(ns, t, r) && Within(t, u) && Perm(s, t, first, last + 1)
    ensures if up then ri == ri0 else ri == ri0 - 1
    ensures var pj := if up then pi + 1 else pi;
      Split(cmp, versus, t, first, pj, pj, ri, last) && Cursors(ns, |t|, pivot, pj, pivot, pj, right, ri)
  {
    assert LinkAt(ns, ri0 + 1, r) && DataAt(ns, s, ri0, r) && DataAt(ns, s, pi, r);
    up := Misplaced(cmp, versus, right0.data, pivot0.data) < 0;
    right, pivot, ri, t := right0, pivot0, ri0, s;
    if up {
      pivot, t := PivotUp(cmp, versus, right0, pivot0, u, first, pi, ri0, last, ns, s, r);
    } else {
      right, ri := right0.prev, ri0 - 1;
    }
  }

  /** Nothing is left left of the pivot: what belongs there is taken from the right, the pivot moving up. */
  method CloseRight<T(0)>(cmp: Comparator<T>, versus: int, fromRight: Entry<T>, fromPivot: Entry<T>, fromId: nat,
                          ghost u: set<T>, ghost first: nat, ghost fromRi: nat, ghost last: nat,
                          ghost ns: seq<Entry<T>>, ghost s: seq<T>, ghost r: set<Entry<T>>)
    returns (pivot: Entry<T>, pivotid: nat, ghost t: seq<T>)
    requires Linked(ns, r) && Carries(ns, s, r) && Within(s, u) && Orders(cmp, versus, u)
    requires Split(cmp, versus, s, first, first + fromId, first + fromId, fromRi, last)
    requires Cursors(ns, |s|, fromPivot, first + fromId, fromPivot, first + fromId, fromRight, fromRi)
    modifies r`data
    ensures Linked(ns, r) && Carries(ns, t, r) && Within(t, u) && Perm(s, t, first, last + 1)
    ensures Split(cmp, versus, t, first, first + pivotid, first + pivotid, first + pivotid, last)
    ensures pivot == ns[first + pivotid + 1]
  {
    var right: Entry<T> := fromRight;
    ghost var ri := fromRi;
    pivot, pivotid, t := fromPivot, fromId, s;
    SameIndex(ns, ri + 1, first + pivotid + 1);
    while right != pivot
      invariant Linked(ns, r) && Carries(ns, t, r) && Within(t, u) && Perm(s, t, first, last + 1)
      invariant Split(cmp, versus, t, first, first + pivotid, first + pivotid, ri, last)
      invariant Cursors(ns, |t|, pivot, first + pivotid, pivot, first + pivotid, right, ri)
      invariant (right == pivot) == (ri == first + pivotid)
      decreases ri - (first + pivotid)
    {
      ghost var was := t;
      var up: bool;
      right, pivot, up, ri, t :=
        TurnRight(cmp, versus, right, pivot, u, first, first + pivotid, ri, last, ns, t, r);
      PermTrans(s, was, t, first, last + 1);
      if up {
        pivotid := pivotid + 1;
      }
      SameIndex(ns, ri + 1, first + pivotid + 1);
    }
  }

  /** Walks to the entry pivotid places after fel, from whichever end is nearer. */
  method FindPivot<T(0)>(first: nat, fel: Entry<T>, last: nat, lel: Entry<T>, pivotid: nat,
                         ghost ns: seq<Entry<T>>, ghost r: set<Entry<T>>)
    returns (pivot: Entry<T>)
    requires Linked(ns, r) && first <= last < |ns| - 2 && pivotid <= last - first
    requires fel == ns[first + 1] && lel == ns[last + 1]
    ensures pivot == ns[first + pivotid + 1]
  {
    var i: int;
    if pivotid < (last - first + 1) / 2 {
      i, pivot := 0, fel;
      while i < pivotid
        invariant 0 <= i <= pivotid && pivot == ns[first + i + 1]
      {
        assert LinkAt(ns, first + i + 1, r);
        pivot, i := pivot.next, i + 1;
      }
    } else {
      i, pivot := last - first, lel;
      while i > pivotid
        invariant pivotid <= i <= last - first && pivot == ns[first + i + 1]
      {
        assert LinkAt(ns, first + i + 1, r);
        pivot, i := pivot.prev, i - 1;
      }
    }
  }

  /** Picks any pivot and rearranges the stretch around it. */
  method Partition<T(0)>(cmp: Comparator<T>, versus: int, ghost u: set<T>,
                         first: nat, fel: Entry<T>, last: nat, lel: Entry<T>,
                         ghost ns: seq<Entry<T>>, ghost s: seq<T>, ghost r: set<Entry<T>>)
    returns (pivot: Entry<T>, pivotid: nat, ghost t: seq<T>)
    requires Linked(ns, r) && Carries(ns, s, r) && Within(s, u) && Orders(cmp, versus, u)
    requires first <= last < |s| && fel == ns[first + 1] && lel == ns[last + 1]
    modifies r`data
    ensures Linked(ns, r) && Carries(ns, t, r) && Within(t, u) && Perm(s, t, first, last + 1)
    ensures Split(cmp, versus, t, first, first + pivotid, first + pivotid, first + pivotid, last)
    ensures pivot == ns[first + pivotid + 1]
  {
    pivotid :| pivotid < last - first + 1;
    pivot := FindPivot(first, fel, last, lel, pivotid, ns, r);
    var left, right, li, ri, v := Converge(cmp, versus, fel, pivot, lel, u, first, first + pivotid, last, ns, s, r);
    if right == pivot {
      pivot, pivotid, t := CloseLeft(cmp, versus, left, pivot, pivotid, u, first, li, last, ns, v, r);
    } else {
      pivot, pivotid, t := CloseRight(cmp, versus, right, pivot, pivotid, u, first, ri, last, ns, v, r);
    }
    PermTrans(s, v, t, first, last + 1);
  }

  /** Sorting both sides of a split keeps the split. */
  lemma SidesKeepSplit<T>(cmp: Comparator<T>, versus: int, u: set<T>, s: seq<T>, t: seq<T>,
                          first: nat, pi: nat, last: nat, lo: nat, hi: nat)
    requires Split(cmp, versus, s, first, pi, pi, pi, last) && Within(s, u) && Perm(s, t, lo, hi)
    requires (lo == first && hi == pi) || (lo == pi + 1 && hi == last + 1)
    ensures Split(cmp, versus, t, first, pi, pi, pi, last) && Within(t, u) && Perm(s, t, first, last + 1)
    ensures t[pi] == s[pi]
    ensures hi == pi && SortedRange(cmp, versus, s, pi + 1, last + 1) ==> SortedRange(cmp, versus, t, pi + 1, last + 1)
    ensures lo == pi + 1 && SortedRange(cmp, versus, s, first, pi) ==> SortedRange(cmp, versus, t, first, pi)
  {
    PermWithin(s, t, lo, hi, u);
    PermWider(s, t, lo, hi, first, last + 1);
    assert Kept(s, t, pi);
    forall k | 0 <= k < lo || hi <= k < |s|
      ensures s[k] == t[k]
    {
      assert Kept(s, t, k);
    }
    if hi == pi {
      PermBefore(cmp, versus, s, t, first, pi, s[pi]);
    } else {
      PermAfter(cmp, versus, s, t, pi + 1, last + 1, s[pi]);
    }
  }

  lemma SortedAroundPivot<T>(cmp: Comparator<T>, versus: int, u: set<T>, t: seq<T>, first: nat, pi: nat, last: nat)
    requires Split(cmp, versus, t, first, pi, pi, pi, last) && Within(t, u) && Orders(cmp, versus, u)
    requires SortedRange(cmp, versus, t, first, pi) && SortedRange(cmp, versus, t, pi + 1, last + 1)
    ensures SortedRange(cmp, versus, t, first, last + 1)
  {
    forall i, j | first <= i < j < last + 1
      ensures Leq(cmp, versus, t[i], t[j])
    {
      if i < pi < j {
        assert Leq(cmp, versus, t[i], t[pi]) && Leq(cmp, versus, t[pi], t[j]);
      }
    }
  }

  method QuickSort<T(0)>(cmp: Comparator<T>, versus: int, ghost u: set<T>,
                         first: nat, fel: Entry<T>, last: nat, lel: Entry<T>,
                         ghost ns: seq<Entry<T>>, ghost s: seq<T>, ghost r: set<Entry<T>>)
    returns (ghost t: seq<T>)
    requires Linked(ns, r) && Carries(ns, s, r) && Within(s, u) && Orders(cmp, versus, u)
    requires first <= last < |s| && fel == ns[first + 1] && lel == ns[last + 1]
    modifies r`data
    ensures Linked(ns, r) && Carries(ns, t, r)
    ensures Perm(s, t, first, last + 1) && SortedRange(cmp, versus, t, first, last + 1)
    decreases last - first
  {
    if last <= first {
      return s;
    }
    if last - first + 1 <= MIN_QUICKSORT_ELS {
      t := SelectionSort(cmp, versus, u, first, fel, last, lel, ns, s, r);
      return;
    }
    var pivot, pivotid, v := Partition(cmp, versus, u, first, fel, last, lel, ns, s, r);
    ghost var pi := first + pivotid;
    ghost var w := v;
    if pivotid > 0 {
      assert LinkAt(ns, pi + 1, r);
      w := QuickSort(cmp, versus, u, first, fel, first + pivotid - 1, pivot.prev, ns, v, r);
      SidesKeepSplit(cmp, versus, u, v, w, first, pi, last, first, pi);
      PermTrans(s, v, w, first, last + 1);
    }
    t := w;
    if first + pivotid < last {
      assert LinkAt(ns, pi + 1, r);
      t := QuickSort(cmp, versus, u, first + pivotid + 1, pivot.next, last, lel, ns, w, r);
      SidesKeepSplit(cmp, versus, u, w, t, first, pi, last, pi + 1, last + 1);
      PermTrans(s, w, t, first, last + 1);
    }
    SortedAroundPivot(cmp, versus, u, t, first, pi, last);
  }

  /** list_sort.  With versus positive the data end up ascending, with versus negative descending. */
  method Sort<T(0, ==)>(l: List<T>, versus: int) returns (code: int)
    requires l.Valid()
    requires l.comparator.Some? ==> TotalPreorder(l.comparator.value, set x | x in l.contents)
    modifies l`contents, l.repr`data
    ensures l.Valid() && |l.contents| == |old(l.contents)|
    ensures code == if l.iterActive || l.comparator.None? then -1 else 0
    ensures code == -1 ==> l.contents == old(l.contents)
    ensures code == 0 ==> multiset(l.contents) == multiset(old(l.contents))
    ensures code == 0 ==> forall i, j :: 0 <= i < j < |l.contents| ==>
              InOrder(l.comparator.value, versus, l.contents[i], l.contents[j])
  {
    if l.iterActive || l.comparator.None? {
      return -1;
    }
    if l.numels <= 1 {
      return 0;
    }
    var cmp := l.comparator.value;
    ghost var u := set x | x in l.contents;
    PreorderOrders(cmp, versus, u);
    assert LinkAt(l.nodes, 0, l.repr) && LinkAt(l.nodes, l.numels + 1, l.repr);
    ghost var t := QuickSort(cmp, versus, u, 0, l.headSentinel.next, l.numels - 1, l.tailSentinel.prev,
                             l.nodes, l.contents, l.repr);
    l.contents := t;
    SortedInOrder(cmp, versus, t);
    return 0;
  }

  /** The order asked for: by versus ascending, descending, or no order at all for zero. */
  ghost predicate InOrder<T>(cmp: Comparator<T>, versus: int, x: T, y: T) {
    (versus > 0 ==> cmp(x, y) >= 0) && (versus < 0 ==> cmp(x, y) <= 0)
  }

  lemma SortedInOrder<T>(cmp: Comparator<T>, versus: int, t: seq<T>)
    requires SortedRange(cmp, versus, t, 0, |t|)
    ensures forall i, j :: 0 <= i < j < |t| ==> InOrder(cmp, versus, t[i], t[j])
  {
    forall i, j | 0 <= i < j < |t|
      ensures InOrder(cmp, versus, t[i], t[j])
    {
      SignOfProduct(cmp(t[i], t[j]), versus);
      assert Leq(cmp, versus, t[i], t[j]);
    }
  }
}
