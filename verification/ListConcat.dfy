/**
 list_concat: copies two lists one after the other into a third, then walks mid from the last
 copied element of the first list to the middle.
 */
module ListConcat {
  import opened SimcList

  // ---------- a chain under construction: the last entry's next is not set yet ----------

  ghost predicate OpenAt<T(0)>(ns: seq<Entry<T>>, i: int, r: set<Entry<T>>)
    requires 0 <= i < |ns|
    reads r`prev, r`next
  {
    && ns[i] in r
    && ns[i].prev == (if i == 0 then null else ns[i - 1])
    && (i < |ns| - 1 ==> ns[i].next == ns[i + 1])
  }

  ghost predicate OpenDataAt<T(0)>(ns: seq<Entry<T>>, s: seq<T>, i: int, r: set<Entry<T>>)
    requires 0 <= i < |s| == |ns| - 1
    reads r`data
  {
    ns[i + 1] in r && ns[i + 1].data == s[i]
  }

  /** ns is a head sentinel followed by entries that carry s. */
  ghost predicate Open<T(0)>(ns: seq<Entry<T>>, s: seq<T>, r: set<Entry<T>>)
    reads r`prev, r`next, r`data
  {
    && |ns| == |s| + 1
    && Distinct(ns)
    && (forall i :: 0 <= i < |ns| ==> OpenAt(ns, i, r))
    && (forall i :: 0 <= i < |s| ==> OpenDataAt(ns, s, i, r))
  }

  lemma DistinctAppended<X>(s: seq<X>, x: X)
    requires Distinct(s) && x !in s
    ensures Distinct(s + [x])
  {
    var r := s + [x];
    forall i, j | 0 <= i < |r| && 0 <= j < |r| && Same(r, i, j)
      ensures i == j
    {
      if i < |s| && j < |s| {
        SameIndex(s, i, j);
      }
    }
  }

  /** A new entry with data after el, the last entry of ns. */
  method AppendCopy<T(0)>(el: Entry<T>, data: T, ghost ns: seq<Entry<T>>, ghost s: seq<T>, ghost r: set<Entry<T>>)
    returns (e: Entry<T>)
    requires Open(ns, s, r) && el == ns[|s|] && el in r
    modifies el`next
    ensures fresh(e) && Open(ns + [e], s + [data], r + {e})
  {
    e := new Entry<T>();
    el.next := e;
    e.prev := el;
    e.data := data;
    ghost var now, kept, r' := ns + [e], s + [data], r + {e};
    assert e !in ns by {
      assert forall i :: 0 <= i < |ns| && old(OpenAt(ns, i, r)) ==> ns[i] != e;
    }
    DistinctAppended(ns, e);
    forall i | 0 <= i < |now|
      ensures OpenAt(now, i, r')
    {
      if i < |ns| {
        assert old(OpenAt(ns, i, r));
        SameIndex(ns, i, |s|);
      }
    }
    forall i | 0 <= i < |kept|
      ensures OpenDataAt(now, kept, i, r')
    {
      if i < |s| {
        assert old(OpenDataAt(ns, s, i, r));
      }
    }
  }

  /** Copies the elements of src after el. */
  method CopyElems<T(0)>(src: List<T>, el: Entry<T>, ghost ns: seq<Entry<T>>, ghost s: seq<T>, ghost r: set<Entry<T>>)
    returns (last: Entry<T>, ghost now: seq<Entry<T>>, ghost r': set<Entry<T>>)
    requires src.Chained() && r !! src.repr
    requires Open(ns, s, r) && el == ns[|s|] && el in r
    modifies r`next
    ensures src.Chained()
    ensures r <= r' && fresh(r' - r)
    ensures Open(now, s + src.contents, r') && ns <= now && last == now[|now| - 1] && last in r'
  {
    last, now, r' := el, ns, r;
    assert LinkAt(src.nodes, 0, src.repr);
    var srcel := src.headSentinel.next;
    ghost var k := 0;
    assert s + src.contents[..0] == s;
    while srcel != src.tailSentinel
      invariant src.Chained() && 0 <= k <= |src.contents| && srcel == src.nodes[k + 1]
      invariant r <= r' && fresh(r' - r) && r' !! src.repr
      invariant Open(now, s + src.contents[..k], r') && ns <= now && last == now[|now| - 1] && last in r'
      decreases |src.contents| - k
    {
      SameIndex(src.nodes, k + 1, |src.contents| + 1);
      assert LinkAt(src.nodes, k + 1, src.repr) && DataAt(src.nodes, src.contents, k, src.repr);
      last := AppendCopy(last, srcel.data, now, s + src.contents[..k], r');
      assert s + src.contents[..k] + [src.contents[k]] == s + src.contents[..k + 1];
      now, r' := now + [last], r' + {last};
      srcel, k := srcel.next, k + 1;
    }
    SameIndex(src.nodes, k + 1, |src.contents| + 1);
    assert src.contents[..k] == src.contents;
  }

  /** Ends the chain under construction with the tail sentinel. */
  method CloseChain<T(0)>(el: Entry<T>, tail: Entry<T>, ghost ns: seq<Entry<T>>, ghost s: seq<T>, ghost r: set<Entry<T>>)
    requires Open(ns, s, r) && el == ns[|s|] && el in r && tail in r && tail !in ns && tail.next == null
    modifies el`next, tail`prev
    ensures Linked(ns + [tail], r) && Carries(ns + [tail], s, r)
  {
    el.next := tail;
    tail.prev := el;
    ghost var now := ns + [tail];
    DistinctAppended(ns, tail);
    forall i | 0 <= i < |now|
      ensures LinkAt(now, i, r)
    {
      if i < |ns| {
        assert old(OpenAt(ns, i, r));
        SameIndex(ns, i, |s|);
      }
    }
    forall i | 0 <= i < |s|
      ensures DataAt(now, s, i, r)
    {
      assert old(OpenDataAt(ns, s, i, r));
    }
  }

  /** C's x/2, which rounds towards zero. */
  function HalfOf(x: int): int {
    if x >= 0 then x / 2 else -((-x) / 2)
  }

  /** Copies both lists between head and tail; mid is the last entry copied from l1. */
  method CopyChains<T(0)>(l1: List<T>, l2: List<T>, head: Entry<T>, tail: Entry<T>, ghost r0: set<Entry<T>>)
    returns (mid: Entry<T>, ghost ns: seq<Entry<T>>, ghost r: set<Entry<T>>)
    requires l1.Chained() && l2.Chained() && r0 !! l1.repr && r0 !! l2.repr
    requires Open([head], [], r0) && head in r0 && tail !in r0 && tail.next == null
    requires tail !in l1.repr && tail !in l2.repr
    modifies r0`next, tail`prev
    ensures Linked(ns, r) && Carries(ns, l1.contents + l2.contents, r)
    ensures r0 + {tail} <= r && fresh(r - r0 - {tail})
    ensures ns[0] == head && ns[|ns| - 1] == tail && mid == ns[|l1.contents|]
  {
    mid, ns, r := CopyElems(l1, head, [head], [], r0);
    assert [] + l1.contents == l1.contents;
    var el;
    el, ns, r := CopyElems(l2, mid, ns, l1.contents, r);
    assert tail !in ns by {
      assert forall i :: 0 <= i < |ns| && OpenAt(ns, i, r) ==> ns[i] != tail;
    }
    OpenGrows(ns, l1.contents + l2.contents, r, r + {tail});
    r := r + {tail};
    CloseChain(el, tail, ns, l1.contents + l2.contents, r);
    ns := ns + [tail];
  }

  /** Fills the empty list dest with copies; mid is left on the last element copied from l1. */
  method CopyBoth<T(0)>(l1: List<T>, l2: List<T>, dest: List<T>)
    requires l1 != dest && l2 != dest && l1.Chained() && l2.Chained()
    requires dest.Chained() && dest.contents == [] && dest.repr !! l1.repr && dest.repr !! l2.repr
    modifies dest`mid, dest`nodes, dest`contents, dest`repr, dest.repr`prev, dest.repr`next
    ensures dest.Chained() && dest.contents == l1.contents + l2.contents
    ensures fresh(dest.repr - old(dest.repr))
    ensures dest.mid == dest.nodes[|l1.contents|]
  {
    var head, tail := dest.headSentinel, dest.tailSentinel;
    ghost var r0 := dest.repr - {tail};
    assert LinkAt(dest.nodes, 0, dest.repr) && LinkAt(dest.nodes, 1, dest.repr);
    SameIndex(dest.nodes, 0, 1);
    assert OpenAt([head], 0, r0);
    var mid, ns, r := CopyChains(l1, l2, head, tail, r0);
    dest.mid := mid;
    dest.nodes, dest.contents, dest.repr := ns, l1.contents + l2.contents, r;
  }

  lemma OpenGrows<T(0)>(ns: seq<Entry<T>>, s: seq<T>, r: set<Entry<T>>, r': set<Entry<T>>)
    requires Open(ns, s, r) && r <= r'
    ensures Open(ns, s, r')
  {
    forall i | 0 <= i < |ns|
      ensures OpenAt(ns, i, r')
    {
      assert OpenAt(ns, i, r);
    }
    forall i | 0 <= i < |s|
      ensures OpenDataAt(ns, s, i, r')
    {
      assert OpenDataAt(ns, s, i, r);
    }
  }

  /** The correction of mid, from the last element of the first n1 to the middle of all n1+n2. */
  method CenterMid<T(0)>(dest: List<T>, n1: nat, n2: nat)
    requires dest.Chained() && |dest.contents| == n1 + n2 > 0 && dest.mid == dest.nodes[n1]
    modifies dest`mid
    ensures dest.mid == MidOf(dest.nodes)
  {
    var err := n2 - n1;
    if HalfOf(err + 1) > 0 {
      dest.MoveMid(HalfOf(err + 1), n1);
    } else if HalfOf(err) < 0 {
      dest.MoveMid(-HalfOf(-err), n1);
    }
  }

  /** list_concat.  l1 and l2 may be the same list; dest may be neither. */
  method Concat<T(0)>(l1: List?<T>, l2: List?<T>, dest: List?<T>) returns (code: int)
    requires l1 != null ==> l1.Valid()
    requires l2 != null ==> l2.Valid()
    modifies dest
    ensures code == if l1 == null || l2 == null || dest == null || l1 == dest || l2 == dest then -1 else 0
    ensures code == -1 && dest != null ==> unchanged(dest)
    ensures code == 0 ==> dest.Valid() && fresh(dest.repr) && fresh(dest.spareels)
    ensures code == 0 ==> dest.contents == l1.contents + l2.contents
  {
    if l1 == null || l2 == null || dest == null || l1 == dest || l2 == dest {
      return -1;
    }
    dest.Init();
    dest.numels := l1.numels + l2.numels;
    if dest.numels == 0 {
      return 0;
    }
    CopyBoth(l1, l2, dest);
    CenterMid(dest, l1.numels, l2.numels);
    return 0;
  }
}
