/**
 The doubly linked list of chiTCP: two sentinels, a chain of entries between them, a `mid`
 pointer kept on the entry at index (numels-1)/2, and up to five spare entries kept for reuse.

 `nodes` is the chain as it stands in the heap, sentinels included, so the element at index p
 is `nodes[p+1]`; `contents` is the list a caller sees.  `Valid()` is the repository's list_repOk
 plus what list_repOk cannot see: no entry sits twice in the chain, or in both chain and spares.
 */
module SimcList {
  import opened Common

  const MAX_SPARE_ELEMS := 5

  class Entry<T(0)> {
    var data: T
    var prev: Entry?<T>
    var next: Entry?<T>

    constructor () {
    }
  }

  ghost predicate Same<X>(s: seq<X>, i: int, j: int)
    requires 0 <= i < |s| && 0 <= j < |s|
  {
    s[i] == s[j]
  }

  ghost predicate Distinct<X>(s: seq<X>) {
    forall i, j :: 0 <= i < |s| && 0 <= j < |s| && Same(s, i, j) ==> i == j
  }

  lemma SameIndex<X>(s: seq<X>, i: int, j: int)
    requires Distinct(s) && 0 <= i < |s| && 0 <= j < |s|
    ensures s[i] == s[j] ==> i == j
  {
    assert Same(s, i, j) == (s[i] == s[j]);
  }

  /** Entry i of the chain ns points both ways as the chain says. */
  ghost predicate LinkAt<T(0)>(ns: seq<Entry<T>>, i: int, r: set<Entry<T>>)
    requires 0 <= i < |ns|
    reads r`prev, r`next
  {
    && ns[i] in r
    && ns[i].prev == (if i == 0 then null else ns[i - 1])
    && ns[i].next == (if i == |ns| - 1 then null else ns[i + 1])
  }

  /** A two-way chain of entries of r, from a head sentinel to a tail sentinel. */
  ghost predicate Linked<T(0)>(ns: seq<Entry<T>>, r: set<Entry<T>>)
    reads r`prev, r`next
  {
    |ns| >= 2 && Distinct(ns) && forall i :: 0 <= i < |ns| ==> LinkAt(ns, i, r)
  }

  ghost predicate DataAt<T(0)>(ns: seq<Entry<T>>, s: seq<T>, i: int, r: set<Entry<T>>)
    requires 0 <= i < |s| == |ns| - 2
    reads r`data
  {
    ns[i + 1] in r && ns[i + 1].data == s[i]
  }

  /** The data along the chain ns, sentinels aside, is s. */
  ghost predicate Carries<T(0)>(ns: seq<Entry<T>>, s: seq<T>, r: set<Entry<T>>)
    reads r`data
  {
    |ns| == |s| + 2 && forall i :: 0 <= i < |s| ==> DataAt(ns, s, i, r)
  }

  /** Where mid belongs: at index (numels-1)/2, and nowhere in an empty list. */
  function MidOf<T(0)>(ns: seq<Entry<T>>): Entry?<T>
    requires |ns| >= 2
  {
    if |ns| == 2 then null else ns[(|ns| - 3) / 2 + 1]
  }

  /** As many elements stand before mid as after it, or one less. */
  lemma MidIsCentral<T(0)>(ns: seq<Entry<T>>, k: nat)
    requires Distinct(ns) && 0 < k < |ns| - 1 && MidOf(ns) == ns[k]
    ensures var before, after := k - 1, |ns| - 2 - k; before == after || before + 1 == after
  {
    SameIndex(ns, k, (|ns| - 3) / 2 + 1);
  }

  /** How many spares there are when n more nodes have been offered. */
  function MoreSpares(spares: nat, n: nat): nat {
    if spares + n < MAX_SPARE_ELEMS then spares + n else MAX_SPARE_ELEMS
  }

  lemma FiveSparesAtMost(spares: nat, n: nat)
    requires spares <= 5
    ensures MoreSpares(spares, n) == if spares + n <= 5 then spares + n else 5
  {
  }

  /** s with x put in at index k. */
  function Inserted<X>(s: seq<X>, k: nat, x: X): (r: seq<X>)
    requires k <= |s|
    ensures |r| == |s| + 1 && r[k] == x
    ensures forall i :: 0 <= i < k ==> r[i] == s[i]
    ensures forall i :: k < i < |r| ==> r[i] == s[i - 1]
  {
    s[..k] + [x] + s[k..]
  }

  /** s without the elements from a up to, not including, b. */
  function Cut<X>(s: seq<X>, a: nat, b: nat): (r: seq<X>)
    requires a <= b <= |s|
    ensures |r| == |s| - (b - a)
    ensures forall i :: 0 <= i < a ==> r[i] == s[i]
    ensures forall i :: a <= i < |r| ==> r[i] == s[i + (b - a)]
  {
    s[..a] + s[b..]
  }

  lemma InsertedDistinct<X>(s: seq<X>, k: nat, x: X)
    requires k <= |s| && Distinct(s) && x !in s
    ensures Distinct(Inserted(s, k, x))
  {
    var r := Inserted(s, k, x);
    forall i, j | 0 <= i < |r| && 0 <= j < |r| && Same(r, i, j)
      ensures i == j
    {
      if i != k && j != k {
        assert Same(s, if i < k then i else i - 1, if j < k then j else j - 1);
      }
    }
  }

  lemma CutDistinct<X>(s: seq<X>, a: nat, b: nat)
    requires a <= b <= |s| && Distinct(s)
    ensures Distinct(Cut(s, a, b))
  {
    var r := Cut(s, a, b);
    forall i, j | 0 <= i < |r| && 0 <= j < |r| && Same(r, i, j)
      ensures i == j
    {
      assert Same(s, if i < a then i else i + (b - a), if j < a then j else j + (b - a));
    }
  }

  lemma CutAway<X>(s: seq<X>, a: nat, b: nat, i: nat)
    requires a <= i < b <= |s| && Distinct(s)
    ensures s[i] !in Cut(s, a, b)
  {
    var r := Cut(s, a, b);
    forall j | 0 <= j < |r|
      ensures s[i] != r[j]
    {
      assert !Same(s, i, if j < a then j else j + (b - a));
    }
  }

  lemma CutMembers<X>(s: seq<X>, a: nat, b: nat)
    requires a <= b <= |s|
    ensures forall x :: x in Cut(s, a, b) ==> x in s
  {
  }

  lemma InsertedCarries<T(0)>(ns: seq<Entry<T>>, s: seq<T>, k: nat, lent: Entry<T>, r: set<Entry<T>>)
    requires Carries(ns, s, r) && k <= |s| && lent in r
    ensures Carries(Inserted(ns, k + 1, lent), Inserted(s, k, lent.data), r)
  {
    var now, kept := Inserted(ns, k + 1, lent), Inserted(s, k, lent.data);
    forall i | 0 <= i <= |s|
      ensures DataAt(now, kept, i, r)
    {
      assert i < k ==> DataAt(ns, s, i, r);
      assert i > k ==> DataAt(ns, s, i - 1, r);
    }
  }

  lemma CutCarries<T(0)>(ns: seq<Entry<T>>, s: seq<T>, a: nat, b: nat, r: set<Entry<T>>)
    requires Carries(ns, s, r) && a <= b <= |s|
    ensures Carries(Cut(ns, a + 1, b + 1), Cut(s, a, b), r)
  {
    var now, kept := Cut(ns, a + 1, b + 1), Cut(s, a, b);
    forall i | 0 <= i < |kept|
      ensures DataAt(now, kept, i, r)
    {
      assert DataAt(ns, s, if i < a then i else i + (b - a), r);
    }
  }

  /** Two sentinels with nothing between them. */
  method NewChain<T(0)>() returns (head: Entry<T>, tail: Entry<T>)
    ensures fresh(head) && fresh(tail)
    ensures Linked([head, tail], {head, tail}) && Carries([head, tail], [], {head, tail})
  {
    head := new Entry<T>();
    tail := new Entry<T>();
    head.next, tail.prev := tail, head;
    head.prev, tail.next := null, null;
  }

  /** Links lent into the chain ns, between the entries at indices k-1 and k. */
  method LinkBetween<T(0)>(prec: Entry<T>, lent: Entry<T>, succ: Entry<T>,
                           ghost ns: seq<Entry<T>>, ghost k: nat, ghost r: set<Entry<T>>)
    requires Linked(ns, r) && 0 < k < |ns| && prec == ns[k - 1] && succ == ns[k]
    requires lent in r && lent !in ns
    modifies prec`next, lent`prev, lent`next, succ`prev
    ensures Linked(Inserted(ns, k, lent), r)
  {
    prec.next := lent;
    lent.prev := prec;
    lent.next := succ;
    succ.prev := lent;
    ghost var now := Inserted(ns, k, lent);
    InsertedDistinct(ns, k, lent);
    assert !Same(ns, k - 1, k);
    forall i | 0 <= i < k
      ensures LinkAt(now, i, r)
    {
      assert old(LinkAt(ns, i, r));
      SameIndex(ns, i, k - 1);
      assert !Same(ns, i, k);
    }
    forall i | k < i < |now|
      ensures LinkAt(now, i, r)
    {
      assert old(LinkAt(ns, i - 1, r));
      assert !Same(ns, i - 1, k - 1);
      SameIndex(ns, i - 1, k);
    }
  }

  /** Makes the entries at indices a-1 and b of the chain ns neighbours. */
  method CutLinks<T(0)>(left: Entry<T>, right: Entry<T>,
                        ghost ns: seq<Entry<T>>, ghost a: nat, ghost b: nat, ghost r: set<Entry<T>>)
    requires Linked(ns, r) && 0 < a <= b < |ns| && left == ns[a - 1] && right == ns[b]
    modifies left`next, right`prev
    ensures Linked(Cut(ns, a, b), r)
  {
    left.next := right;
    right.prev := left;
    ghost var now := Cut(ns, a, b);
    CutDistinct(ns, a, b);
    forall i | 0 <= i < a
      ensures LinkAt(now, i, r)
    {
      assert old(LinkAt(ns, i, r));
      SameIndex(ns, i, a - 1);
      assert !Same(ns, i, b);
    }
    forall i | a <= i < |now|
      ensures LinkAt(now, i, r)
    {
      assert old(LinkAt(ns, i + (b - a), r));
      assert !Same(ns, i + (b - a), a - 1);
      SameIndex(ns, i + (b - a), b);
    }
  }

  /** Comparing the exact quotient p/n with c is comparing p with c*n. */
  lemma RatioTest(p: real, n: real, c: real)
    requires n > 0.0
    ensures p / n <= c <==> p <= c * n
    ensures p / n < c <==> p < c * n
  {
    var x := p / n;
    assert x * n == p;
    if x < c {
      assert (c - x) * n > 0.0;
    } else if x > c {
      assert (x - c) * n > 0.0;
    }
  }

  class List<T(0)> {
    var headSentinel: Entry<T>
    var tailSentinel: Entry<T>
    var mid: Entry?<T>
    var numels: nat
    var spareels: array<Entry?<T>>
    var spareelsnum: nat
    var iterActive: bool
    var comparator: Option<(T, T) -> int>

    ghost var nodes: seq<Entry<T>>
    ghost var contents: seq<T>
    ghost var repr: set<Entry<T>>

    ghost predicate Valid()
      reads this, spareels, repr
    {
      numels == |contents| && Chained() && mid == MidOf(nodes) && SparesValid()
    }

    /** The chain: everything but mid and the count, which some steps fix later. */
    ghost predicate Chained()
      reads `headSentinel, `tailSentinel, `nodes, `contents, `repr, repr`data, repr`prev, repr`next
    {
      && Linked(nodes, repr)
      && Carries(nodes, contents, repr)
      && headSentinel == nodes[0]
      && tailSentinel == nodes[|contents| + 1]
    }

    ghost predicate SparesValid()
      reads `spareelsnum, `nodes, `repr, `spareels, spareels
    {
      SparesApartFrom(nodes)
    }

    /** At most MAX_SPARE_ELEMS spares, no entry twice among them and none of them in ns. */
    ghost predicate SparesApartFrom(ns: seq<Entry<T>>)
      reads `spareelsnum, `repr, `spareels, spareels
    {
      && spareels.Length == MAX_SPARE_ELEMS
      && spareelsnum <= MAX_SPARE_ELEMS
      && (forall i :: 0 <= i < spareelsnum ==> spareels[i] != null && spareels[i] in repr && spareels[i] !in ns)
      && (forall i, j :: 0 <= i < j < spareelsnum ==> spareels[i] != spareels[j])
    }

    constructor ()
      ensures Valid() && contents == [] && !iterActive && comparator == None
      ensures fresh(repr) && fresh(spareels)
    {
      headSentinel := new Entry<T>();
      tailSentinel := new Entry<T>();
      spareels := new Entry?<T>[MAX_SPARE_ELEMS](_ => null);
      new;
      Init();
    }

    /** list_init: whatever the list held before, it is empty now. */
    method Init()
      modifies this
      ensures Valid() && contents == [] && spareelsnum == 0 && !iterActive && comparator == None
      ensures fresh(repr) && fresh(spareels)
    {
      spareels, spareelsnum := new Entry?<T>[MAX_SPARE_ELEMS](_ => null), 0;
      mid, numels := null, 0;
      iterActive, comparator := false, None;
      InitChain();
    }

    method InitChain()
      modifies `headSentinel, `tailSentinel, `nodes, `contents, `repr
      ensures Chained() && contents == [] && fresh(repr)
    {
      var head, tail := NewChain<T>();
      headSentinel, tailSentinel := head, tail;
      nodes, contents, repr := [head, tail], [], {head, tail};
    }

    /** The entry at index posstart, the sentinels at -1 and numels included. */
    method FindPos(posstart: int) returns (ptr: Entry?<T>)
      requires numels == |contents| && Chained() && mid == MidOf(nodes)
      ensures ptr == if -1 <= posstart <= numels then nodes[posstart + 1] else null
    {
      if posstart < -1 || posstart > numels {
        return null;
      }
      // With no elements the quotient is a NaN or an infinity: no comparison below holds.
      var defined := numels != 0;
      var x := if defined then (posstart + 1) as real / numels as real else 0.0;
      if defined {
        RatioTest((posstart + 1) as real, numels as real, 0.25);
        RatioTest((posstart + 1) as real, numels as real, 0.5);
        RatioTest((posstart + 1) as real, numels as real, 0.75);
      }
      var i: int;
      if defined && x <= 0.25 {
        i, ptr := -1, headSentinel;
        while i < posstart
          invariant -1 <= i <= posstart && ptr == nodes[i + 1]
        {
          assert LinkAt(nodes, i + 1, repr);
          ptr, i := ptr.next, i + 1;
        }
      } else if defined && x < 0.5 {
        i, ptr := (numels - 1) / 2, mid;
        while i > posstart
          invariant posstart <= i <= numels && ptr == nodes[i + 1]
        {
          assert LinkAt(nodes, i + 1, repr);
          ptr, i := ptr.prev, i - 1;
        }
      } else if defined && x <= 0.75 {
        i, ptr := (numels - 1) / 2, mid;
        while i < posstart
          invariant 0 <= i <= posstart && ptr == nodes[i + 1]
        {
          assert LinkAt(nodes, i + 1, repr);
          ptr, i := ptr.next, i + 1;
        }
      } else {
        i, ptr := numels, tailSentinel;
        while i > posstart
          invariant posstart <= i <= numels && ptr == nodes[i + 1]
        {
          assert LinkAt(nodes, i + 1, repr);
          ptr, i := ptr.prev, i - 1;
        }
      }
    }

    /** An entry for data: the last spare, or a new one. */
    method NewEntry(data: T) returns (lent: Entry<T>)
      requires Chained() && SparesValid()
      modifies `spareelsnum, `repr, repr`data
      ensures Chained() && SparesValid() && lent.data == data
      ensures lent !in nodes && forall i :: 0 <= i < spareelsnum ==> spareels[i] != lent
      ensures repr == old(repr) + {lent} && fresh(repr - old(repr))
      ensures spareelsnum == if old(spareelsnum) > 0 then old(spareelsnum) - 1 else 0
      ensures if old(spareelsnum) > 0 then lent == spareels[spareelsnum] else fresh(lent)
    {
      if spareelsnum > 0 {
        lent := spareels[spareelsnum - 1];
        spareelsnum := spareelsnum - 1;
      } else {
        lent := new Entry<T>();
      }
      lent.data := data;
      repr := repr + {lent};
      forall i | 0 <= i < |nodes|
        ensures LinkAt(nodes, i, repr)
      {
        assert old(LinkAt(nodes, i, repr));
      }
      forall i | 0 <= i < |contents|
        ensures DataAt(nodes, contents, i, repr)
      {
        assert old(DataAt(nodes, contents, i, repr));
      }
    }

    /** Keeps an entry outside ns for reuse, while there is room. */
    method StoreSpare(e: Entry<T>, ghost ns: seq<Entry<T>>)
      requires SparesApartFrom(ns) && e in repr && e !in ns
      requires forall i :: 0 <= i < spareelsnum ==> spareels[i] != e
      modifies `spareelsnum, spareels
      ensures SparesApartFrom(ns)
      ensures spareelsnum == MoreSpares(old(spareelsnum), 1)
      ensures forall i :: 0 <= i < spareelsnum ==> spareels[i] == if i == old(spareelsnum) then e else old(spareels[i])
    {
      if spareelsnum < MAX_SPARE_ELEMS {
        spareels[spareelsnum] := e;
        spareelsnum := spareelsnum + 1;
      }
    }

    /** Puts lent between prec and succ, at index pos of the list.  The caller raises numels. */
    method LinkEntry(prec: Entry<T>, lent: Entry<T>, succ: Entry<T>, ghost pos: nat)
      requires Chained() && pos <= |contents| && prec == nodes[pos] && succ == nodes[pos + 1]
      requires lent in repr && lent !in nodes
      modifies `nodes, `contents, repr`prev, repr`next
      ensures Chained()
      ensures nodes == Inserted(old(nodes), pos + 1, lent)
      ensures contents == Inserted(old(contents), pos, lent.data)
    {
      assert LinkAt(nodes, pos, repr) && LinkAt(nodes, pos + 1, repr);
      LinkBetween(prec, lent, succ, nodes, pos + 1, repr);
      InsertedCarries(nodes, contents, pos, lent, repr);
      nodes := Inserted(nodes, pos + 1, lent);
      contents := Inserted(contents, pos, lent.data);
    }

    /** Takes the entries between left and right, indices a up to b, out of the chain. */
    static method CutChain(left: Entry<T>, right: Entry<T>, ghost a: nat, ghost b: nat,
                           ghost ns: seq<Entry<T>>, ghost s: seq<T>, ghost r: set<Entry<T>>)
      requires Linked(ns, r) && Carries(ns, s, r) && a <= b <= |s| && left == ns[a] && right == ns[b + 1]
      requires left in r && right in r
      modifies left`next, right`prev
      ensures Linked(Cut(ns, a + 1, b + 1), r) && Carries(Cut(ns, a + 1, b + 1), Cut(s, a, b), r)
    {
      CutLinks(left, right, ns, a + 1, b + 1, r);
      CutCarries(ns, s, a, b, r);
    }

    static lemma CutEnds(ns: seq<Entry<T>>, s: seq<T>, a: nat, b: nat)
      requires a <= b <= |s| && |ns| == |s| + 2
      ensures var now, kept := Cut(ns, a + 1, b + 1), Cut(s, a, b);
        |now| == |kept| + 2 && now[0] == ns[0] && now[|kept| + 1] == ns[|s| + 1]
    {
    }

    method Unlink(left: Entry<T>, right: Entry<T>, ghost a: nat, ghost b: nat)
      requires Chained() && a <= b <= |contents| && left == nodes[a] && right == nodes[b + 1]
      modifies `nodes, `contents, repr`prev, repr`next
      ensures Chained()
      ensures nodes == Cut(old(nodes), a + 1, b + 1) && contents == Cut(old(contents), a, b)
    {
      assert LinkAt(nodes, a, repr) && LinkAt(nodes, b + 1, repr);
      CutEnds(nodes, contents, a, b);
      ghost var now, kept := Cut(nodes, a + 1, b + 1), Cut(contents, a, b);
      assert now[0] == headSentinel && now[|kept| + 1] == tailSentinel;
      CutChain(left, right, a, b, nodes, contents, repr);
      nodes, contents := now, kept;
    }

    /** Moves mid back to its place after lent went in at index pos of the chain was. */
    method FixMidAfterInsert(lent: Entry<T>, pos: nat, ghost was: seq<Entry<T>>)
      requires Chained() && numels == |contents|
      requires |was| >= 2 && pos <= |was| - 2 && nodes == Inserted(was, pos + 1, lent)
      requires mid == MidOf(was)
      modifies `mid
      ensures mid == MidOf(nodes)
    {
      ghost var m := (|was| - 3) / 2 + 1;
      ghost var now := if m <= pos then m else m + 1;
      assert |was| > 2 ==> mid == nodes[now] && LinkAt(nodes, now, repr);
      if numels == 1 {
        mid := lent;
      } else if numels % 2 == 1 {
        if pos >= (numels - 1) / 2 { mid := mid.next; }
      } else {
        if pos <= (numels - 1) / 2 { mid := mid.prev; }
      }
    }

    /** Puts lent at index pos, count and mid included. */
    method PlaceEntry(lent: Entry<T>, pos: nat)
      requires numels == |contents| && Chained() && mid == MidOf(nodes) && pos <= numels
      requires lent in repr && lent !in nodes
      modifies `numels, `mid, `nodes, `contents, repr`prev, repr`next
      ensures numels == |contents| && Chained() && mid == MidOf(nodes)
      ensures nodes == Inserted(old(nodes), pos + 1, lent)
      ensures contents == Inserted(old(contents), pos, lent.data)
    {
      var prec := FindPos(pos - 1);
      assert LinkAt(nodes, pos, repr);
      LinkEntry(prec, lent, prec.next, pos);
      numels := numels + 1;
      FixMidAfterInsert(lent, pos, old(nodes));
    }

    method InsertAt(data: T, pos: nat) returns (code: int)
      requires Valid()
      modifies `numels, `mid, `nodes, `contents, `spareelsnum, `repr, spareels, repr
      ensures Valid() && fresh(repr - old(repr))
      ensures code == if iterActive || pos > |old(contents)| then -1 else 1
      ensures contents == if code == 1 then Inserted(old(contents), pos, data) else old(contents)
      ensures spareelsnum == if code == 1 && old(spareelsnum) > 0 then old(spareelsnum) - 1 else old(spareelsnum)
    {
      if iterActive || pos > numels {
        return -1;
      }
      var lent := NewEntry(data);
      PlaceEntry(lent, pos);
      return 1;
    }

    /** Moves mid for the loss of the element at index pos, before it goes. */
    method FixMidBeforeDrop(pos: nat)
      requires numels == |contents| && Chained() && mid == MidOf(nodes) && pos < numels
      modifies `mid
      ensures mid == MidOf(Cut(nodes, pos + 1, pos + 2))
    {
      assert LinkAt(nodes, (|nodes| - 3) / 2 + 1, repr);
      if numels % 2 == 1 {
        if numels == 1 {
          mid := null;
        } else if pos >= numels / 2 {
          mid := mid.prev;
        }
      } else {
        if pos < numels / 2 {
          mid := mid.next;
        }
      }
    }

    /** Takes tmp out of the chain, where no spare is. */
    method UnlinkOne(tmp: Entry<T>, ghost pos: nat)
      requires Chained() && SparesValid() && pos < |contents| && tmp == nodes[pos + 1]
      modifies `nodes, `contents, repr`prev, repr`next
      ensures Chained() && SparesValid() && tmp in repr && tmp !in nodes
      ensures forall i :: 0 <= i < spareelsnum ==> spareels[i] != tmp
      ensures nodes == Cut(old(nodes), pos + 1, pos + 2) && contents == Cut(old(contents), pos, pos + 1)
    {
      assert LinkAt(nodes, pos + 1, repr);
      CutAway(nodes, pos + 1, pos + 2, pos + 1);
      CutMembers(nodes, pos + 1, pos + 2);
      Unlink(tmp.prev, tmp.next, pos, pos + 1);
    }

    /** Takes tmp, the element at index pos, out of the chain.  The caller lowers numels. */
    method DropElem(tmp: Entry<T>, pos: nat)
      requires Valid() && pos < numels && tmp == nodes[pos + 1]
      modifies `mid, `nodes, `contents, `spareelsnum, spareels, repr`prev, repr`next
      ensures Chained() && mid == MidOf(nodes) && SparesValid()
      ensures contents == Cut(old(contents), pos, pos + 1) && spareelsnum == MoreSpares(old(spareelsnum), 1)
    {
      FixMidBeforeDrop(pos);
      UnlinkOne(tmp, pos);
      StoreSpare(tmp, nodes);
    }

    method ExtractAt(pos: nat) returns (data: Option<T>)
      requires Valid()
      modifies `numels, `mid, `nodes, `contents, `spareelsnum, `repr, spareels, repr
      ensures Valid() && repr == old(repr)
      ensures data == if iterActive || pos >= |old(contents)| then None else Some(old(contents)[pos])
      ensures contents == if data.None? then old(contents) else Cut(old(contents), pos, pos + 1)
      ensures spareelsnum == MoreSpares(old(spareelsnum), if data.None? then 0 else 1)
    {
      if iterActive || pos >= numels {
        return None;
      }
      var tmp := FindPos(pos);
      assert DataAt(nodes, contents, pos, repr);
      data := Some(tmp.data);
      DropElem(tmp, pos);
      numels := numels - 1;
    }

    method DeleteAt(pos: nat) returns (code: int)
      requires Valid()
      modifies `numels, `mid, `nodes, `contents, `spareelsnum, `repr, spareels, repr
      ensures Valid() && repr == old(repr)
      ensures code == if iterActive || pos >= |old(contents)| then -1 else 0
      ensures contents == if code == 0 then Cut(old(contents), pos, pos + 1) else old(contents)
      ensures spareelsnum == MoreSpares(old(spareelsnum), if code == 0 then 1 else 0)
    {
      if iterActive || pos >= numels {
        return -1;
      }
      var delendo := FindPos(pos);
      DropElem(delendo, pos);
      numels := numels - 1;
      return 0;
    }

    /** Walks mid dx entries along the chain: right if dx is positive, else left. */
    method MoveMid(dx: int, ghost from: nat)
      requires Chained() && from < |nodes| && 0 <= from + dx < |nodes| && mid == nodes[from]
      modifies `mid
      ensures mid == nodes[from + dx]
    {
      var i := 0;
      if dx > 0 {
        while i < dx
          invariant 0 <= i <= dx && mid == nodes[from + i]
        {
          assert LinkAt(nodes, from + i, repr);
          mid, i := mid.next, i + 1;
        }
      } else {
        var left := -dx;
        while i < left
          invariant 0 <= i <= left && mid == nodes[from - i]
        {
          assert LinkAt(nodes, from - i, repr);
          mid, i := mid.prev, i + 1;
        }
      }
    }

    /** No spare is among the entries of the chain from index k on. */
    ghost predicate SparesBefore(k: nat)
      reads `spareelsnum, `nodes, `spareels, spareels
      requires spareelsnum <= spareels.Length
    {
      forall s, j :: 0 <= s < spareelsnum && k <= j < |nodes| ==> spareels[s] != nodes[j]
    }

    /** Keeps the element e at index p as a spare, ahead of its removal with others. */
    method SpareElem(e: Entry<T>, ghost p: nat, ghost ns: seq<Entry<T>>)
      requires Chained() && p < |contents| && e == nodes[p + 1] && e !in ns
      requires SparesApartFrom(ns) && SparesBefore(p + 1)
      modifies `spareelsnum, spareels
      ensures SparesApartFrom(ns) && SparesBefore(p + 2) && spareelsnum == MoreSpares(old(spareelsnum), 1)
    {
      assert LinkAt(nodes, p + 1, repr);
      forall j | p + 2 <= j < |nodes|
        ensures e != nodes[j]
      {
        assert !Same(nodes, p + 1, j);
      }
      StoreSpare(e, ns);
    }

    /** Moves mid for the loss of the elements posstart to posend, before they go. */
    method FixMidBeforeRange(posstart: nat, posend: nat, numdel: nat)
      requires numels == |contents| && Chained() && mid == MidOf(nodes)
      requires posstart <= posend < numels && numdel == posend - posstart + 1 < numels
      modifies `mid
      ensures mid == MidOf(Cut(nodes, posstart + 1, posend + 2))
    {
      var midposafter := (numels - 1 - numdel) / 2;
      midposafter := if midposafter < posstart then midposafter else midposafter + numdel;
      MoveMid(midposafter - (numels - 1) / 2, (numels - 1) / 2 + 1);
    }

    /** The neighbours of the elements posstart to posend, which are offered as spares; mid is moved for their loss. */
    method PassRange(posstart: nat, posend: nat, numdel: nat) returns (lastvalid: Entry<T>, next: Entry<T>)
      requires Valid()
      requires posstart <= posend < numels && numdel == posend - posstart + 1 < numels
      modifies `mid, `spareelsnum, spareels
      ensures Chained() && lastvalid == nodes[posstart] && next == nodes[posend + 2]
      ensures var left := Cut(nodes, posstart + 1, posend + 2); mid == MidOf(left) && SparesApartFrom(left)
      ensures spareelsnum == MoreSpares(old(spareelsnum), numdel)
    {
      var tmp := FindPos(posstart);
      assert LinkAt(nodes, posstart + 1, repr);
      lastvalid := tmp.prev;
      FixMidBeforeRange(posstart, posend, numdel);
      next := SpareRange(tmp, posstart, posend);
    }

    /** Takes the elements posstart to posend out of the chain.  The caller lowers numels. */
    method DropRange(posstart: nat, posend: nat, numdel: nat)
      requires Valid()
      requires posstart <= posend < numels && numdel == posend - posstart + 1 < numels
      modifies `mid, `nodes, `contents, `spareelsnum, spareels, repr`prev, repr`next
      ensures Chained() && mid == MidOf(nodes) && SparesValid()
      ensures contents == Cut(old(contents), posstart, posend + 1)
      ensures spareelsnum == MoreSpares(old(spareelsnum), numdel)
    {
      var lastvalid, next := PassRange(posstart, posend, numdel);
      Unlink(lastvalid, next, posstart, posend + 1);
    }

    method DeleteRange(posstart: nat, posend: nat) returns (code: int)
      requires Valid()
      modifies `numels, `mid, `nodes, `contents, `spareelsnum, `repr, spareels, repr
      ensures Valid() && repr == old(repr)
      ensures code == if iterActive || posend < posstart || posend >= |old(contents)| then -1
                      else posend - posstart + 1
      ensures contents == if code == -1 then old(contents) else Cut(old(contents), posstart, posend + 1)
      ensures spareelsnum == MoreSpares(old(spareelsnum), if code == -1 then 0 else code)
    {
      if iterActive || posend < posstart || posend >= numels {
        return -1;
      }
      var numdel := posend - posstart + 1;
      if numdel == numels {
        code := Clear();
      } else {
        DropRange(posstart, posend, numdel);
        numels := numels - numdel;
        code := numdel;
      }
    }

    /** Runs over the elements posstart to posend, keeping spares; returns the entry after them. */
    method SpareRange(first: Entry<T>, posstart: nat, posend: nat) returns (tmp: Entry<T>)
      requires Chained() && SparesValid() && posstart <= posend < |contents| && first == nodes[posstart + 1]
      modifies `spareelsnum, spareels
      ensures SparesApartFrom(Cut(nodes, posstart + 1, posend + 2)) && tmp == nodes[posend + 2]
      ensures spareelsnum == MoreSpares(old(spareelsnum), posend - posstart + 1)
    {
      ghost var left := Cut(nodes, posstart + 1, posend + 2);
      tmp := first;
      var i := posstart;
      while i <= posend
        invariant posstart <= i <= posend + 1 && tmp == nodes[i + 1]
        invariant SparesApartFrom(left) && SparesBefore(i + 1)
        invariant spareelsnum == MoreSpares(old(spareelsnum), i - posstart)
      {
        var tmp2 := tmp;
        assert LinkAt(nodes, i + 1, repr);
        tmp := tmp.next;
        CutAway(nodes, posstart + 1, posend + 2, i + 1);
        SpareElem(tmp2, i, left);
        i := i + 1;
      }
    }

    method Clear() returns (code: int)
      requires Valid()
      modifies `numels, `mid, `nodes, `contents, `spareelsnum, `repr, spareels, repr
      ensures Valid() && repr == old(repr)
      ensures code == if iterActive then -1 else |old(contents)|
      ensures contents == if code == -1 then old(contents) else []
      ensures spareelsnum == MoreSpares(old(spareelsnum), if code == -1 then 0 else code)
    {
      if iterActive {
        return -1;
      }
      code := numels;
      SpareAll();
      Unlink(headSentinel, tailSentinel, 0, numels);
      numels := 0;
      mid := null;
    }

    /** Keeps elements as spares from the front while there is room, then passes over the rest. */
    method SpareAll()
      requires Chained() && SparesValid()
      modifies `spareelsnum, spareels
      ensures SparesApartFrom(Cut(nodes, 1, |contents| + 1))
      ensures spareelsnum == MoreSpares(old(spareelsnum), |contents|)
    {
      ghost var left := Cut(nodes, 1, |contents| + 1);
      assert LinkAt(nodes, 0, repr);
      var s := headSentinel.next;
      ghost var i := 0;
      while spareelsnum < MAX_SPARE_ELEMS && s != tailSentinel
        invariant 0 <= i <= |contents| && s == nodes[i + 1]
        invariant SparesApartFrom(left) && SparesBefore(i + 1)
        invariant spareelsnum == MoreSpares(old(spareelsnum), i)
        decreases |contents| - i
      {
        SameIndex(nodes, i + 1, |contents| + 1);
        assert LinkAt(nodes, i + 1, repr);
        CutAway(nodes, 1, |contents| + 1, i + 1);
        SpareElem(s, i, left);
        s, i := s.next, i + 1;
      }
      SameIndex(nodes, i + 1, |contents| + 1);
      while s != tailSentinel
        invariant 0 <= i <= |contents| && s == nodes[i + 1]
        decreases |contents| - i
      {
        assert LinkAt(nodes, i + 1, repr);
        s, i := s.next, i + 1;
      }
    }
  }
}
