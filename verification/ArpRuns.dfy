/**
 What a router sees of its ARP cache: which MAC a lookup gives after a reply and for how long, in what
 order packets wait, and at which visits a request goes out or is given up.
 */
module ArpRuns {
  import opened Common
  import opened ArpLedger
  import opened Runs

  // ---------- the table ----------

  /** The last valid entry for an address. */
  function LastFor(es: seq<Entry>, ip: nat): Option<Entry>
    decreases |es|
  {
    if es == [] then None
    else if es[|es| - 1].valid && es[|es| - 1].ip == ip then Some(es[|es| - 1])
    else LastFor(es[..|es| - 1], ip)
  }

  /** There is a valid entry for the address, and all of them have this MAC. */
  ghost predicate Maps(es: seq<Entry>, ip: nat, mac: seq<byte>) {
    && (exists i :: 0 <= i < |es| && es[i].valid && es[i].ip == ip)
    && (forall i :: 0 <= i < |es| && es[i].valid && es[i].ip == ip ==> es[i].mac == mac)
  }

  lemma {:induction false} LastForIs(es: seq<Entry>, ip: nat)
    ensures LastFor(es, ip) == None <==> forall i :: 0 <= i < |es| ==> !(es[i].valid && es[i].ip == ip)
    ensures LastFor(es, ip).Some? ==>
              exists i :: 0 <= i < |es| && es[i].valid && es[i].ip == ip && LastFor(es, ip) == Some(es[i])
    decreases |es|
  {
    if es != [] {
      var es' := es[..|es| - 1];
      LastForIs(es', ip);
      assert forall i :: 0 <= i < |es'| ==> es'[i] == es[i];
    }
  }

  lemma MapsIsFound(es: seq<Entry>, ip: nat, mac: seq<byte>)
    requires Maps(es, ip, mac)
    ensures LastFor(es, ip).Some? && LastFor(es, ip).value.mac == mac
  {
    LastForIs(es, ip);
  }

  /**
   An address that had no valid entry has the reply's MAC afterwards if a slot was free, for fifteen
   seconds and no longer; no other address is affected.
   */
  lemma StoredFor15Seconds(es: seq<Entry>, mac: seq<byte>, ip: nat, now: int, later: int)
    requires (exists i :: 0 <= i < |es| && !es[i].valid) && LastFor(es, ip) == None
    ensures Maps(InsertEntry(es, mac, ip, now), ip, mac)
    ensures Maps(Expire(InsertEntry(es, mac, ip, now), later), ip, mac) <==> later - now <= 15
    ensures later - now > 15 ==> LastFor(Expire(InsertEntry(es, mac, ip, now), later), ip) == None
  {
    LastForIs(es, ip);
    LastForIs(Expire(InsertEntry(es, mac, ip, now), later), ip);
    var i, es' := FreeSlot(es), InsertEntry(es, mac, ip, now);
    assert es'[i] == Entry(mac, ip, now, true);
    assert Expire(es', later)[i].ip == ip;
  }

  lemma OthersStay(es: seq<Entry>, mac: seq<byte>, ip: nat, now: int, ip': nat, mac': seq<byte>)
    requires ip' != ip
    ensures Maps(InsertEntry(es, mac, ip, now), ip', mac') <==> Maps(es, ip', mac')
  {
    var i, es' := FreeSlot(es), InsertEntry(es, mac, ip, now);
    if j :| 0 <= j < |es| && es[j].valid && es[j].ip == ip' {
      assert es'[j] == es[j];
    }
    if j :| 0 <= j < |es'| && es'[j].valid && es'[j].ip == ip' {
      assert es'[j] == es[j];
    }
    assert forall j :: 0 <= j < |es| && j != i ==> es'[j] == es[j];
  }

  lemma {:induction false} LastForAppend(a: seq<Entry>, b: seq<Entry>, ip: nat)
    ensures LastFor(a + b, ip) == if LastFor(b, ip).Some? then LastFor(b, ip) else LastFor(a, ip)
    decreases |b|
  {
    if b == [] {
      assert a + b == a;
    } else {
      assert (a + b)[..|a + b| - 1] == a + b[..|b| - 1];
      LastForAppend(a, b[..|b| - 1], ip);
    }
  }

  /**
   An old entry for the address is not replaced.  After a reply a lookup gives the reply's MAC if and
   only if no valid entry for the address lies behind the first free slot, or the last such has it too.
   */
  lemma LookupAfterReplyIff(es: seq<Entry>, mac: seq<byte>, ip: nat, now: int)
    requires FreeSlot(es) < |es|
    ensures var old', new' := LastFor(es[FreeSlot(es) + 1..], ip), LastFor(InsertEntry(es, mac, ip, now), ip);
      new'.Some? && (new'.value.mac == mac <==> old' == None || old'.value.mac == mac)
  {
    var i, e := FreeSlot(es), Entry(mac, ip, now, true);
    var front, back := es[..i] + [e], es[i + 1..];
    PutBetween(es, i, e);
    LastForAppend(front, back, ip);
    assert LastFor(front, ip) == Some(e);
  }

  lemma PutBetween(es: seq<Entry>, i: nat, e: Entry)
    requires i < |es|
    ensures es[i := e] == (es[..i] + [e]) + es[i + 1..]
  {
  }

  lemma LastOfTwo(es: seq<Entry>, ip: nat)
    requires |es| >= 2 && es[1].valid && es[1].ip == ip && forall j :: 2 <= j < |es| ==> !es[j].valid
    ensures LastFor(es, ip) == Some(es[1])
  {
    assert es == es[..2] + es[2..];
    LastForAppend(es[..2], es[2..], ip);
    LastForIs(es[2..], ip);
  }

  lemma FreeSlotIs(es: seq<Entry>, i: nat)
    requires i < |es| && !es[i].valid && forall j :: 0 <= j < i ==> es[j].valid
    ensures FreeSlot(es) == i
  {
  }

  /**
   A table in which one address is entered, then another; the first entry expires, and the second address
   is entered anew: the new entry takes the free slot in front, and lookups go on giving the old one.
   */
  lemma OldEntryStays(es: seq<Entry>, first: nat, ip: nat, mac: seq<byte>, newer: seq<byte>)
    requires |es| >= 2 && first != ip && forall j :: 0 <= j < |es| ==> !es[j].valid
    ensures var two := InsertEntry(InsertEntry(es, [], first, 0), mac, ip, 10);
      LastFor(InsertEntry(Expire(two, 16), newer, ip, 16), ip) == Some(Entry(mac, ip, 10, true))
  {
    FreeSlotIs(es, 0);
    var one := es[0 := Entry([], first, 0, true)];
    FreeSlotIs(one, 1);
    var two := one[1 := Entry(mac, ip, 10, true)];
    FreeSlotIs(Expire(two, 16), 0);
    LastOfTwo(InsertEntry(Expire(two, 16), newer, ip, 16), ip);
  }

  // ---------- the order in which packets wait ----------

  /** The packets queued for an address since a request for it was made, the newest first. */
  ghost function Line(tr: seq<State>, es: seq<Event>, ip: nat, k: nat): seq<Packet>
    requires k < |tr| == |es| + 1
  {
    if k == 0 || Find(tr[k].requests, ip) == |tr[k].requests| then []
    else if es[k - 1].Queue? && es[k - 1].ip == ip then [es[k - 1].packet] + Line(tr, es, ip, k - 1)
    else Line(tr, es, ip, k - 1)
  }

  /** The packets of the request for an address, none if there is no request. */
  function PacketsFor(rs: seq<Request>, ip: nat): seq<Packet> {
    var i := Find(rs, ip);
    if i < |rs| then rs[i].packets else []
  }

  lemma {:induction false} FindIs(rs: seq<Request>, ip: nat, i: nat)
    requires i < |rs| && rs[i].ip == ip && forall j :: 0 <= j < |rs| && j != i ==> rs[j].ip != ip
    ensures Find(rs, ip) == i && PacketsFor(rs, ip) == rs[i].packets
  {
  }

  lemma AfterDrop(rs: seq<Request>, i: nat, ip: nat, nextId: nat)
    requires Separate(rs, nextId) && i < |rs|
    ensures PacketsFor(Drop(rs, i), ip) == if rs[i].ip == ip then [] else PacketsFor(rs, ip)
  {
    var rs', j := Drop(rs, i), Find(rs, ip);
    assert forall k :: 0 <= k < |rs'| ==> rs'[k] == rs[if k < i then k else k + 1];
    if j < |rs| && j != i {
      FindIs(rs', ip, if j < i then j else j - 1);
    }
  }

  lemma AfterUpdate(rs: seq<Request>, i: nat, r: Request, ip: nat, nextId: nat)
    requires Separate(rs, nextId) && i < |rs| && r.ip == rs[i].ip
    ensures PacketsFor(rs[i := r], ip) == if r.ip == ip then r.packets else PacketsFor(rs, ip)
  {
    var rs', j := rs[i := r], Find(rs, ip);
    assert forall k :: 0 <= k < |rs'| ==> rs'[k].ip == rs[k].ip;
    if j < |rs| {
      FindIs(rs', ip, j);
    }
  }

  lemma AfterQueue(rs: seq<Request>, id: nat, ip': nat, p: Packet, ip: nat, nextId: nat)
    requires Separate(rs, nextId)
    ensures PacketsFor(Enqueue(rs, id, ip', p), ip) ==
            if ip == ip' then [p] + PacketsFor(rs, ip) else PacketsFor(rs, ip)
  {
    var i := Find(rs, ip');
    if i < |rs| {
      AfterUpdate(rs, i, rs[i].(packets := [p] + rs[i].packets), ip, nextId);
    } else {
      assert ([Request(id, ip', 0, 0, [p])] + rs)[1..] == rs;
      assert [p] + [] == [p];
    }
  }

  lemma VisitLine(s: State, id: nat, now: int, later: int, ip: nat)
    requires Unique(s) && Enabled(s, VisitReq(id, now, later))
    ensures var after := PacketsFor(Next(s, VisitReq(id, now, later)).requests, ip);
      after == PacketsFor(s.requests, ip) || after == []
  {
    var i := FindId(s.requests, id);
    match HandleReq(s.requests[i], now, later)
    case Early =>
    case GivenUp => AfterDrop(s.requests, i, ip, s.nextId);
    case Asked(r) => AfterUpdate(s.requests, i, r, ip, s.nextId);
  }

  /** A step puts a packet at the front of the line for its address, leaves a line alone, or takes all of it. */
  lemma LineStep(s: State, e: Event, ip: nat)
    requires Unique(s) && Enabled(s, e)
    ensures var now, after := PacketsFor(s.requests, ip), PacketsFor(Next(s, e).requests, ip);
      if e.Queue? && e.ip == ip then after == [e.packet] + now else after == now || after == []
  {
    match e
    case Queue(ip', p) => AfterQueue(s.requests, s.nextId, ip', p, ip, s.nextId);
    case VisitReq(id, now, later) => VisitLine(s, id, now, later, ip);
    case Reply(mac, ip', now) => AfterDrop(s.requests, Find(s.requests, ip'), ip, s.nextId);
    case Timeout(now) =>
  }

  /** What a step does to the line for an address. */
  ghost predicate LineMoves(s: State, e: Event, s': State, ip: nat) {
    var now, after := PacketsFor(s.requests, ip), PacketsFor(s'.requests, ip);
    && (if e.Queue? && e.ip == ip then after == [e.packet] + now else after == now || after == [])
    && (after == [] <==> Find(s'.requests, ip) == |s'.requests|)
  }

  ghost predicate AllLineMoves(tr: seq<State>, es: seq<Event>, ip: nat) {
    && |tr| == |es| + 1 && PacketsFor(tr[0].requests, ip) == []
    && forall k :: 0 <= k < |es| ==> LineMoves(tr[k], es[k], tr[k + 1], ip)
  }

  lemma RunLineMoves(tr: seq<State>, es: seq<Event>, ip: nat)
    requires IsRun(tr, es, Moves) && Initial(tr[0])
    ensures AllLineMoves(tr, es, ip)
  {
    forall k | 0 <= k < |es| ensures LineMoves(tr[k], es[k], tr[k + 1], ip) {
      LedgerBalances(tr, es, k);
      LedgerBalances(tr, es, k + 1);
      assert Moves(tr[k], es[k], tr[k + 1]);
      LineStep(tr[k], es[k], ip);
    }
  }

  lemma {:induction false} LineIs(tr: seq<State>, es: seq<Event>, ip: nat, k: nat)
    requires AllLineMoves(tr, es, ip) && k < |tr|
    ensures PacketsFor(tr[k].requests, ip) == Line(tr, es, ip, k)
  {
    if k > 0 {
      LineIs(tr, es, ip, k - 1);
      assert LineMoves(tr[k - 1], es[k - 1], tr[k - 1 + 1], ip);
    }
  }

  /** On every run the packets of a request are those queued for its address since it was made, newest first. */
  lemma PacketsWaitInLine(tr: seq<State>, es: seq<Event>, ip: nat, k: nat)
    requires IsRun(tr, es, Moves) && Initial(tr[0]) && k < |tr|
    ensures PacketsFor(tr[k].requests, ip) == Line(tr, es, ip, k)
  {
    RunLineMoves(tr, es, ip);
    LineIs(tr, es, ip, k);
  }

  // ---------- when a request goes out ----------

  /** When request id was last sent, 0 if it never was. */
  function LastSent(asks: seq<Ask>, id: nat): int {
    if asks == [] then 0
    else if asks[|asks| - 1].id == id then asks[|asks| - 1].until
    else LastSent(asks[..|asks| - 1], id)
  }

  ghost predicate Dated(s: State) {
    forall k :: 0 <= k < |s.requests| ==> s.requests[k].sent == LastSent(s.asks, s.requests[k].id)
  }

  lemma {:induction false} NeverSent(asks: seq<Ask>, id: nat)
    requires forall i :: 0 <= i < |asks| ==> asks[i].id != id
    ensures LastSent(asks, id) == 0
  {
    if asks != [] {
      NeverSent(asks[..|asks| - 1], id);
    }
  }

  lemma DropDates(s: State, i: nat)
    requires Dated(s) && i < |s.requests|
    ensures Dated(s.(requests := Drop(s.requests, i)))
  {
    assert forall k :: 0 <= k < |s.requests| - 1 ==> Drop(s.requests, i)[k] == s.requests[if k < i then k else k + 1];
  }

  lemma AskDates(s: State, i: nat, now: int, later: int, r: Request)
    requires Dated(s) && Unique(s) && i < |s.requests| && r.id == s.requests[i].id && r.sent == later
    ensures Dated(s.(requests := s.requests[i := r], asks := s.asks + [Ask(r.id, now, later)]))
  {
    assert (s.asks + [Ask(r.id, now, later)])[..|s.asks|] == s.asks;
  }

  lemma QueueDates(s: State, ip: nat, p: Packet)
    requires Dated(s) && Paced(s)
    ensures Dated(Next(s, Queue(ip, p)))
  {
    NeverSent(s.asks, s.nextId);
    var rs := Enqueue(s.requests, s.nextId, ip, p);
    assert Find(s.requests, ip) == |s.requests| ==> forall k :: 0 < k < |rs| ==> rs[k] == s.requests[k - 1];
  }

  lemma VisitDates(s: State, id: nat, now: int, later: int)
    requires Dated(s) && Unique(s) && Enabled(s, VisitReq(id, now, later))
    ensures Dated(Next(s, VisitReq(id, now, later)))
  {
    var i := FindId(s.requests, id);
    match HandleReq(s.requests[i], now, later)
    case Early =>
    case GivenUp => DropDates(s, i);
    case Asked(r) => AskDates(s, i, now, later, r);
  }

  lemma StepDates(s: State, e: Event)
    requires Inv(s) && Dated(s) && Enabled(s, e)
    ensures Dated(Next(s, e))
  {
    match e
    case Queue(ip, p) => QueueDates(s, ip, p);
    case VisitReq(id, now, later) => VisitDates(s, id, now, later);
    case Reply(mac, ip, now) => DropDates(s, Find(s.requests, ip));
    case Timeout(now) =>
  }

  ghost predicate InvDated(s: State) {
    Inv(s) && Dated(s)
  }

  lemma RunDated(tr: seq<State>, es: seq<Event>, k: nat)
    requires IsRun(tr, es, Moves) && Initial(tr[0]) && k < |tr|
    ensures Unique(tr[k]) && Paced(tr[k]) && Dated(tr[k])
  {
    assert forall id :: Asks([], id) == 0;
    forall s, e, s' | InvDated(s) && Moves(s, e, s') ensures InvDated(s') {
      StepKeeps(s, e);
      StepDates(s, e);
    }
    InvariantHolds(tr, es, Moves, InvDated, k);
  }

  lemma GoneIffGivenUp(s: State, id: nat, now: int, later: int)
    requires Unique(s) && Enabled(s, VisitReq(id, now, later))
    ensures var i, rs := FindId(s.requests, id), Next(s, VisitReq(id, now, later)).requests;
      FindId(rs, id) == |rs| <==> HandleReq(s.requests[i], now, later).GivenUp?
  {
    var i := FindId(s.requests, id);
    match HandleReq(s.requests[i], now, later)
    case Early =>
    case GivenUp => DropSeparate(s.requests, i, s.nextId);
    case Asked(r) => assert s.requests[i := r][i].id == id;
  }

  /** By the ledger alone, what a visit does. */
  ghost predicate VisitIs(s: State, id: nat, now: int, later: int, s': State) {
    var due, n := now - LastSent(s.asks, id) > 1, Asks(s.asks, id);
    && s'.asks == (if due && n < 5 then s.asks + [Ask(id, now, later)] else s.asks)
    && (FindId(s'.requests, id) == |s'.requests| <==> due && n == 5)
    && (|s'.bounced| == |s.bounced| + 1 <==> due && n == 5)
  }

  lemma VisitStep(s: State, id: nat, now: int, later: int)
    requires Unique(s) && Paced(s) && Dated(s) && Enabled(s, VisitReq(id, now, later))
    ensures VisitIs(s, id, now, later, Next(s, VisitReq(id, now, later)))
  {
    GoneIffGivenUp(s, id, now, later);
  }

  /**
   On every run a visit more than a second after the request was last sent sends it if it has been sent
   less than five times and gives it up if five times; an earlier visit does neither.
   */
  lemma VisitsExactly(tr: seq<State>, es: seq<Event>, k: nat)
    requires IsRun(tr, es, Moves) && Initial(tr[0]) && k < |es| && es[k].VisitReq?
    ensures VisitIs(tr[k], es[k].id, es[k].now, es[k].later, tr[k + 1])
  {
    RunDated(tr, es, k);
    assert Moves(tr[k], es[k], tr[k + 1]);
    VisitStep(tr[k], es[k].id, es[k].now, es[k].later);
  }
}
