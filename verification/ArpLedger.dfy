/**
 The router's ARP cache and request queue as a state machine, with a ledger of what was sent, queued,
 released and given up.  A request's id stands for its address: no two allocations share one.
 */
module ArpLedger {
  import opened Common
  import opened Runs

  const SR_ARPCACHE_SZ := 100
  const SR_ARPCACHE_TO := 15

  datatype Packet = Packet(frame: seq<byte>, iface: string)
  datatype Entry = Entry(mac: seq<byte>, ip: nat, added: int, valid: bool)
  datatype Request = Request(id: nat, ip: nat, sent: int, times: nat, packets: seq<Packet>)

  // ---------- the request queue ----------

  function IpOf(r: Request): nat { r.ip }
  function IdOf(r: Request): nat { r.id }
  function ValidOf(e: Entry): bool { e.valid }

  function Find(rs: seq<Request>, ip: nat): (i: nat)
    ensures i <= |rs| && (i < |rs| ==> rs[i].ip == ip)
    ensures forall j :: 0 <= j < i ==> rs[j].ip != ip
  {
    var i := First(rs, IpOf, ip);
    assert forall j :: 0 <= j < i ==> IpOf(rs[j]) != ip;
    i
  }

  function FindId(rs: seq<Request>, id: nat): (i: nat)
    ensures i <= |rs| && (i < |rs| ==> rs[i].id == id)
    ensures forall j :: 0 <= j < i ==> rs[j].id != id
  {
    var i := First(rs, IdOf, id);
    assert forall j :: 0 <= j < i ==> IdOf(rs[j]) != id;
    i
  }

  function Drop(rs: seq<Request>, i: nat): seq<Request>
    requires i < |rs|
  {
    rs[..i] + rs[i + 1..]
  }

  /** sr_arpcache_queuereq: the packet joins the request for its address, a new one if there is none. */
  function Enqueue(rs: seq<Request>, id: nat, ip: nat, p: Packet): seq<Request> {
    var i := Find(rs, ip);
    if i < |rs| then rs[i := rs[i].(packets := [p] + rs[i].packets)]
    else [Request(id, ip, 0, 0, [p])] + rs
  }

  datatype Visit = Early | Asked(req: Request) | GivenUp

  /** handle_arpreq, with the clock read at its start and once more after sending. */
  function HandleReq(r: Request, now: int, later: int): Visit {
    if now - r.sent <= 1 then Early
    else if r.times >= 5 then GivenUp
    else Asked(r.(sent := later, times := r.times + 1))
  }

  // ---------- the cache ----------

  function FreeSlot(es: seq<Entry>): (i: nat)
    ensures i <= |es| && (i < |es| ==> !es[i].valid) && forall j :: 0 <= j < i ==> es[j].valid
  {
    var i := First(es, ValidOf, false);
    assert forall j :: 0 <= j < i ==> ValidOf(es[j]) != false;
    i
  }

  function InsertEntry(es: seq<Entry>, mac: seq<byte>, ip: nat, now: int): seq<Entry> {
    var i := FreeSlot(es);
    if i < |es| then es[i := Entry(mac, ip, now, true)] else es
  }

  function Expire(es: seq<Entry>, now: int): seq<Entry> {
    seq(|es|, i requires 0 <= i < |es| =>
      if es[i].valid && now - es[i].added > SR_ARPCACHE_TO then es[i].(valid := false) else es[i])
  }

  // ---------- the state machine ----------

  /** An ARP request went out for request id, at some moment from `from` to `until`. */
  datatype Ask = Ask(id: nat, from: int, until: int)

  datatype Held = Held(ip: nat, packet: Packet)

  datatype State = State(
    entries: seq<Entry>, requests: seq<Request>, clock: int, nextId: nat,
    asks: seq<Ask>, queued: multiset<Held>, released: seq<Request>, bounced: seq<Request>)

  datatype Event =
    | Queue(ip: nat, packet: Packet)
    | VisitReq(id: nat, now: int, later: int)
    | Reply(mac: seq<byte>, ip: nat, now: int)
    | Timeout(now: int)

  predicate Enabled(s: State, e: Event) {
    match e
    case Queue(_, _) => true
    case VisitReq(id, now, later) => s.clock <= now <= later && FindId(s.requests, id) < |s.requests|
    case Reply(_, ip, now) => s.clock <= now && Find(s.requests, ip) < |s.requests|
    case Timeout(now) => s.clock <= now
  }

  function Next(s: State, e: Event): State
    requires Enabled(s, e)
  {
    match e
    case Queue(ip, p) =>
      s.(requests := Enqueue(s.requests, s.nextId, ip, p), nextId := s.nextId + 1,
         queued := s.queued + multiset{Held(ip, p)})
    case VisitReq(id, now, later) =>
      var i := FindId(s.requests, id);
      (match HandleReq(s.requests[i], now, later)
       case Early => s.(clock := later)
       case GivenUp => s.(requests := Drop(s.requests, i), bounced := s.bounced + [s.requests[i]], clock := later)
       case Asked(r) => s.(requests := s.requests[i := r], asks := s.asks + [Ask(id, now, later)], clock := later))
    case Reply(mac, ip, now) =>
      var i := Find(s.requests, ip);
      s.(entries := InsertEntry(s.entries, mac, ip, now), requests := Drop(s.requests, i),
         released := s.released + [s.requests[i]], clock := now)
    case Timeout(now) => s.(entries := Expire(s.entries, now), clock := now)
  }

  // ---------- what the ledger says ----------

  /** The packets that wait on some requests. */
  ghost function Waiting(rs: seq<Request>): multiset<Held> {
    if rs == [] then multiset{} else HeldBy(rs[0].ip, rs[0].packets) + Waiting(rs[1..])
  }

  ghost function HeldBy(ip: nat, ps: seq<Packet>): multiset<Held> {
    if ps == [] then multiset{} else multiset{Held(ip, ps[0])} + HeldBy(ip, ps[1..])
  }

  /** How many times request id has been sent. */
  function Asks(asks: seq<Ask>, id: nat): nat {
    if asks == [] then 0 else Asks(asks[..|asks| - 1], id) + if asks[|asks| - 1].id == id then 1 else 0
  }

  ghost predicate Has(rs: seq<Request>, id: nat) {
    exists i :: 0 <= i < |rs| && rs[i].id == id
  }

  /** At most one request for an address, and none without a packet. */
  ghost predicate Separate(rs: seq<Request>, nextId: nat) {
    && (forall i, j :: 0 <= i < j < |rs| ==> rs[i].ip != rs[j].ip && rs[i].id != rs[j].id)
    && (forall i :: 0 <= i < |rs| ==> rs[i].packets != [] && rs[i].id < nextId)
  }

  ghost predicate Gone(rs: seq<Request>, gone: seq<Request>, nextId: nat) {
    forall i :: 0 <= i < |gone| ==> gone[i].id < nextId && !Has(rs, gone[i].id)
  }

  /** A request is in the queue, or was released, or was given up, and never two of these. */
  ghost predicate Unique(s: State) {
    && Separate(s.requests, s.nextId)
    && Gone(s.requests, s.released, s.nextId) && Gone(s.requests, s.bounced, s.nextId)
    && (forall i, j :: 0 <= i < |s.released| && 0 <= j < |s.bounced| ==> s.released[i].id != s.bounced[j].id)
  }

  /** Every packet ever queued waits, or was released, or was given up: exactly one of them. */
  ghost predicate Conserved(s: State) {
    s.queued == Waiting(s.requests) + Waiting(s.released) + Waiting(s.bounced)
  }

  /** No request is sent more than five times, and it is given up only after five. */
  ghost predicate Counted(s: State) {
    && (forall i :: 0 <= i < |s.asks| ==> s.asks[i].id < s.nextId)
    && (forall id :: Asks(s.asks, id) <= 5)
    && (forall k :: 0 <= k < |s.requests| ==> s.requests[k].times == Asks(s.asks, s.requests[k].id))
    && (forall k :: 0 <= k < |s.bounced| ==> Asks(s.asks, s.bounced[k].id) == 5)
  }

  /** Sends of one request are more than a second apart; the time kept with it is not before the last. */
  ghost predicate Spaced(s: State) {
    && (forall i :: 0 <= i < |s.asks| ==> s.asks[i].id < s.nextId && s.asks[i].from <= s.asks[i].until)
    && (forall i, j :: 0 <= i < j < |s.asks| && s.asks[i].id == s.asks[j].id ==> s.asks[j].from - s.asks[i].until > 1)
    && (forall i, k :: 0 <= i < |s.asks| && 0 <= k < |s.requests| && s.asks[i].id == s.requests[k].id ==>
          s.asks[i].until <= s.requests[k].sent)
  }

  ghost predicate Paced(s: State) {
    Counted(s) && Spaced(s)
  }

  // ---------- proofs ----------

  lemma {:induction false} WaitingDrop(rs: seq<Request>, i: nat)
    requires i < |rs|
    ensures Waiting(rs) == Waiting(Drop(rs, i)) + HeldBy(rs[i].ip, rs[i].packets)
  {
    if i == 0 {
      assert Drop(rs, i) == rs[1..];
    } else {
      WaitingDrop(rs[1..], i - 1);
      assert Drop(rs, i)[0] == rs[0] && Drop(rs, i)[1..] == Drop(rs[1..], i - 1);
    }
  }

  lemma WaitingUpdate(rs: seq<Request>, i: nat, r: Request)
    requires i < |rs|
    ensures Waiting(rs[i := r]) == Waiting(Drop(rs, i)) + HeldBy(r.ip, r.packets)
  {
    WaitingDrop(rs[i := r], i);
    assert Drop(rs[i := r], i) == Drop(rs, i);
  }

  lemma {:induction false} WaitingAppend(rs: seq<Request>, r: Request)
    ensures Waiting(rs + [r]) == Waiting(rs) + HeldBy(r.ip, r.packets)
  {
    if rs == [] {
      assert rs + [r] == [r];
    } else {
      WaitingAppend(rs[1..], r);
      assert (rs + [r])[1..] == rs[1..] + [r];
    }
  }

  lemma EnqueueHolds(rs: seq<Request>, id: nat, ip: nat, p: Packet)
    ensures Waiting(Enqueue(rs, id, ip, p)) == Waiting(rs) + multiset{Held(ip, p)}
  {
    var i := Find(rs, ip);
    if i < |rs| {
      var r := rs[i].(packets := [p] + rs[i].packets);
      WaitingDrop(rs, i);
      WaitingUpdate(rs, i, r);
      assert r.packets[1..] == rs[i].packets;
    } else {
      assert ([Request(id, ip, 0, 0, [p])] + rs)[1..] == rs;
      assert [p][1..] == [] && HeldBy(ip, [p]) == multiset{Held(ip, p)};
    }
  }

  lemma VisitConserves(s: State, id: nat, now: int, later: int)
    requires Enabled(s, VisitReq(id, now, later)) && Conserved(s)
    ensures Conserved(Next(s, VisitReq(id, now, later)))
  {
    var i := FindId(s.requests, id);
    WaitingDrop(s.requests, i);
    match HandleReq(s.requests[i], now, later)
    case Early =>
    case GivenUp => WaitingAppend(s.bounced, s.requests[i]);
    case Asked(r) => WaitingUpdate(s.requests, i, r);
  }

  lemma ReplyConserves(s: State, mac: seq<byte>, ip: nat, now: int)
    requires Enabled(s, Reply(mac, ip, now)) && Conserved(s)
    ensures Conserved(Next(s, Reply(mac, ip, now)))
  {
    var i := Find(s.requests, ip);
    WaitingDrop(s.requests, i);
    WaitingAppend(s.released, s.requests[i]);
  }

  lemma AskCount(asks: seq<Ask>, a: Ask, id: nat)
    ensures Asks(asks + [a], id) == Asks(asks, id) + if a.id == id then 1 else 0
  {
    assert (asks + [a])[..|asks|] == asks;
  }

  lemma {:induction false} NeverAsked(asks: seq<Ask>, id: nat)
    requires forall i :: 0 <= i < |asks| ==> asks[i].id != id
    ensures Asks(asks, id) == 0
  {
    if asks != [] {
      NeverAsked(asks[..|asks| - 1], id);
    }
  }

  lemma DropSeparate(rs: seq<Request>, i: nat, nextId: nat)
    requires i < |rs| && Separate(rs, nextId)
    ensures Separate(Drop(rs, i), nextId)
    ensures forall id :: Has(Drop(rs, i), id) ==> Has(rs, id) && id != rs[i].id
    ensures Has(rs, rs[i].id)
  {
    assert forall k :: 0 <= k < |rs| - 1 ==> Drop(rs, i)[k] == rs[if k < i then k else k + 1];
  }

  lemma UpdateSeparate(rs: seq<Request>, i: nat, r: Request, nextId: nat)
    requires i < |rs| && Separate(rs, nextId)
    requires r.id == rs[i].id && r.ip == rs[i].ip && r.packets != []
    ensures Separate(rs[i := r], nextId)
    ensures forall id :: Has(rs[i := r], id) ==> Has(rs, id)
  {
  }

  lemma NewSeparate(rs: seq<Request>, r: Request)
    requires Separate(rs, r.id) && Find(rs, r.ip) == |rs| && r.packets != []
    ensures Separate([r] + rs, r.id + 1)
    ensures forall id :: Has([r] + rs, id) ==> id == r.id || Has(rs, id)
  {
    assert forall k :: 0 < k <= |rs| ==> ([r] + rs)[k] == rs[k - 1];
  }

  lemma QueueUnique(s: State, ip: nat, p: Packet)
    requires Unique(s)
    ensures Unique(Next(s, Queue(ip, p)))
  {
    var i := Find(s.requests, ip);
    if i < |s.requests| {
      UpdateSeparate(s.requests, i, s.requests[i].(packets := [p] + s.requests[i].packets), s.nextId);
    } else {
      NewSeparate(s.requests, Request(s.nextId, ip, 0, 0, [p]));
    }
  }

  lemma VisitUnique(s: State, id: nat, now: int, later: int)
    requires Enabled(s, VisitReq(id, now, later)) && Unique(s)
    ensures Unique(Next(s, VisitReq(id, now, later)))
  {
    var i := FindId(s.requests, id);
    match HandleReq(s.requests[i], now, later)
    case Early =>
    case GivenUp => DropSeparate(s.requests, i, s.nextId);
    case Asked(r) => UpdateSeparate(s.requests, i, r, s.nextId);
  }

  lemma ReplyUnique(s: State, mac: seq<byte>, ip: nat, now: int)
    requires Enabled(s, Reply(mac, ip, now)) && Unique(s)
    ensures Unique(Next(s, Reply(mac, ip, now)))
  {
    DropSeparate(s.requests, Find(s.requests, ip), s.nextId);
  }

  // ---------- pacing ----------

  lemma QueuePaced(s: State, ip: nat, p: Packet)
    requires Paced(s)
    ensures Paced(Next(s, Queue(ip, p)))
  {
    var rs, rs' := s.requests, Enqueue(s.requests, s.nextId, ip, p);
    if Find(rs, ip) == |rs| {
      NeverAsked(s.asks, s.nextId);
      assert forall k :: 0 < k < |rs'| ==> rs'[k] == rs[k - 1];
    }
  }

  lemma DropPaced(s: State, i: nat, s': State)
    requires i < |s.requests| && Paced(s) && s'.asks == s.asks && s'.nextId == s.nextId
    requires s'.requests == Drop(s.requests, i)
    requires s'.bounced == s.bounced || (s.requests[i].times >= 5 && s'.bounced == s.bounced + [s.requests[i]])
    ensures Paced(s')
  {
    assert forall k :: 0 <= k < |s.requests| - 1 ==> Drop(s.requests, i)[k] == s.requests[if k < i then k else k + 1];
  }

  lemma AskedCounted(s: State, i: nat, a: Ask, r: Request, s': State)
    requires i < |s.requests| && Unique(s) && Counted(s)
    requires a.id == r.id == s.requests[i].id && r.times == s.requests[i].times + 1 <= 5
    requires s' == s.(requests := s.requests[i := r], asks := s.asks + [a], clock := s'.clock)
    ensures Counted(s')
  {
    forall id ensures Asks(s'.asks, id) == Asks(s.asks, id) + if id == a.id then 1 else 0 {
      AskCount(s.asks, a, id);
    }
    forall k | 0 <= k < |s.bounced| ensures s.bounced[k].id != a.id {
      assert !Has(s.requests, s.bounced[k].id);
    }
  }

  lemma AskedSpaced(s: State, i: nat, a: Ask, r: Request, s': State)
    requires i < |s.requests| && Unique(s) && Spaced(s)
    requires a.id == r.id == s.requests[i].id && a.from - s.requests[i].sent > 1 && a.from <= a.until == r.sent
    requires s' == s.(requests := s.requests[i := r], asks := s.asks + [a], clock := s'.clock)
    ensures Spaced(s')
  {
  }

  lemma VisitPaced(s: State, id: nat, now: int, later: int)
    requires Enabled(s, VisitReq(id, now, later)) && Unique(s) && Paced(s)
    ensures Paced(Next(s, VisitReq(id, now, later)))
  {
    var i, s' := FindId(s.requests, id), Next(s, VisitReq(id, now, later));
    match HandleReq(s.requests[i], now, later)
    case Early =>
    case GivenUp => DropPaced(s, i, s');
    case Asked(r) =>
      AskedCounted(s, i, Ask(id, now, later), r, s');
      AskedSpaced(s, i, Ask(id, now, later), r, s');
  }

  lemma ReplyPaced(s: State, mac: seq<byte>, ip: nat, now: int)
    requires Enabled(s, Reply(mac, ip, now)) && Paced(s)
    ensures Paced(Next(s, Reply(mac, ip, now)))
  {
    DropPaced(s, Find(s.requests, ip), Next(s, Reply(mac, ip, now)));
  }

  // ---------- whole runs ----------

  ghost predicate Inv(s: State) {
    Unique(s) && Conserved(s) && Paced(s)
  }

  ghost predicate Moves(s: State, e: Event, s': State) {
    Enabled(s, e) && s' == Next(s, e)
  }

  lemma QueueKeeps(s: State, ip: nat, p: Packet)
    requires Inv(s)
    ensures Inv(Next(s, Queue(ip, p)))
  {
    EnqueueHolds(s.requests, s.nextId, ip, p);
    QueueUnique(s, ip, p);
    QueuePaced(s, ip, p);
  }

  lemma VisitKeeps(s: State, id: nat, now: int, later: int)
    requires Inv(s) && Enabled(s, VisitReq(id, now, later))
    ensures Inv(Next(s, VisitReq(id, now, later)))
  {
    VisitConserves(s, id, now, later);
    VisitUnique(s, id, now, later);
    VisitPaced(s, id, now, later);
  }

  lemma ReplyKeeps(s: State, mac: seq<byte>, ip: nat, now: int)
    requires Inv(s) && Enabled(s, Reply(mac, ip, now))
    ensures Inv(Next(s, Reply(mac, ip, now)))
  {
    ReplyConserves(s, mac, ip, now);
    ReplyUnique(s, mac, ip, now);
    ReplyPaced(s, mac, ip, now);
  }

  lemma StepKeeps(s: State, e: Event)
    requires Inv(s) && Enabled(s, e)
    ensures Inv(Next(s, e))
  {
    match e
    case Queue(ip, p) => QueueKeeps(s, ip, p);
    case VisitReq(id, now, later) => VisitKeeps(s, id, now, later);
    case Reply(mac, ip, now) => ReplyKeeps(s, mac, ip, now);
    case Timeout(now) =>
  }

  ghost predicate Initial(s: State) {
    && s.requests == [] && s.asks == [] && s.queued == multiset{} && s.released == [] && s.bounced == []
  }

  /**
   The ledger balances along every run: each packet queued for an address is on the one request for
   it, or went out with that whole request on a reply, or was given up with that whole request,
   which by then had been sent five times, each time more than a second after the one before.
   */
  lemma LedgerBalances(tr: seq<State>, es: seq<Event>, k: nat)
    requires IsRun(tr, es, Moves) && Initial(tr[0]) && k < |tr|
    ensures Unique(tr[k]) && Conserved(tr[k]) && Paced(tr[k])
  {
    assert forall id :: Asks([], id) == 0;
    forall s, e, s' | Inv(s) && Moves(s, e, s') ensures Inv(s') { StepKeeps(s, e); }
    InvariantHolds(tr, es, Moves, Inv, k);
  }
}
