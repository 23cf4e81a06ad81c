/** The ARP cache as the router has it: a table and a queue changed in place, each call a step of the ledger's machine. */
module ArpCache {
  import opened Common
  import opened ArpLedger
  import opened ArpRuns

  /** What goes out on the wire: an ARP request, a released packet under the MAC it waited for, or a host-unreachable. */
  datatype Frame = Broadcast(ip: nat, iface: string) | Forwarded(mac: seq<byte>, packet: Packet) | Unreachable(packet: Packet)

  function ForwardAll(mac: seq<byte>, ps: seq<Packet>): seq<Frame> {
    seq(|ps|, i requires 0 <= i < |ps| => Forwarded(mac, ps[i]))
  }

  function UnreachableAll(ps: seq<Packet>): seq<Frame> {
    seq(|ps|, i requires 0 <= i < |ps| => Unreachable(ps[i]))
  }

  function Output(r: Request, now: int, later: int): seq<Frame>
    requires r.packets != []
  {
    match HandleReq(r, now, later)
    case Early => []
    case Asked(_) => [Broadcast(r.ip, r.packets[0].iface)]
    case GivenUp => UnreachableAll(r.packets)
  }

  function Ids(rs: seq<Request>): seq<nat> {
    seq(|rs|, i requires 0 <= i < |rs| => rs[i].id)
  }

  /** Pairs of clock readings that never go back. */
  predicate Readings(clock: int, times: seq<(int, int)>)
    decreases |times|
  {
    times == [] || (clock <= times[0].0 <= times[0].1 && Readings(times[0].1, times[1..]))
  }

  /** Each of some requests is still queued when its turn to be visited comes. */
  ghost predicate Visitable(s: State, ids: seq<nat>, times: seq<(int, int)>)
    requires |ids| == |times|
    decreases |ids|
  {
    ids == [] ||
    var e := VisitReq(ids[0], times[0].0, times[0].1);
    Enabled(s, e) && Visitable(Next(s, e), ids[1..], times[1..])
  }

  /** A sweep looks once at each request, with a reading of the clock before and after each. */
  ghost function VisitAll(s: State, ids: seq<nat>, times: seq<(int, int)>): State
    requires |ids| == |times| && Visitable(s, ids, times)
    decreases |ids|
  {
    if ids == [] then s
    else VisitAll(Next(s, VisitReq(ids[0], times[0].0, times[0].1)), ids[1..], times[1..])
  }

  lemma NextVisit(s: State, ids: seq<nat>, times: seq<(int, int)>, i: nat)
    requires i < |ids| == |times| && Visitable(s, ids[i..], times[i..])
    ensures var e := VisitReq(ids[i], times[i].0, times[i].1);
      Enabled(s, e) && Visitable(Next(s, e), ids[i + 1..], times[i + 1..]) &&
      VisitAll(s, ids[i..], times[i..]) == VisitAll(Next(s, e), ids[i + 1..], times[i + 1..])
  {
    assert ids[i..][1..] == ids[i + 1..] && times[i..][1..] == times[i + 1..];
  }

  lemma VisitSparesOthers(s: State, id: nat, now: int, later: int, other: nat)
    requires Enabled(s, VisitReq(id, now, later)) && Separate(s.requests, s.nextId) && other != id
    requires FindId(s.requests, other) < |s.requests|
    ensures var rs := Next(s, VisitReq(id, now, later)).requests; FindId(rs, other) < |rs|
  {
    var i, j := FindId(s.requests, id), FindId(s.requests, other);
    var rs := Next(s, VisitReq(id, now, later)).requests;
    assert rs[if |rs| < |s.requests| && i < j then j - 1 else j].id == other;
  }

  lemma {:induction false} AllVisitable(s: State, ids: seq<nat>, times: seq<(int, int)>)
    requires |ids| == |times| && Inv(s) && Readings(s.clock, times)
    requires forall i :: 0 <= i < |ids| ==> FindId(s.requests, ids[i]) < |s.requests|
    requires forall i, j :: 0 <= i < j < |ids| ==> ids[i] != ids[j]
    ensures Visitable(s, ids, times)
    decreases |ids|
  {
    if ids != [] {
      var e := VisitReq(ids[0], times[0].0, times[0].1);
      VisitKeeps(s, ids[0], times[0].0, times[0].1);
      forall i | 0 < i < |ids| ensures FindId(Next(s, e).requests, ids[i]) < |Next(s, e).requests| {
        VisitSparesOthers(s, ids[0], times[0].0, times[0].1, ids[i]);
      }
      AllVisitable(Next(s, e), ids[1..], times[1..]);
    }
  }

  class Cache {
    const entries: array<Entry>
    var requests: seq<Request>
    var nextId: nat
    var out: seq<Frame>
    ghost var ledger: State

    ghost predicate Valid()
      reads this, entries
    {
      && entries.Length == SR_ARPCACHE_SZ
      && ledger.entries == entries[..] && ledger.requests == requests && ledger.nextId == nextId
      && Inv(ledger)
    }

    constructor (now: int)
      ensures Valid() && fresh(entries) && Initial(ledger) && ledger.clock == now && out == [] && nextId == 0
      ensures entries.Length == 100 && forall i :: 0 <= i < 100 ==> !entries[i].valid
    {
      entries := new Entry[SR_ARPCACHE_SZ](_ => Entry([], 0, 0, false));
      requests, nextId, out := [], 0, [];
      new;
      ledger := State(entries[..], [], now, 0, [], multiset{}, [], []);
    }

    /** sr_arpcache_lookup: of several valid entries for the address, the last. */
    method Lookup(ip: nat) returns (found: Option<Entry>)
      requires Valid()
      ensures found == LastFor(entries[..], ip)
      ensures found == None <==> forall i :: 0 <= i < SR_ARPCACHE_SZ ==> !(entries[i].valid && entries[i].ip == ip)
      ensures found.Some? ==>
        exists i :: 0 <= i < SR_ARPCACHE_SZ && found.value == entries[i] && entries[i].valid && entries[i].ip == ip &&
          forall j :: i < j < SR_ARPCACHE_SZ ==> !(entries[j].valid && entries[j].ip == ip)
    {
      found := None;
      var i := 0;
      while i < SR_ARPCACHE_SZ
        invariant 0 <= i <= SR_ARPCACHE_SZ && found == LastFor(entries[..i], ip)
        invariant found == None <==> forall j :: 0 <= j < i ==> !(entries[j].valid && entries[j].ip == ip)
        invariant found.Some? ==>
          exists k :: 0 <= k < i && found.value == entries[k] && entries[k].valid && entries[k].ip == ip &&
            forall j :: k < j < i ==> !(entries[j].valid && entries[j].ip == ip)
      {
        assert entries[..i + 1][..i] == entries[..i];
        if entries[i].valid && entries[i].ip == ip {
          found := Some(entries[i]);
        }
        i := i + 1;
      }
      assert entries[..i] == entries[..];
    }

    method FindReq(ip: nat) returns (i: nat)
      ensures i == Find(requests, ip)
    {
      i := 0;
      while i < |requests| && requests[i].ip != ip
        invariant i <= |requests| && forall j :: 0 <= j < i ==> requests[j].ip != ip
      {
        i := i + 1;
      }
    }

    method AddPacket(i: nat, p: Packet)
      requires i < |requests|
      modifies `requests
      ensures requests == old(requests)[i := old(requests[i]).(packets := [p] + old(requests[i].packets))]
    {
      requests := requests[i := requests[i].(packets := [p] + requests[i].packets)];
    }

    /** The body of sr_arpcache_queuereq. */
    method Enroll(ip: nat, p: Packet) returns (id: nat)
      modifies `requests, `nextId
      ensures requests == Enqueue(old(requests), old(nextId), ip, p) && nextId == old(nextId) + 1
      ensures var i := Find(old(requests), ip); id == if i < |old(requests)| then old(requests)[i].id else old(nextId)
    {
      ghost var before := requests;
      var i := FindReq(ip);
      if i == |requests| {
        requests := [Request(nextId, ip, 0, 0, [])] + requests;
        i := 0;
        assert requests[0 := Request(nextId, ip, 0, 0, [p])] == [Request(nextId, ip, 0, 0, [p])] + before;
        assert [p] + requests[0].packets == [p];
      }
      id := requests[i].id;
      nextId := nextId + 1;
      AddPacket(i, p);
    }

    /** sr_arpcache_queuereq */
    method QueueReq(ip: nat, p: Packet) returns (id: nat)
      requires Valid()
      modifies `requests, `nextId, `ledger
      ensures Valid() && ledger == Next(old(ledger), Queue(ip, p))
      ensures var i := Find(old(requests), ip); id == if i < |old(requests)| then old(requests)[i].id else old(nextId)
    {
      QueueKeeps(ledger, ip, p);
      id := Enroll(ip, p);
      ledger := Next(ledger, Queue(ip, p));
    }

    /** The loop of sr_arpcache_insert that takes the request for an address off the queue. */
    method TakeOff(ip: nat) returns (req: Option<Request>)
      modifies `requests
      ensures var i := Find(old(requests), ip);
        if i < |old(requests)| then req == Some(old(requests)[i]) && requests == Drop(old(requests), i)
        else req == None && requests == old(requests)
    {
      var i := 0;
      while i < |requests|
        invariant 0 <= i <= |requests| && requests == old(requests)
        invariant forall j :: 0 <= j < i ==> requests[j].ip != ip
      {
        if requests[i].ip == ip {
          req := Some(requests[i]);
          requests := requests[..i] + requests[i + 1..];
          return;
        }
        i := i + 1;
      }
      req := None;
    }

    method StoreEntry(mac: seq<byte>, ip: nat, now: int)
      requires entries.Length == SR_ARPCACHE_SZ
      modifies entries
      ensures entries[..] == InsertEntry(old(entries[..]), mac, ip, now)
    {
      var i := 0;
      while i < SR_ARPCACHE_SZ && entries[i].valid
        invariant 0 <= i <= SR_ARPCACHE_SZ && forall j :: 0 <= j < i ==> entries[..][j].valid
      {
        i := i + 1;
      }
      if i != SR_ARPCACHE_SZ {
        entries[i] := Entry(mac, ip, now, true);
      }
    }

    /** sr_arpreq_destroy: the request leaves the queue if it is on it. */
    method Destroy(id: nat)
      modifies `requests
      ensures var i := FindId(old(requests), id);
        requests == if i < |old(requests)| then Drop(old(requests), i) else old(requests)
    {
      var i := 0;
      while i < |requests|
        invariant 0 <= i <= |requests| && requests == old(requests)
        invariant forall j :: 0 <= j < i ==> requests[j].id != id
      {
        if requests[i].id == id {
          requests := requests[..i] + requests[i + 1..];
          return;
        }
        i := i + 1;
      }
    }

    /** sr_arpcache_insert */
    method Insert(mac: seq<byte>, ip: nat, now: int) returns (req: Option<Request>)
      requires entries.Length == SR_ARPCACHE_SZ
      modifies `requests, entries
      ensures var i := Find(old(requests), ip);
        if i < |old(requests)| then req == Some(old(requests)[i]) && requests == Drop(old(requests), i)
        else req == None && requests == old(requests)
      ensures entries[..] == InsertEntry(old(entries[..]), mac, ip, now)
    {
      req := TakeOff(ip);
      StoreEntry(mac, ip, now);
    }

    /** The body of handle_arprep.  The request is off the queue when it is destroyed. */
    method Release(mac: seq<byte>, ip: nat, now: int)
      requires entries.Length == SR_ARPCACHE_SZ && Find(requests, ip) < |requests|
      requires Separate(requests, nextId)
      modifies `requests, `out, entries
      ensures requests == Drop(old(requests), Find(old(requests), ip))
      ensures entries[..] == InsertEntry(old(entries[..]), mac, ip, now)
      ensures out == old(out) + ForwardAll(mac, old(requests[Find(requests, ip)].packets))
    {
      DropSeparate(requests, Find(requests, ip), nextId);
      var req := Insert(mac, ip, now);
      SendAll(mac, req.value.packets);
      assert !Has(requests, req.value.id);
      Destroy(req.value.id);
    }

    /** handle_arprep, for a reply to a queued request: its packets go out under the MAC of the reply. */
    method HandleArpRep(mac: seq<byte>, ip: nat, now: int)
      requires Valid() && Enabled(ledger, Reply(mac, ip, now))
      modifies `requests, `out, `ledger, entries
      ensures Valid() && ledger == Next(old(ledger), Reply(mac, ip, now))
      ensures out == old(out) + ForwardAll(mac, old(requests[Find(requests, ip)].packets))
    {
      ReplyKeeps(ledger, mac, ip, now);
      Release(mac, ip, now);
      ledger := Next(ledger, Reply(mac, ip, now));
    }

    method SendAll(mac: seq<byte>, ps: seq<Packet>)
      modifies `out
      ensures out == old(out) + ForwardAll(mac, ps)
    {
      var i := 0;
      while i < |ps|
        invariant 0 <= i <= |ps| && out == old(out) + ForwardAll(mac, ps)[..i]
      {
        out := out + [Forwarded(mac, ps[i])];
        i := i + 1;
      }
    }

    method RejectAll(ps: seq<Packet>)
      modifies `out
      ensures out == old(out) + UnreachableAll(ps)
    {
      var i := 0;
      while i < |ps|
        invariant 0 <= i <= |ps| && out == old(out) + UnreachableAll(ps)[..i]
      {
        out := out + [Unreachable(ps[i])];
        i := i + 1;
      }
    }

    method FindById(id: nat) returns (i: nat)
      ensures i == FindId(requests, id)
    {
      i := 0;
      while i < |requests| && requests[i].id != id
        invariant i <= |requests| && forall j :: 0 <= j < i ==> requests[j].id != id
      {
        i := i + 1;
      }
    }

    /** The body of handle_arpreq, on a request in the queue. */
    method Attend(req: Request, now: int, later: int) returns (kept: bool)
      requires FindId(requests, req.id) < |requests| && requests[FindId(requests, req.id)] == req && req.packets != []
      modifies `requests, `out
      ensures out == old(out) + Output(req, now, later)
      ensures kept <==> !HandleReq(req, now, later).GivenUp?
      ensures var i := FindId(old(requests), req.id);
        requests == match HandleReq(req, now, later)
                    case Early => old(requests)
                    case Asked(r) => old(requests)[i := r]
                    case GivenUp => Drop(old(requests), i)
    {
      kept := true;
      if now - req.sent > 1 {
        if req.times >= 5 {
          RejectAll(req.packets);
          Destroy(req.id);
          kept := false;
        } else {
          out := out + [Broadcast(req.ip, req.packets[0].iface)];
          var i := FindById(req.id);
          requests := requests[i := req.(sent := later, times := req.times + 1)];
        }
      }
    }

    /** handle_arpreq, with the clock at its test and after its sending. */
    method HandleArpReq(id: nat, now: int, later: int) returns (kept: bool)
      requires Valid() && Enabled(ledger, VisitReq(id, now, later))
      modifies `requests, `out, `ledger
      ensures Valid() && ledger == Next(old(ledger), VisitReq(id, now, later))
      ensures out == old(out) + Output(old(requests[FindId(requests, id)]), now, later)
      ensures kept <==> !HandleReq(old(requests[FindId(requests, id)]), now, later).GivenUp?
    {
      VisitKeeps(ledger, id, now, later);
      var i := FindById(id);
      kept := Attend(requests[i], now, later);
      assert Next(ledger, VisitReq(id, now, later)).requests == requests;
      ledger := Next(ledger, VisitReq(id, now, later));
    }

    /** The first half of a timeout: entries of more than fifteen seconds become invalid. */
    method ExpireEntries(now: int)
      requires Valid() && Enabled(ledger, Timeout(now))
      modifies entries, `ledger
      ensures Valid() && ledger == Next(old(ledger), Timeout(now))
    {
      StepKeeps(ledger, Timeout(now));
      var i := 0;
      while i < SR_ARPCACHE_SZ
        invariant 0 <= i <= SR_ARPCACHE_SZ && ledger == old(ledger)
        invariant forall j :: 0 <= j < i ==> entries[j] == Expire(ledger.entries, now)[j]
        invariant forall j :: i <= j < SR_ARPCACHE_SZ ==> entries[j] == ledger.entries[j]
      {
        if entries[i].valid && now - entries[i].added > SR_ARPCACHE_TO {
          entries[i] := entries[i].(valid := false);
        }
        i := i + 1;
      }
      ledger := Next(ledger, Timeout(now));
    }

    /** The turn of request i of a sweep over todo. */
    method AttendNext(todo: seq<nat>, times: seq<(int, int)>, i: nat)
      requires Valid() && i < |todo| == |times| && Visitable(ledger, todo[i..], times[i..])
      modifies `requests, `out, `ledger
      ensures Valid() && Visitable(ledger, todo[i + 1..], times[i + 1..])
      ensures VisitAll(ledger, todo[i + 1..], times[i + 1..]) == old(VisitAll(ledger, todo[i..], times[i..]))
    {
      NextVisit(ledger, todo, times, i);
      var kept := HandleArpReq(todo[i], times[i].0, times[i].1);
    }

    /** sr_arpcache_sweepreqs as its header prescribes it: each request in the queue is attended to once. */
    method SweepReqs(times: seq<(int, int)>)
      requires Valid() && |times| == |requests| && Readings(ledger.clock, times)
      modifies `requests, `out, `ledger
      ensures Valid() && Visitable(old(ledger), Ids(old(requests)), times)
      ensures ledger == VisitAll(old(ledger), Ids(old(requests)), times)
    {
      var todo := Ids(requests);
      AllVisitable(ledger, todo, times);
      var i := 0;
      while i < |todo|
        invariant 0 <= i <= |todo| && Valid()
        invariant Visitable(ledger, todo[i..], times[i..])
        invariant VisitAll(ledger, todo[i..], times[i..]) == VisitAll(old(ledger), todo, times)
      {
        AttendNext(todo, times, i);
        i := i + 1;
      }
    }
  }

  // ---------- a request from beginning to end ----------

  /** An empty cache with one request. */
  method Asked(ip: nat, p: Packet, now: int) returns (c: Cache)
    ensures c.Valid() && fresh(c) && fresh(c.entries) && c.ledger.clock == now && c.out == [] && c.nextId == 1
    ensures c.requests == [Request(0, ip, 0, 0, [p])]
    ensures !c.entries[0].valid && LastFor(c.entries[..], ip) == None
  {
    c := new Cache(now);
    LastForIs(c.entries[..], ip);
    var id := c.QueueReq(ip, p);
  }

  lemma QueuedAgain(ip: nat, p: Packet, q: Packet)
    ensures Enqueue([Request(0, ip, 0, 0, [p])], 1, ip, q) == [Request(0, ip, 0, 0, [q, p])]
  {
    assert [q] + [p] == [q, p];
  }

  /** One request with two packets, the later one first. */
  method AskedTwice(ip: nat, p: Packet, q: Packet, now: int) returns (c: Cache)
    ensures c.Valid() && fresh(c) && fresh(c.entries) && c.ledger.clock == now && c.out == []
    ensures c.requests == [Request(0, ip, 0, 0, [q, p])]
    ensures !c.entries[0].valid && LastFor(c.entries[..], ip) == None
  {
    c := Asked(ip, p, now);
    QueuedAgain(ip, p, q);
    var id := c.QueueReq(ip, q);
  }

  /** Two packets are queued and the answer comes: both go out under its MAC, the later one first. */
  method Answered(ip: nat, p: Packet, q: Packet, mac: seq<byte>, now: int) returns (c: Cache)
    ensures c.Valid() && fresh(c) && fresh(c.entries) && c.ledger.clock == now
    ensures c.out == [Forwarded(mac, q), Forwarded(mac, p)] && c.requests == []
    ensures exists es: seq<Entry> :: |es| > 0 && !es[0].valid && LastFor(es, ip) == None &&
                                     c.entries[..] == InsertEntry(es, mac, ip, now)
  {
    c := AskedTwice(ip, p, q, now);
    ghost var es := c.entries[..];
    c.HandleArpRep(mac, ip, now);
    assert ForwardAll(mac, [q, p]) == [Forwarded(mac, q), Forwarded(mac, p)];
  }

  /** From then on lookups give that MAC for fifteen seconds. */
  method AnswerKept(ip: nat, p: Packet, mac: seq<byte>, now: int) returns (found: Option<Entry>)
    ensures found.Some? && found.value.mac == mac
  {
    var c := Answered(ip, p, p, mac, now);
    ghost var es: seq<Entry> :| |es| > 0 && !es[0].valid && LastFor(es, ip) == None &&
                                c.entries[..] == InsertEntry(es, mac, ip, now);
    StoredFor15Seconds(es, mac, ip, now, now + 15);
    c.ExpireEntries(now + 15);
    MapsIsFound(c.entries[..], ip, mac);
    found := c.Lookup(ip);
  }

  /** A second later they give none. */
  method AnswerForgotten(ip: nat, p: Packet, mac: seq<byte>, now: int) returns (found: Option<Entry>)
    ensures found == None
  {
    var c := Answered(ip, p, p, mac, now);
    ghost var es: seq<Entry> :| |es| > 0 && !es[0].valid && LastFor(es, ip) == None &&
                                c.entries[..] == InsertEntry(es, mac, ip, now);
    StoredFor15Seconds(es, mac, ip, now, now + 16);
    c.ExpireEntries(now + 16);
    found := c.Lookup(ip);
  }

  /** A visit to the one request there is, more than a second after it was last sent. */
  method Again(c: Cache, ip: nat, ps: seq<Packet>, times: nat, t: int)
    requires c.Valid() && c.ledger.clock <= t && times < 5 && |c.requests| == 1 && ps != []
    requires c.requests[0] == Request(0, ip, c.requests[0].sent, times, ps) && t - c.requests[0].sent > 1
    modifies c`requests, c`out, c`ledger
    ensures c.Valid() && c.ledger.clock == t && c.requests == [Request(0, ip, t, times + 1, ps)]
    ensures c.out == old(c.out) + [Broadcast(ip, ps[0].iface)]
  {
    var kept := c.HandleArpReq(0, t, t);
  }

  method GiveUp(c: Cache, ip: nat, p: Packet, q: Packet, t: int)
    requires c.Valid() && c.ledger.clock <= t && |c.requests| == 1
    requires c.requests[0] == Request(0, ip, c.requests[0].sent, 5, [q, p]) && t - c.requests[0].sent > 1
    modifies c`requests, c`out, c`ledger
    ensures c.requests == [] && c.out == old(c.out) + [Unreachable(q), Unreachable(p)]
  {
    assert UnreachableAll([q, p]) == [Unreachable(q), Unreachable(p)];
    var kept := c.HandleArpReq(0, t, t);
  }

  /**
   Nobody answers: five requests go out, two seconds apart, by the interface of the packet queued last, and
   at the sixth visit both packets are returned.
   */
  method Unanswered(ip: nat, p: Packet, q: Packet, now: int) returns (c: Cache)
    requires now > 1
    ensures c.requests == [] && |c.out| == 7 && c.out[5] == Unreachable(q) && c.out[6] == Unreachable(p)
    ensures forall k :: 0 <= k < 5 ==> c.out[k] == Broadcast(ip, q.iface)
  {
    c := AskedTwice(ip, p, q, 0);
    var i := 0;
    while i < 5
      invariant 0 <= i <= 5 && c.Valid() && fresh(c) && c.ledger.clock <= now + 2 * i
      invariant |c.requests| == 1 && c.requests[0] == Request(0, ip, c.requests[0].sent, i, [q, p])
      invariant now + 2 * i - c.requests[0].sent > 1
      invariant |c.out| == i && forall k :: 0 <= k < i ==> c.out[k] == Broadcast(ip, q.iface)
    {
      Again(c, ip, [q, p], i, now + 2 * i);
      i := i + 1;
    }
    GiveUp(c, ip, p, q, now + 10);
  }

  /** Queued and answered, with a slot free and no request before it. */
  method AskAndAnswer(c: Cache, ip: nat, p: Packet, mac: seq<byte>, now: int)
    requires c.Valid() && c.requests == [] && c.ledger.clock <= now
    modifies c`requests, c`nextId, c`out, c`ledger, c.entries
    ensures c.Valid() && c.requests == [] && c.ledger.clock == now
    ensures c.entries[..] == InsertEntry(old(c.entries[..]), mac, ip, now)
  {
    assert [Request(c.nextId, ip, 0, 0, [p])] + [] == [Request(c.nextId, ip, 0, 0, [p])];
    var id := c.QueueReq(ip, p);
    c.HandleArpRep(mac, ip, now);
  }

  /**
   One address is answered, then another, whose entry comes to lie behind; the first entry expires, and
   the second address is answered anew.  The new entry takes the free slot in front of the old one, and
   lookups go on giving the old MAC.
   */
  method OldEntryWins(first: nat, ip: nat, p: Packet, mac: seq<byte>, newer: seq<byte>) returns (found: Option<Entry>)
    requires first != ip
    ensures found.Some? && found.value.mac == mac
  {
    var c := new Cache(0);
    OldEntryStays(c.entries[..], first, ip, mac, newer);
    AskAndAnswer(c, first, p, [], 0);
    AskAndAnswer(c, ip, p, mac, 10);
    c.ExpireEntries(16);
    AskAndAnswer(c, ip, p, newer, 16);
    found := c.Lookup(ip);
  }
}
