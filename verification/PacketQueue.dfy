/**
 The packet queue between the threads that receive packets and the TCP thread of a socket.  The
 queue and the event flags have a lock each, so a packet is appended in one step and announced in a
 later one; the TCP thread clears the flag, empties the queue, and looks at it again.
 */
module PacketQueue {
  import opened Runs

  type Packet = nat

  /** Flags of the application's calls, in the order in which the thread looks at them. */
  datatype App = CLOSE | CONNECT | RECV | SEND

  function Rank(a: App): nat {
    match a case CLOSE => 0 case CONNECT => 1 case RECV => 2 case SEND => 3
  }

  /** Where the TCP thread is: before its wait, in it, or in some event. */
  datatype Pc = Top | Asleep | Serving(app: App) | Arrival | Check | Reraise | Gone

  /** What the debugger has an incoming packet do. */
  datatype Response = NONE | DROP | DUPLICATE | WITHHOLD | DRAW_WITHHELD

  /**
   Where a thread in chitcpd_enqueue_packet is: with a withheld packet still to append, with its own
   still to append, with the flag to raise, or through.
   */
  datatype Enqueuer = Drawing(held: Packet, p: Packet) | Appending(p: Packet, owes: bool) | Raising | Through

  datatype State = State(
    pending: seq<Packet>, netRecv: bool, apps: set<App>, cleanup: bool, pc: Pc,
    enqueuers: seq<Enqueuer>, withheld: seq<Packet>,
    appended: seq<Packet>, fetched: seq<Packet>, copies: seq<Packet>, dropped: seq<Packet>)

  datatype Event =
    | Sleep
    | WakeUp
    | TakeApp(a: App)
    | Served
    | TakeArrival
    | Fetch
    | Handled
    | LookAgain
    | RaiseAgain
    | CleanUp
    | Incoming(p: Packet, r: Response)
    | Enqueue(i: nat)
    | Announce(i: nat)
    | AppCall(a: App)
    | Retire

  predicate Enabled(s: State, e: Event) {
    match e
    case Sleep => s.pc == Top && !s.netRecv && s.apps == {} && !s.cleanup
    case WakeUp => s.pc == Asleep
    case TakeApp(a) => s.pc == Top && a in s.apps && forall b :: b in s.apps ==> Rank(a) <= Rank(b)
    case Served => s.pc.Serving?
    case TakeArrival => s.pc == Top && s.apps == {} && s.netRecv
    case Fetch => s.pc == Arrival && s.pending != []
    case Handled => s.pc == Arrival
    case LookAgain => s.pc == Check
    case RaiseAgain => s.pc == Reraise
    case CleanUp => s.pc == Top && s.apps == {} && !s.netRecv && s.cleanup
    case Incoming(_, _) => true
    case Enqueue(i) => i < |s.enqueuers| && (s.enqueuers[i].Drawing? || s.enqueuers[i].Appending?)
    case Announce(i) => i < |s.enqueuers| && s.enqueuers[i].Raising?
    case AppCall(_) => true
    case Retire => true
  }

  /** Raising a flag signals the thread. */
  function Signalled(pc: Pc): Pc {
    if pc == Asleep then Top else pc
  }

  function Arrive(s: State, p: Packet, r: Response): State {
    match r
    case NONE => s.(enqueuers := s.enqueuers + [Appending(p, false)], copies := s.copies + [p])
    case DROP => s.(copies := s.copies + [p], dropped := s.dropped + [p])
    case DUPLICATE => s.(withheld := s.withheld + [p], enqueuers := s.enqueuers + [Appending(p, false)],
                         copies := s.copies + [p] + [p])
    case WITHHOLD => s.(withheld := s.withheld + [p], copies := s.copies + [p])
    case DRAW_WITHHELD =>
      if s.withheld == [] then s.(enqueuers := s.enqueuers + [Appending(p, false)], copies := s.copies + [p])
      else s.(withheld := s.withheld[1..], enqueuers := s.enqueuers + [Drawing(s.withheld[0], p)],
              copies := s.copies + [p])
  }

  function Append(s: State, p: Packet, i: nat, e: Enqueuer): State
    requires i < |s.enqueuers|
  {
    s.(pending := s.pending + [p], appended := s.appended + [p], enqueuers := s.enqueuers[i := e])
  }

  function Next(s: State, e: Event): State
    requires Enabled(s, e)
  {
    match e
    case Sleep => s.(pc := Asleep)
    case WakeUp => s.(pc := Top)
    case TakeApp(a) => s.(apps := s.apps - {a}, pc := Serving(a))
    case Served => s.(pc := Top)
    case TakeArrival => s.(netRecv := false, pc := Arrival)
    case Fetch => s.(pending := s.pending[1..], fetched := s.fetched + [s.pending[0]])
    case Handled => s.(pc := Check)
    case LookAgain => s.(pc := if s.pending == [] then Top else Reraise)
    case RaiseAgain => s.(netRecv := true, pc := Top)
    case CleanUp => s.(pc := Gone)
    case Incoming(p, r) => Arrive(s, p, r)
    case Enqueue(i) =>
      (match s.enqueuers[i]
       case Drawing(q, p) => Append(s, q, i, Appending(p, true))
       case Appending(p, _) => Append(s, p, i, Raising)
       case _ => s)
    case Announce(i) => s.(netRecv := true, pc := Signalled(s.pc), enqueuers := s.enqueuers[i := Through])
    case AppCall(a) => s.(apps := s.apps + {a}, pc := Signalled(s.pc))
    case Retire => s.(cleanup := true, pc := Signalled(s.pc))
  }

  // ---------- no packet is left behind ----------

  /** A thread that has appended a packet and not raised the flag since. */
  predicate Owes(e: Enqueuer) {
    e.Raising? || (e.Appending? && e.owes)
  }

  ghost predicate SomeOwes(s: State) {
    exists i :: 0 <= i < |s.enqueuers| && Owes(s.enqueuers[i])
  }

  /** The thread will look at the queue without being told again. */
  predicate WillLook(s: State) {
    s.netRecv || s.pc == Arrival || s.pc == Check || s.pc == Reraise || s.pc == Gone
  }

  ghost predicate Safe(s: State) {
    && (s.pending != [] ==> WillLook(s) || SomeOwes(s))
    && (s.pc == Asleep ==> !s.netRecv && s.apps == {} && !s.cleanup)
  }

  ghost predicate Moves(s: State, e: Event, s': State) {
    Enabled(s, e) && s' == Next(s, e)
  }

  lemma StillOwes(s: State, t: State, k: nat)
    requires |s.enqueuers| <= |t.enqueuers| && k < |s.enqueuers| && Owes(s.enqueuers[k])
    requires t.enqueuers[k] == s.enqueuers[k]
    ensures SomeOwes(t)
  {
  }

  lemma StepSafe(s: State, e: Event)
    requires Safe(s) && Enabled(s, e)
    ensures Safe(Next(s, e))
  {
    var t := Next(s, e);
    match e
    case Incoming(p, r) =>
      if k :| 0 <= k < |s.enqueuers| && Owes(s.enqueuers[k]) { StillOwes(s, t, k); }
    case Enqueue(i) => assert Owes(t.enqueuers[i]);
    case _ =>
  }

  ghost predicate Initial(s: State) {
    && s.pending == [] && s.enqueuers == [] && s.withheld == [] && s.pc == Top
    && s.appended == [] && s.fetched == [] && s.copies == [] && s.dropped == []
  }

  /**
   In every interleaving, if the TCP thread sleeps while a packet is pending, then some thread has
   appended a packet and has yet to raise the flag, which will wake it.
   */
  lemma NoPacketStranded(tr: seq<State>, es: seq<Event>, k: nat)
    requires IsRun(tr, es, Moves) && Initial(tr[0]) && k < |tr|
    ensures tr[k].pc == Asleep && tr[k].pending != [] ==> SomeOwes(tr[k])
  {
    forall s, e, s' | Safe(s) && Moves(s, e, s') ensures Safe(s') { StepSafe(s, e); }
    InvariantHolds(tr, es, Moves, Safe, k);
  }

  // ---------- every copy is somewhere ----------

  function Is(p: Packet, x: Packet): nat {
    if p == x then 1 else 0
  }

  function Count(s: seq<Packet>, x: Packet): nat {
    if s == [] then 0 else Count(s[..|s| - 1], x) + Is(s[|s| - 1], x)
  }

  /** How many copies of x a thread is about to append. */
  function Hand(e: Enqueuer, x: Packet): nat {
    match e
    case Drawing(q, p) => Is(q, x) + Is(p, x)
    case Appending(p, _) => Is(p, x)
    case _ => 0
  }

  /** How many copies of x are on their way into the queue. */
  function InHand(es: seq<Enqueuer>, x: Packet): nat {
    if es == [] then 0 else InHand(es[..|es| - 1], x) + Hand(es[|es| - 1], x)
  }

  lemma InHandMore(es: seq<Enqueuer>, e: Enqueuer, x: Packet)
    ensures InHand(es + [e], x) == InHand(es, x) + Hand(e, x)
  {
    assert (es + [e])[..|es|] == es;
  }

  lemma {:induction false} InHandChange(es: seq<Enqueuer>, i: nat, e: Enqueuer, x: Packet)
    requires i < |es|
    ensures InHand(es[i := e], x) + Hand(es[i], x) == InHand(es, x) + Hand(e, x)
  {
    var n := |es| - 1;
    if i < n {
      InHandChange(es[..n], i, e, x);
      assert es[i := e][..n] == es[..n][i := e];
    } else {
      assert es[i := e][..n] == es[..n];
    }
  }

  /** Each copy of x is queued or has been, is held back, was dropped, or is on its way. */
  ghost predicate Counted(s: State, x: Packet) {
    Count(s.copies, x) == Count(s.appended, x) + Count(s.withheld, x) + Count(s.dropped, x) + InHand(s.enqueuers, x)
  }

  /** Packets leave the queue in the order they came, and no copy is lost. */
  ghost predicate Conserved(s: State) {
    s.appended == s.fetched + s.pending && forall x :: Counted(s, x)
  }

  lemma CountAppend(s: seq<Packet>, p: Packet, x: Packet)
    ensures Count(s + [p], x) == Count(s, x) + Is(p, x)
  {
    assert (s + [p])[..|s|] == s;
  }

  lemma {:induction false} CountFirst(s: seq<Packet>, x: Packet)
    requires s != []
    ensures Count(s, x) == Is(s[0], x) + Count(s[1..], x)
  {
    if |s| > 1 {
      CountFirst(s[..|s| - 1], x);
      assert s[1..][..|s| - 2] == s[..|s| - 1][1..];
    }
  }

  lemma ArriveCounts(s: State, p: Packet, r: Response, x: Packet)
    requires Counted(s, x)
    ensures Counted(Arrive(s, p, r), x)
  {
    CountAppend(s.copies, p, x);
    InHandMore(s.enqueuers, Appending(p, false), x);
    match r
    case NONE =>
    case DROP => CountAppend(s.dropped, p, x);
    case DUPLICATE =>
      CountAppend(s.copies + [p], p, x);
      CountAppend(s.withheld, p, x);
    case WITHHOLD => CountAppend(s.withheld, p, x);
    case DRAW_WITHHELD =>
      if s.withheld != [] {
        InHandMore(s.enqueuers, Drawing(s.withheld[0], p), x);
        CountFirst(s.withheld, x);
      }
  }

  lemma AppendCounts(s: State, p: Packet, i: nat, e: Enqueuer, x: Packet)
    requires Counted(s, x) && i < |s.enqueuers| && Hand(s.enqueuers[i], x) == Is(p, x) + Hand(e, x)
    ensures Counted(Append(s, p, i, e), x)
  {
    InHandChange(s.enqueuers, i, e, x);
    CountAppend(s.appended, p, x);
  }

  lemma StepCounts(s: State, e: Event, x: Packet)
    requires Counted(s, x) && Enabled(s, e)
    ensures Counted(Next(s, e), x)
  {
    match e
    case Incoming(p, r) => ArriveCounts(s, p, r, x);
    case Enqueue(i) =>
      match s.enqueuers[i] {
        case Drawing(q, p) => AppendCounts(s, q, i, Appending(p, true), x);
        case Appending(p, _) => AppendCounts(s, p, i, Raising, x);
      }
    case Announce(i) => InHandChange(s.enqueuers, i, Through, x);
    case _ =>
  }

  lemma StepConserves(s: State, e: Event)
    requires Conserved(s) && Enabled(s, e)
    ensures Conserved(Next(s, e))
  {
    forall x { StepCounts(s, e, x); }
  }

  lemma QueueIsFifo(tr: seq<State>, es: seq<Event>, k: nat)
    requires IsRun(tr, es, Moves) && Initial(tr[0]) && k < |tr|
    ensures tr[k].appended == tr[k].fetched + tr[k].pending
    ensures forall x :: Counted(tr[k], x)
  {
    forall s, e, s' | Conserved(s) && Moves(s, e, s') ensures Conserved(s') { StepConserves(s, e); }
    InvariantHolds(tr, es, Moves, Conserved, k);
  }

  predicate MayAppendTwice(s: State, i: nat) {
    Enabled(s, Enqueue(i)) && Enabled(Next(s, Enqueue(i)), Enqueue(i))
  }

  /** Both appends of a thread that has drawn a withheld packet. */
  function AppendedTwice(s: State, i: nat): State
    requires MayAppendTwice(s, i)
  {
    Next(Next(s, Enqueue(i)), Enqueue(i))
  }

  /** Drawing takes the packet held longest and appends it before the one that has come. */
  lemma DrawAppendsBoth(s: State, p: Packet)
    requires s.withheld != []
    ensures var n, t := |s.enqueuers|, Next(s, Incoming(p, DRAW_WITHHELD));
      MayAppendTwice(t, n) && var t' := AppendedTwice(t, n);
      && t'.appended == s.appended + [s.withheld[0], p] && t'.pending == s.pending + [s.withheld[0], p]
      && t'.withheld == s.withheld[1..] && t'.enqueuers == s.enqueuers + [Raising]
  {
    var q := s.withheld[0];
    assert s.appended + [q] + [p] == s.appended + [q, p] && s.pending + [q] + [p] == s.pending + [q, p];
    assert (s.enqueuers + [Drawing(q, p)])[|s.enqueuers| := Appending(p, true)][|s.enqueuers| := Raising] ==
           s.enqueuers + [Raising];
  }

  /** Two packets are withheld and drawn with two others: the one withheld first goes in first. */
  lemma WithheldInOrder(s: State, p: Packet, q: Packet, x: Packet, y: Packet)
    requires s.withheld == []
    ensures var n, h := |s.enqueuers|, Next(Next(s, Incoming(p, WITHHOLD)), Incoming(q, WITHHOLD));
      var d := Next(h, Incoming(x, DRAW_WITHHELD));
      h.withheld == [p, q] && h.enqueuers == s.enqueuers && MayAppendTwice(d, n) &&
      var e := Next(AppendedTwice(d, n), Incoming(y, DRAW_WITHHELD));
      MayAppendTwice(e, n + 1) && AppendedTwice(e, n + 1).appended == s.appended + [p, x] + [q, y]
  {
    var h := Next(Next(s, Incoming(p, WITHHOLD)), Incoming(q, WITHHOLD));
    DrawAppendsBoth(h, x);
    DrawAppendsBoth(AppendedTwice(Next(h, Incoming(x, DRAW_WITHHELD)), |s.enqueuers|), y);
  }

  /** A duplicated packet is appended like any other, and a copy is withheld; a dropped one is neither. */
  lemma DuplicateAndDrop(s: State, p: Packet)
    ensures Next(s, Incoming(p, DROP)) == s.(copies := s.copies + [p], dropped := s.dropped + [p])
    ensures var t := Next(s, Incoming(p, DUPLICATE));
      t.withheld == s.withheld + [p] && t.enqueuers == s.enqueuers + [Appending(p, false)] &&
      t.copies == s.copies + [p, p]
  {
    assert s.copies + [p] + [p] == s.copies + [p, p];
  }

  // ---------- what the thread turns to first ----------

  /** CLOSE before CONNECT, these before RECEIVE, these before SEND, all before packets, packets before cleanup. */
  lemma TurnsToFirst(s: State)
    requires s.pc == Top
    ensures Enabled(s, TakeApp(CLOSE)) <==> CLOSE in s.apps
    ensures Enabled(s, TakeApp(CONNECT)) <==> CONNECT in s.apps && CLOSE !in s.apps
    ensures Enabled(s, TakeApp(RECV)) <==> RECV in s.apps && CLOSE !in s.apps && CONNECT !in s.apps
    ensures Enabled(s, TakeApp(SEND)) <==> s.apps == {SEND}
    ensures Enabled(s, TakeArrival) <==> s.netRecv && s.apps == {}
    ensures Enabled(s, CleanUp) <==> s.cleanup && !s.netRecv && s.apps == {}
    ensures Enabled(s, Sleep) <==> !s.cleanup && !s.netRecv && s.apps == {}
  {
    if Enabled(s, TakeApp(SEND)) {
      assert forall a :: a in s.apps ==> a == SEND;
    }
  }

  /** A call is served once for each time it is turned to, and no other is forgotten; what is gone stays gone. */
  lemma CallsAreKept(s: State, e: Event, a: App)
    requires Enabled(s, e)
    ensures a in s.apps ==> (a in Next(s, e).apps <==> e != TakeApp(a))
    ensures a !in s.apps ==> (a in Next(s, e).apps <==> e == AppCall(a))
    ensures e == TakeApp(a) ==> Next(s, e).pc == Serving(a)
    ensures Next(s, e).pc == Gone <==> s.pc == Gone || e == CleanUp
  {
  }

  // ---------- an arrival without a packet ----------

  lemma Extend(tr: seq<State>, es: seq<Event>, e: Event) returns (tr': seq<State>, es': seq<Event>)
    requires IsRun(tr, es, Moves) && Enabled(tr[|es|], e)
    ensures IsRun(tr', es', Moves) && tr'[0] == tr[0] && |es'| == |es| + 1
    ensures tr'[|es'|] == Next(tr[|es|], e)
  {
    tr', es' := tr + [Next(tr[|es|], e)], es + [e];
    forall i | 0 <= i < |es'| ensures Moves(tr'[i], es'[i], tr'[i + 1]) {
      if i < |es| {
        assert Moves(tr[i], es[i], tr[i + 1]);
      }
    }
  }

  /** A packet comes in, is appended and announced by one thread. */
  lemma Arrived(tr: seq<State>, es: seq<Event>, p: Packet) returns (tr': seq<State>, es': seq<Event>)
    requires IsRun(tr, es, Moves)
    ensures IsRun(tr', es', Moves) && tr'[0] == tr[0]
    ensures var s, t, n := tr[|es|], tr'[|es'|], |tr[|es|].enqueuers|;
      t.pending == s.pending + [p] && t.netRecv && t.pc == Signalled(s.pc) && t.apps == s.apps &&
      t.enqueuers == s.enqueuers + [Through]
  {
    var n := |tr[|es|].enqueuers|;
    tr', es' := Extend(tr, es, Incoming(p, NONE));
    tr', es' := Extend(tr', es', Enqueue(n));
    tr', es' := Extend(tr', es', Announce(n));
  }

  /** One dispatch of PACKET_ARRIVAL to a handler that takes one packet, up to the look at the queue. */
  lemma TakenOne(tr: seq<State>, es: seq<Event>) returns (tr': seq<State>, es': seq<Event>)
    requires IsRun(tr, es, Moves) && tr[|es|].pc == Arrival && tr[|es|].pending != []
    ensures IsRun(tr', es', Moves) && tr'[0] == tr[0]
    ensures var s, t := tr[|es|], tr'[|es'|];
      t.pending == s.pending[1..] && t.netRecv == s.netRecv && t.apps == s.apps && t.enqueuers == s.enqueuers &&
      t.pc == if t.pending == [] then Top else Reraise
  {
    tr', es' := Extend(tr, es, Fetch);
    tr', es' := Extend(tr', es', Handled);
    tr', es' := Extend(tr', es', LookAgain);
  }

  /**
   The flag does not promise a packet.  A thread that has appended its packet may find it fetched
   before it raises the flag; PACKET_ARRIVAL is then dispatched with an empty queue, which the handlers
   of LISTEN, SYN_SENT and SYN_RCVD do not allow for.
   */
  lemma ArrivalMayFindNothing(s: State, p: Packet, q: Packet) returns (tr: seq<State>, es: seq<Event>)
    requires Initial(s) && s.apps == {}
    ensures IsRun(tr, es, Moves) && tr[0] == s && tr[|es|].pc == Arrival && tr[|es|].pending == []
  {
    tr, es := [s], [];
    tr, es := Arrived(tr, es, p);
    tr, es := Extend(tr, es, TakeArrival);
    tr, es := Extend(tr, es, Incoming(q, NONE));
    tr, es := Extend(tr, es, Enqueue(1));
    tr, es := TakenOne(tr, es);
    tr, es := Extend(tr, es, RaiseAgain);
    tr, es := Extend(tr, es, TakeArrival);
    tr, es := TakenOne(tr, es);
    tr, es := Extend(tr, es, Announce(1));
    tr, es := Extend(tr, es, TakeArrival);
  }
}
