/**
 When nothing is refused.  A sender that keeps every call of send_all inside the window it was offered
 never has a data segment refused by its peer, so the delivery theorems of TcpNet hold of every run in
 which each send meets the condition of WindowKeptExactly, which the sender can check beforehand.
 */
module TcpWindow {
  import opened Common
  import opened Tcp
  import opened TcpSend
  import opened TcpNet
  import opened Runs

  /** The right edge of the window y offers, which no write in progress moves. */
  function Edge(y: Side): int {
    y.tcb.rnxt + y.tcb.rwnd
  }

  /** What is left of RCV.WND once the write in progress is over. */
  function Room(y: Side): int {
    y.tcb.rwnd - if y.tcb.using.Using? then y.tcb.using.len else 0
  }

  /** y offers no more than its buffer will hold. */
  ghost predicate Offers(y: Side) {
    0 <= Room(y) && Room(y) + |y.tcb.recv| + |Rest(y)| <= TCP_BUFFER_SIZE
  }

  /** x has sent nothing past the edge of y's window and, whatever ACK of y arrives, takes it to be no farther off. */
  ghost predicate Window(x: Side, y: Side) {
    && Offers(y)
    && 0 <= x.tcb.una <= x.tcb.nxt <= x.tcb.una + 0x1_0000 && 0 <= x.tcb.swnd < 0x1_0000
    && x.tcb.nxt <= Edge(y) && x.tcb.una + x.tcb.swnd <= Edge(y)
    && forall q :: q in Flight(y, x) ==> q.ackno + q.win <= Edge(y)
  }

  ghost predicate Fits(x: Side, y: Side) {
    Linked(x, y) && Window(x, y) && Window(y, x)
  }

  // ---------- what y does ----------

  /** y's buffers change, but neither its send variables, nor its edge, nor what is in flight. */
  lemma WindowStays(x: Side, y: Side, y': Side)
    requires Window(x, y) && Window(y, x) && Offers(y') && Edge(y') >= Edge(y)
    requires y'.tcb.una == y.tcb.una && y'.tcb.nxt == y.tcb.nxt && y'.tcb.swnd == y.tcb.swnd
    requires Flight(y', x) == Flight(y, x) && forall q :: q in Flight(x, y') ==> q in Flight(x, y)
    ensures Window(x, y') && Window(y', x)
  {
  }

  lemma AckFits(x: Side, y: Side)
    requires Fits(x, y) && y.tcb.using.Idle?
    ensures Fits(x, With(y, SendAck(y.tcb)))
  {
    var y' := With(y, SendAck(y.tcb));
    AckKeeps(x, y);
    assert Flight(y', x) == Flight(y, x) + [AckSegment(y.tcb, [])] && Flight(x, y') == Flight(x, y);
  }

  lemma FinishFits(x: Side, y: Side)
    requires Fits(x, y) && Short(x) && y.tcb.using.Using? && y.tcb.using.rest == []
    ensures Fits(x, With(y, Finished(y.tcb)))
  {
    FinishKeeps(x, y);
    ExpectFits(x, y);
    WindowStays(x, y, With(y, Finished(y.tcb)));
  }

  lemma WrittenFits(x: Side, y: Side, n: nat)
    requires Fits(x, y) && y.tcb.using.Using? && n <= |y.tcb.using.rest|
    ensures Fits(x, With(y, TcpNet.Written(y.tcb, n)))
  {
    WrittenKeeps(x, y, n);
    WindowStays(x, y, With(y, TcpNet.Written(y.tcb, n)));
  }

  /** What y has offered it can hold, so the whole rest of a write goes into the buffer and nothing waits. */
  lemma WritesAll(x: Side, y: Side)
    requires Fits(x, y) && y.tcb.using.Using?
    ensures WriteSome(y.tcb) == SendAck(Finished(TcpNet.Written(y.tcb, |y.tcb.using.rest|)))
  {
    var rest := y.tcb.using.rest;
    assert Min(|rest|, if Available(y.tcb) > 0 then Available(y.tcb) else 0) == |rest|;
  }

  lemma WriteSomeFits(x: Side, y: Side)
    requires Fits(x, y) && Short(x) && y.tcb.using.Using?
    ensures Fits(x, With(y, WriteSome(y.tcb)))
    ensures WriteSome(y.tcb).state == y.tcb.state && WriteSome(y.tcb).using == Idle
  {
    var y1 := With(y, TcpNet.Written(y.tcb, |y.tcb.using.rest|));
    WritesAll(x, y);
    WrittenFits(x, y, |y.tcb.using.rest|);
    FinishFits(x, y1);
    AckFits(x, With(y1, Finished(y1.tcb)));
  }

  lemma PopFits(x: Side, y: Side)
    requires Fits(x, y) && y.tcb.pending != [] && y.tcb.pending[0].payload == []
    ensures Fits(x, With(y, y.tcb.(pending := y.tcb.pending[1..])))
  {
    var y' := With(y, y.tcb.(pending := y.tcb.pending[1..]));
    PopKeeps(x, y);
    PopFlight(x, y, y');
    WindowStays(x, y, y');
  }

  lemma TakenFits(x: Side, y: Side)
    requires Fits(x, y) && Short(x) && y.tcb.pending != [] && y.tcb.using.Idle?
    ensures Fits(x, With(y, TcpNet.Taken(y.tcb)))
  {
    var y' := With(y, TcpNet.Taken(y.tcb));
    TakenKeeps(x, y);
    PopFlight(x, y, y');
    ExpectFits(x, y);
    WindowStays(x, y, y');
  }

  /** An ACK taken moves the sender's idea of the edge to where the ACK says. */
  lemma OnAckFits(x: Side, y: Side, p: Segment)
    requires Fits(x, y) && Plain(p, x) && p.ackno + p.win <= Edge(x)
    ensures Fits(x, With(y, OnAck(y.tcb, ESTABLISHED, p)))
  {
    var y' := With(y, OnAck(y.tcb, ESTABLISHED, p));
    OnAckKeeps(x, y, p);
    assert Flight(x, y') == Flight(x, y) && Flight(y', x) == Flight(y, x);
  }

  lemma SegmentFits(x: Side, y: Side, t': Tcb)
    requires Fits(x, y) && Short(x) && y.tcb.state == ESTABLISHED && y.tcb.pending != [] && y.tcb.using.Idle?
    requires t' == OnSegment(y.tcb.(pending := y.tcb.pending[1..]), ESTABLISHED, y.tcb.pending[0])
    ensures Fits(x, With(y, t')) && t'.state == ESTABLISHED && t'.using == Idle
  {
    var p := y.tcb.pending[0];
    assert p in Flight(x, y) && Plain(p, x);
    SegmentAsWrite(y.tcb);
    if p.payload == [] {
      PopFits(x, y);
      OnAckFits(x, With(y, y.tcb.(pending := y.tcb.pending[1..])), p);
    } else {
      TakenFits(x, y);
      OnAckFits(x, With(y, TcpNet.Taken(y.tcb)), p);
      WriteSomeFits(x, With(y, OnAck(TcpNet.Taken(y.tcb), ESTABLISHED, p)));
    }
  }

  /** The next segment with data fits the window. */
  lemma DataAccepted(x: Side, y: Side)
    requires Fits(x, y) && Short(x) && y.tcb.using.Idle? && y.tcb.pending != [] && y.tcb.pending[0].payload != []
    ensures Acceptable(y.tcb.(pending := y.tcb.pending[1..]), y.tcb.pending[0])
  {
    ExpectFits(x, y);
    PopFlight(x, y, With(y, y.tcb.(pending := y.tcb.pending[1..])));
    DataRefusedIff(x, y);
  }

  lemma {:induction false} ArrivalFits(x: Side, y: Side)
    requires Fits(x, y) && Short(x) && y.tcb.state == ESTABLISHED
    ensures Fits(x, With(y, ArrivalLoop(y.tcb, ESTABLISHED)))
    ensures ArrivalLoop(y.tcb, ESTABLISHED).refused == y.tcb.refused
    ensures ArrivalLoop(y.tcb, ESTABLISHED).state == ESTABLISHED
    ensures y.tcb.using == Idle ==> ArrivalLoop(y.tcb, ESTABLISHED).using == Idle
    decreases |y.tcb.pending|
  {
    var t := y.tcb;
    if t.pending == [] || t.using.Using? || Available(t) == 0 {
      assert With(y, t) == y;
    } else {
      var p, t1 := t.pending[0], t.(pending := t.pending[1..]);
      if Acceptable(t1, p) {
        SegmentFits(x, y, OnSegment(t1, ESTABLISHED, p));
        ArrivalFits(x, With(y, OnSegment(t1, ESTABLISHED, p)));
      } else {
        if p.payload != [] { DataAccepted(x, y); }
        PopFits(x, y);
        AckFits(x, With(y, t1));
        assert Refuse(t1, p) == SendAck(t1);
      }
    }
  }

  // ---------- sending ----------

  /** The condition of WindowKeptExactly, on values the sender has at hand. */
  predicate KeepsWindow(t: Tcb) {
    Tcp.Allowed(t) <= 0 || Min(|t.send|, t.swnd) <= Tcp.Allowed(t)
  }

  lemma SendsWithin(t: Tcb) returns (segs: seq<Segment>)
    requires InRange(t) && 0 <= t.una <= t.nxt < t.una + 0x8000_0000 && KeepsWindow(t)
    ensures WindowKept(t, SendAll(t)) && Sent(t, SendAll(t), segs)
    ensures t.nxt <= SendAll(t).nxt && 0 <= SendAll(t).swnd
  {
    segs := SendAllSends(t);
    WindowKeptExactly(t);
  }

  lemma SendFits(x: Side, y: Side)
    requires Fits(x, y) && Short(x) && KeepsWindow(x.tcb) && x.tcb.using.Idle?
    ensures Fits(x.(tcb := SendAll(x.tcb)), y)
  {
    var x' := x.(tcb := SendAll(x.tcb));
    SendKeeps(x, y);
    var segs := SendsWithin(x.tcb);
    assert Flight(x', y) == Flight(x, y) + segs && Flight(y, x') == Flight(y, x);
    SentWindow(x, y, x', segs);
  }

  lemma SentWindow(x: Side, y: Side, x': Side, segs: seq<Segment>)
    requires Window(x, y) && Window(y, x) && x.tcb.using.Idle?
    requires x' == x.(tcb := x.tcb.(send := x'.tcb.send, nxt := x'.tcb.nxt, swnd := x'.tcb.swnd, out := x'.tcb.out))
    requires x'.tcb.nxt + x'.tcb.swnd == x.tcb.nxt + x.tcb.swnd && x.tcb.nxt <= x'.tcb.nxt && 0 <= x'.tcb.swnd
    requires WindowKept(x.tcb, x'.tcb)
    requires Flight(x', y) == Flight(x, y) + segs && Flight(y, x') == Flight(y, x)
    requires forall p :: p in segs ==> p.ackno == x.tcb.rnxt && p.win == U16(x.tcb.rwnd)
    ensures Window(x', y) && Window(y, x')
  {
  }

  // ---------- every event of an established side ----------

  lemma WriteFits(x: Side, y: Side, e: Event)
    requires Fits(x, y) && e.AppWrite?
    ensures Fits(x, SideStep(y, e))
  {
    var y' := SideStep(y, e);
    WriteKeeps(y, x, e);
    assert Flight(x, y') == Flight(x, y) && Flight(y', x) == Flight(y, x);
    WindowStays(x, y, y');
  }

  lemma ReadFits(x: Side, y: Side, e: Event)
    requires Fits(x, y) && e.AppRead?
    ensures Fits(x, SideStep(y, e))
  {
    var y' := SideStep(y, e);
    ReadKeeps(y, x, e);
    assert Flight(x, y') == Flight(x, y) && Flight(y', x) == Flight(y, x);
    WindowStays(x, y, y');
  }

  /** RECEIVE offers all that is free, which is no less than was on offer. */
  lemma ReceiveFits(x: Side, y: Side)
    requires Fits(x, y) && y.tcb.using.Idle?
    ensures Fits(x, With(y, y.tcb.(rwnd := U32(Available(y.tcb)))))
  {
    var y' := With(y, y.tcb.(rwnd := U32(Available(y.tcb))));
    assert Flight(x, y') == Flight(x, y) && Flight(y', x) == Flight(y, x);
    WindowStays(x, y, y');
  }

  lemma SideFits(x: Side, y: Side, e: Event)
    requires Fits(x, y) && Short(x) && Short(y) && y.tcb.state == ESTABLISHED && y.tcb.using == Idle
    requires TcpNet.Allowed(e) && (e.Sending? ==> KeepsWindow(y.tcb))
    ensures Fits(x, SideStep(y, e)) && SideStep(y, e).tcb.refused == y.tcb.refused
    ensures SideStep(y, e).tcb.state == ESTABLISHED && SideStep(y, e).tcb.using == Idle
  {
    match e
    case AppWrite(data) => WriteFits(x, y, e);
    case AppRead(n) => ReadFits(x, y, e);
    case Sending => SendFits(y, x);
    case Receiving => ReceiveFits(x, y);
    case Arrival(iss) => ArrivalFits(x, y);
    case _ =>
  }

  lemma SameFlightsFit(x: Side, y: Side, x': Side, y': Side)
    requires Fits(x, y) && Flight(x', y') == Flight(x, y) && Flight(y', x') == Flight(y, x)
    requires x' == x.(tcb := x.tcb.(out := x'.tcb.out)) && y' == y.(tcb := y.tcb.(pending := y'.tcb.pending))
    ensures Fits(x', y')
  {
    SameFlights(x, y, x', y');
  }

  lemma CarryFits(x: Side, y: Side)
    requires Fits(x, y) && x.tcb.out != []
    ensures Fits(Carried(x, y).0, Carried(x, y).1)
  {
    var (x', y') := Carried(x, y);
    assert y.tcb.pending + [x.tcb.out[0]] + x.tcb.out[1..] == Flight(x, y);
    SameFlightsFit(x, y, x', y');
  }

  // ---------- the handshake ----------

  /** The ACK that establishes x: each side has been offered the whole of the other's empty buffer. */
  lemma AckPhaseFits(x: Side, y: Side, x': Side, p: Segment)
    requires Opening(x, SYN_SENT) && Opening(y, SYN_RCVD) && x.tcb.out == [] && x.tcb.pending == []
    requires y.tcb.out == [] && y.tcb.pending == [] && y.tcb.rnxt == x.tcb.nxt && y.tcb.swnd == TCP_BUFFER_SIZE
    requires p.ackno == x.tcb.nxt && p.seqno == y.tcb.iss && p.syn && p.ack && p.win == TCP_BUFFER_SIZE
    requires x' == x.(tcb := SynSentArrival(x.tcb, p))
    ensures AckPhase(Net(x', y)) && Fits(x', y)
  {
    AckPhaseBegins(x, y, x', p);
    var t := x.tcb.(rnxt := y.tcb.nxt, irs := p.seqno, una := p.ackno, swnd := p.win);
    assert x'.tcb == t.(out := [AckSegment(t, [])], state := ESTABLISHED);
    assert Flight(x', y) == [AckSegment(t, [])] && Flight(y, x') == [];
  }

  lemma SynSentFits(net: Net, e: Event)
    requires SynAckPhase(net) && e.Arrival? && TcpNet.Allowed(e)
    ensures var net' := net.(a := SideStep(net.a, e));
      SynAckPhase(net') || (AckPhase(net') && Fits(net'.a, net'.b))
  {
    if net.a.tcb.pending != [] {
      var p :| Flight(net.b, net.a) == [p] && p.syn && p.ack && p.payload == [] && p.ackno == net.a.tcb.nxt &&
                   p.seqno == net.b.tcb.iss && p.win == TCP_BUFFER_SIZE;
      assert net.a.tcb.pending[0] == Flight(net.b, net.a)[0] == p && |Flight(net.b, net.a)| == 1;
      assert net.a.tcb.pending[1..] == [] && net.b.tcb.out == [];
      assert net.a.tcb.out == [] && net.b.tcb.pending == [];
      AckPhaseFits(With(net.a, net.a.tcb.(pending := [])), net.b, SideStep(net.a, e), p);
    } else {
      assert SideStep(net.a, e) == net.a;
    }
  }

  lemma EstablishedFits(x: Side, y: Side, p: Segment)
    requires Fits(x, y) && y.tcb.nxt <= x.tcb.rnxt && 0 <= p.win < 0x1_0000
    requires p.ackno == y.tcb.nxt && p.ackno + p.win <= Edge(x)
    ensures Fits(x, With(y, y.tcb.(una := y.tcb.nxt, swnd := p.win, state := ESTABLISHED)))
  {
    var y' := With(y, y.tcb.(una := y.tcb.nxt, swnd := p.win, state := ESTABLISHED));
    EstablishedKeeps(x, y, p.win);
    assert Flight(x, y') == Flight(x, y) && Flight(y', x) == Flight(y, x);
  }

  lemma SynRcvdFits(net: Net, e: Event)
    requires AckPhase(net) && Fits(net.a, net.b) && e.Arrival? && net.b.tcb.pending != []
    ensures var b' := SideStep(net.b, e);
      Established(net.(b := b')) && Fits(net.a, b') && b'.tcb.using == Idle && b'.tcb.refused == net.b.tcb.refused
  {
    FirstInFlight(net.a, net.b);
    SynRcvdTakesAck(net.b, e);
    var p := net.b.tcb.pending[0];
    assert p in Flight(net.a, net.b);
    PopFits(net.a, net.b);
    EstablishedFits(net.a, With(net.b, net.b.tcb.(pending := net.b.tcb.pending[1..])), p);
  }

  // ---------- every step, every run ----------

  /** Before data flows nothing is in the way; afterwards both sides fit and no write waits. */
  ghost predicate Within(net: Net) {
    || Start(net) || SynPhase(net) || SynAckPhase(net)
    || (AckPhase(net) && Fits(net.a, net.b))
    || (Established(net) && Fits(net.a, net.b) && net.a.tcb.using == Idle && net.b.tcb.using == Idle)
  }

  /** An established side sends only what stays in the window it was offered. */
  predicate SendsInWindow(y: Side, e: Event) {
    e.Sending? && y.tcb.state == ESTABLISHED && y.tcb.using.Idle? ==> KeepsWindow(y.tcb)
  }

  /** A step of two careful senders, while neither stream is near 2^32 bytes. */
  ghost predicate Careful(net: Net, ev: NetEvent, net': Net) {
    && Enabled(net, ev) && net' == NetStep(net, ev) && Short(net.a) && Short(net.b)
    && (ev.AtA? ==> SendsInWindow(net.a, ev.e)) && (ev.AtB? ==> SendsInWindow(net.b, ev.e))
  }

  ghost predicate NoneRefused(net: Net, net': Net) {
    net'.a.tcb.refused == net.a.tcb.refused && net'.b.tcb.refused == net.b.tcb.refused
  }

  lemma EarlyWithin(net: Net)
    requires Inv(net) && net.a.tcb.state != ESTABLISHED
    ensures Within(net)
  {
  }

  /** A side whose SYN is not answered yet stays where it is. */
  lemma SynSentWaits(y: Side, e: Event)
    requires y.tcb.state == SYN_SENT && y.tcb.using == Idle && TcpNet.Allowed(e)
    requires e.Arrival? ==> y.tcb.pending == []
    ensures SideStep(y, e).tcb.state == SYN_SENT && SideStep(y, e).tcb.refused == y.tcb.refused
  {
  }

  /** So does a side that has had no segment, but for what its application writes. */
  lemma NothingRefused(y: Side, e: Event)
    requires (y.tcb.state == LISTEN || y.tcb.state == SYN_RCVD) && y.tcb.using == Idle && TcpNet.Allowed(e)
    requires e.Arrival? && y.tcb.state == SYN_RCVD ==> y.tcb.pending == []
    ensures SideStep(y, e).tcb.refused == y.tcb.refused
  {
  }

  lemma StartWithin(net: Net, ev: NetEvent, net': Net)
    requires Start(net) && Careful(net, ev, net')
    ensures Within(net') && NoneRefused(net, net')
  {
    StartKeeps(net, ev);
    EarlyWithin(net');
  }

  lemma SynPhaseWithin(net: Net, ev: NetEvent, net': Net)
    requires SynPhase(net) && Careful(net, ev, net')
    ensures Within(net') && NoneRefused(net, net')
  {
    SynPhaseKeeps(net, ev);
    match ev
    case AtA(e) => SynSentWaits(net.a, e);
    case AtB(e) => NothingRefused(net.b, e);
    case _ =>
    EarlyWithin(net');
  }

  lemma SynAckArrival(net: Net, e: Event)
    requires SynAckPhase(net) && e.Arrival? && TcpNet.Allowed(e)
    ensures var net' := net.(a := SideStep(net.a, e)); Within(net') && NoneRefused(net, net')
  {
    SynSentFits(net, e);
  }

  lemma SynAckPhaseWithin(net: Net, ev: NetEvent, net': Net)
    requires SynAckPhase(net) && Careful(net, ev, net')
    ensures Within(net') && NoneRefused(net, net')
  {
    assert net.a.tcb.out == [] && net.b.tcb.pending == [];
    if ev.AtA? && ev.e.Arrival? {
      SynAckArrival(net, ev.e);
    } else {
      SynAckPhaseKeeps(net, ev);
      match ev
      case AtA(e) => SynSentWaits(net.a, e);
      case AtB(e) => NothingRefused(net.b, e);
      case _ =>
      EarlyWithin(net');
    }
  }

  lemma AckPhaseWithinB(net: Net, e: Event)
    requires AckPhase(net) && Fits(net.a, net.b) && TcpNet.Allowed(e)
    ensures var net' := net.(b := SideStep(net.b, e)); Within(net') && NoneRefused(net, net')
  {
    if e.Arrival? && net.b.tcb.pending != [] {
      SynRcvdFits(net, e);
    } else if e.AppWrite? {
      AckPhaseWrites(net, e);
      WriteFits(net.a, net.b, e);
    } else {
      assert SideStep(net.b, e) == net.b;
    }
  }

  lemma AckPhaseWithin(net: Net, ev: NetEvent, net': Net)
    requires AckPhase(net) && Fits(net.a, net.b) && Careful(net, ev, net')
    ensures Within(net') && NoneRefused(net, net')
  {
    assert net.b.tcb.out == [];
    match ev
    case AtA(e) =>
      AckPhaseKeepsA(net, e);
      SideFits(net.b, net.a, e);
    case AtB(e) => AckPhaseWithinB(net, e);
    case CarryToA =>
    case CarryToB =>
      AckPhaseCarries(net);
      CarryFits(net.a, net.b);
  }

  lemma EstablishedWithin(net: Net, ev: NetEvent, net': Net)
    requires Established(net) && Fits(net.a, net.b) && net.a.tcb.using == Idle && net.b.tcb.using == Idle
    requires Careful(net, ev, net')
    ensures Within(net') && NoneRefused(net, net')
  {
    match ev
    case AtA(e) => SideFits(net.b, net.a, e);
    case AtB(e) => SideFits(net.a, net.b, e);
    case CarryToA => CarryFits(net.b, net.a);
    case CarryToB => CarryFits(net.a, net.b);
  }

  lemma StepWithin(net: Net, ev: NetEvent, net': Net)
    requires Within(net) && Careful(net, ev, net')
    ensures Within(net') && NoneRefused(net, net')
  {
    if Start(net) {
      StartWithin(net, ev, net');
    } else if SynPhase(net) {
      SynPhaseWithin(net, ev, net');
    } else if SynAckPhase(net) {
      SynAckPhaseWithin(net, ev, net');
    } else if AckPhase(net) && Fits(net.a, net.b) {
      AckPhaseWithin(net, ev, net');
    } else {
      EstablishedWithin(net, ev, net');
    }
  }

  /** On every run of careful senders no data segment is refused: the run is one of those that deliver. */
  lemma CarefulRunMoves(nets: seq<Net>, evs: seq<NetEvent>)
    requires IsRun(nets, evs, Careful) && Start(nets[0])
    ensures IsRun(nets, evs, Moves)
  {
    forall net, ev, net' | Within(net) && Careful(net, ev, net') ensures Within(net') { StepWithin(net, ev, net'); }
    forall i | 0 <= i < |evs| ensures Moves(nets[i], evs[i], nets[i + 1]) {
      InvariantHolds(nets, evs, Careful, Within, i);
      assert Careful(nets[i], evs[i], nets[i + 1]);
      StepWithin(nets[i], evs[i], nets[i + 1]);
    }
  }

  /**
   On every run in which both sides keep each send_all inside the window, what each has been given is a
   prefix of what the other wrote, nothing has been refused, and no write to a receive buffer waits.
   */
  lemma CarefulRunDelivers(nets: seq<Net>, evs: seq<NetEvent>, k: nat)
    requires IsRun(nets, evs, Careful) && Start(nets[0]) && k < |nets|
    ensures Delivers(nets[k].a, nets[k].b) && Delivers(nets[k].b, nets[k].a)
    ensures NoneRefused(nets[0], nets[k])
    ensures nets[k].a.tcb.using == Idle && nets[k].b.tcb.using == Idle
  {
    CarefulRunMoves(nets, evs);
    RunDelivers(nets, evs, k);
    forall net, ev, net' | Within(net) && Careful(net, ev, net') ensures Within(net') { StepWithin(net, ev, net'); }
    InvariantHolds(nets, evs, Careful, Within, k);
    NoneRefusedYet(nets, evs, k);
  }

  lemma {:induction false} NoneRefusedYet(nets: seq<Net>, evs: seq<NetEvent>, k: nat)
    requires IsRun(nets, evs, Moves) && k < |nets|
    ensures NoneRefused(nets[0], nets[k])
  {
    if k > 0 {
      NoneRefusedYet(nets, evs, k - 1);
      assert Moves(nets[k - 1], evs[k - 1], nets[k - 1 + 1]);
    }
  }
}
