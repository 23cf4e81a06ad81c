/**
 Closing, as far as the code goes: the arrows its handlers take between the synchronized states, and what
 comes of them between two sockets of this kind, where a FIN is sent without ACK and so passed over.
 */
module TcpClose {
  import opened Common
  import opened Tcp
  import opened TcpSend
  import opened TcpNet
  import opened Runs

  /** Where a handler goes on a segment whose ACK is new or not and which has FIN or not. */
  function Arrow(h: State, news: bool, fin: bool): State {
    match h
    case ESTABLISHED => if fin then CLOSE_WAIT else h
    case FIN_WAIT_1 => if fin then CLOSING else if news then FIN_WAIT_2 else h
    case FIN_WAIT_2 => if fin then TIME_WAIT else h
    case CLOSING => if news then TIME_WAIT else h
    case LAST_ACK => if news then CLOSED else h
    case _ => h
  }

  /** News of the peer: an ACK of something sent and not acknowledged yet, up to all that has been sent. */
  predicate News(t: Tcb, p: Segment) {
    t.una < p.ackno && p.ackno <= t.nxt
  }

  /**
   The arrows are those of RFC 793, figure 6, but for one: in FIN_WAIT_1 a FIN leads to CLOSING even if
   it acknowledges ours, since SND.UNA has been moved by the time the ACK is looked at again.
   */
  lemma SegmentArrow(t: Tcb, h: State, p: Segment)
    requires h in {ESTABLISHED, FIN_WAIT_1, FIN_WAIT_2, CLOSE_WAIT, CLOSING, LAST_ACK}
    requires t.state == h && t.using == Idle && p.ack && (h == ESTABLISHED ==> !p.syn)
    requires OnSegment(t, h, p).using == Idle
    ensures OnSegment(t, h, p).state == Arrow(h, News(t, p), p.fin)
    ensures h != LAST_ACK ==> OnSegment(t, h, p).una == if News(t, p) then p.ackno else t.una
  {
  }

  /** A FIN that is heeded closes the receive buffer and sets RCV.NXT to its own number; nothing else closes it. */
  lemma FinCloses(t: Tcb, h: State, p: Segment)
    requires h in {ESTABLISHED, FIN_WAIT_1, FIN_WAIT_2, CLOSE_WAIT, CLOSING}
    requires t.state == h && t.using == Idle && !t.recvClosed
    requires p.ack && (h == ESTABLISHED ==> !p.syn) && OnSegment(t, h, p).using == Idle
    ensures OnSegment(t, h, p).recvClosed <==> p.fin
    ensures p.fin ==> OnSegment(t, h, p).rnxt == p.seqno
    ensures p.fin && p.payload == [] ==>
              OnSegment(t, h, p).out == t.out + [Segment(t.nxt, p.seqno, false, true, false, U16(t.rwnd), [])]
  {
  }

  /** RFC 793, section 3.9, has every FIN of the peer heeded.  In the code it is if and only if it comes with ACK. */
  lemma FinHeededIff(t: Tcb, p: Segment, iss: int)
    requires t.state == ESTABLISHED && t.using == Idle && !t.recvClosed && t.pending == [p] && |t.recv| < 4096
    requires p.fin && !p.syn && p.payload == [] && Acceptable(t.(pending := []), p)
    ensures var r := Step(t, Arrival(iss));
      && (r.state == CLOSE_WAIT <==> p.ack) && (r.recvClosed <==> p.ack)
      && (!p.ack ==> r == t.(pending := []))
  {
    assert t.pending[1..] == [];
    var t1 := OnSegment(t.(pending := []), ESTABLISHED, p);
    assert ArrivalLoop(t1, ESTABLISHED) == t1;
  }

  /** The handlers that take data wait when the receive buffer is full; the others go on. */
  lemma FullBufferStops(t: Tcb, p: Segment, iss: int)
    requires t.state in {ESTABLISHED, FIN_WAIT_1, FIN_WAIT_2, CLOSE_WAIT, CLOSING, LAST_ACK}
    requires t.using == Idle && t.pending == [p] && |t.recv| == 4096
    requires p.ack && !p.syn && !p.fin && p.payload == [] && Acceptable(t.(pending := []), p)
    ensures var r := Step(t, Arrival(iss));
      if t.state in {ESTABLISHED, FIN_WAIT_1, FIN_WAIT_2} then r == t
      else r.pending == [] && r.state == Arrow(t.state, News(t, p), false)
  {
    assert t.pending[1..] == [];
    var t1 := OnSegment(t.(pending := []), t.state, p);
    assert ArrivalLoop(t1, t.state) == t1;
  }

  /** And those others pass over a segment's data. */
  lemma PayloadIgnored(t: Tcb, h: State, p: Segment)
    requires h == CLOSE_WAIT || h == CLOSING || h == LAST_ACK
    ensures OnSegment(t, h, p) == OnSegment(t, h, p.(payload := []))
  {
  }

  /** CLOSE sends what the window allows, then a FIN without ACK at SND.NXT, and closes the buffers. */
  lemma CloseSends(t: Tcb) returns (segs: seq<Segment>)
    requires InRange(t) && t.using == Idle && (t.state == ESTABLISHED || t.state == CLOSE_WAIT)
    ensures var r := Step(t, Closing);
      && t.send == Payloads(segs) + r.send && r.nxt == t.nxt + |Payloads(segs)|
      && |Payloads(segs)| == (if Tcp.Allowed(t) > 0 then Min(|t.send|, t.swnd) else 0)
      && r.out == t.out + segs + [Segment(r.nxt, t.rnxt, false, false, true, U16(t.rwnd), [])]
      && r.recvClosed && r.state == (if t.state == ESTABLISHED then FIN_WAIT_1 else LAST_ACK)
  {
    segs := SendAllSends(t);
  }

  /** What a socket does not serve in a state, or once its buffers are closed, leaves it as it is. */
  lemma Unserved(t: Tcb, e: Event)
    requires
      || (e.Connecting? && t.state != CLOSED)
      || ((e.Sending? || e.Receiving?) && t.state != ESTABLISHED)
      || (e.Closing? && t.state != ESTABLISHED && t.state != CLOSE_WAIT)
      || ((e.AppRead? || e.Resuming?) && t.recvClosed)
      || (e.Arrival? && (t.pending == [] || t.state == CLOSED || t.state == TIME_WAIT))
      || (t.using.Using? && !e.Resuming? && !e.Delivery? && !e.AppWrite? && !e.AppRead?)
    ensures Step(t, e) == t
  {
  }

  /** The application may write from the SYN on, until it or its peer has closed, as much as the buffer holds. */
  lemma WritesIff(t: Tcb, data: seq<byte>)
    ensures Step(t, AppWrite(data)) ==
      if (t.state == SYN_SENT || t.state == SYN_RCVD || t.state == ESTABLISHED || t.state == CLOSE_WAIT) &&
         |t.send| + |data| <= 4096
      then t.(send := t.send + data) else t
  {
  }

  // ---------- two sockets ----------

  /** Any event of either socket, its application or the links, CLOSE included. */
  ghost predicate Happens(net: Net, ev: NetEvent, net': Net) {
    match ev
    case AtA(e) => !e.Delivery? && net' == net.(a := SideStep(net.a, e))
    case AtB(e) => !e.Delivery? && net' == net.(b := SideStep(net.b, e))
    case CarryToA => net.b.tcb.out != [] && net' == Net(Carried(net.b, net.a).1, Carried(net.b, net.a).0)
    case CarryToB => net.a.tcb.out != [] && net' == Net(Carried(net.a, net.b).0, Carried(net.a, net.b).1)
  }

  ghost predicate Unheeded(segs: seq<Segment>) {
    forall p :: p in segs ==> !(p.fin && p.ack)
  }

  /** Its peer's FIN has not reached it. */
  predicate NotTold(h: State) {
    h != CLOSE_WAIT && h != CLOSING && h != TIME_WAIT && h != LAST_ACK
  }

  ghost predicate Deaf(t: Tcb) {
    && Unheeded(t.out) && Unheeded(t.pending) && NotTold(t.state)
    && (t.using.Using? ==> NotTold(t.using.handler) && !t.using.pack.fin)
  }

  lemma AckDeaf(t: Tcb, h: State, p: Segment)
    requires Deaf(t) && NotTold(h)
    ensures Deaf(OnAck(t, h, p)) && OnAck(t, h, p).using == t.using
  {
  }

  lemma WriteDeaf(t: Tcb)
    requires Deaf(t) && t.using.Using?
    ensures Deaf(WriteSome(t))
  {
  }

  lemma UseDeaf(t: Tcb, h: State, p: Segment)
    requires Deaf(t) && t.using == Idle && NotTold(h) && !p.fin
    ensures Deaf(UseData(t, h, p))
  {
    if !t.recvClosed {
      var len := Min(|p.payload|, TCP_BUFFER_SIZE);
      WriteDeaf(t.(using := Using(h, p, p.payload[..len], len)));
    }
  }

  lemma SegmentDeaf(t: Tcb, h: State, p: Segment)
    requires Deaf(t) && t.using == Idle && NotTold(h) && !(p.fin && p.ack)
    ensures Deaf(OnSegment(t, h, p))
  {
    if Heeded(h, p) {
      AckDeaf(t, h, p);
      var t1 := OnAck(t, h, p);
      if t1.state != CLOSED && Receives(h) && |p.payload| > 0 {
        UseDeaf(t1, h, p);
      }
    }
  }

  lemma {:induction false} ArrivalDeaf(t: Tcb, h: State)
    requires Deaf(t) && NotTold(h)
    ensures Deaf(ArrivalLoop(t, h))
    decreases |t.pending|
  {
    if t.pending == [] || t.using.Using? || (Receives(h) && Available(t) == 0) || t.state == CLOSED {
    } else {
      var p, t1 := t.pending[0], t.(pending := t.pending[1..]);
      assert p in t.pending && forall q :: q in t1.pending ==> q in t.pending;
      if Acceptable(t1, p) {
        SegmentDeaf(t1, h, p);
        ArrivalDeaf(OnSegment(t1, h, p), h);
      }
    }
  }

  lemma {:induction false} SendDeaf(t: Tcb, allowed: int)
    requires Deaf(t)
    ensures Deaf(SendLoop(t, allowed))
    decreases |t.send|
  {
    var n := ToSend(t, allowed);
    if |t.send| > 0 && n > 0 {
      SendDeaf(SendOne(t, n), allowed);
    }
  }

  lemma FrontDeaf(t: Tcb, iss: int)
    requires Deaf(t) && !Synchronized(t.state)
    ensures Deaf(OnArrival(t, iss))
  {
    if t.pending != [] {
      assert forall q :: q in t.pending[1..] ==> q in t.pending;
    }
  }

  lemma StepDeaf(s: Side, e: Event)
    requires Deaf(s.tcb) && (e.Delivery? ==> !(e.p.fin && e.p.ack))
    ensures Deaf(SideStep(s, e).tcb)
  {
    var t := s.tcb;
    match e
    case Arrival(iss) => if Synchronized(t.state) { ArrivalDeaf(t, t.state); } else { FrontDeaf(t, iss); }
    case Resuming =>
      if t.using.Using? && !t.recvClosed {
        WriteDeaf(t);
        ArrivalDeaf(WriteSome(t), t.using.handler);
      }
    case Sending => SendDeaf(t, Tcp.Allowed(t));
    case Closing => SendDeaf(t, Tcp.Allowed(t));
    case _ =>
  }

  ghost predicate BothDeaf(net: Net) {
    Deaf(net.a.tcb) && Deaf(net.b.tcb)
  }

  lemma CarriedDeaf(x: Side, y: Side)
    requires Deaf(x.tcb) && Deaf(y.tcb) && x.tcb.out != []
    ensures Deaf(Carried(x, y).0.tcb) && Deaf(Carried(x, y).1.tcb)
  {
    assert x.tcb.out[0] in x.tcb.out && forall q :: q in x.tcb.out[1..] ==> q in x.tcb.out;
    StepDeaf(y, Delivery(x.tcb.out[0]));
  }

  lemma HappensDeaf(net: Net, ev: NetEvent, net': Net)
    requires BothDeaf(net) && Happens(net, ev, net')
    ensures BothDeaf(net')
  {
    match ev
    case AtA(e) => StepDeaf(net.a, e);
    case AtB(e) => StepDeaf(net.b, e);
    case CarryToA => CarriedDeaf(net.b, net.a);
    case CarryToB => CarriedDeaf(net.a, net.b);
  }

  /**
   In every run of two sockets, refusals and closes included, neither ever hears of the other's CLOSE:
   the side that closes gets no further than FIN_WAIT_2, and the other stays as it was.
   */
  lemma CloseGoesUnheard(nets: seq<Net>, evs: seq<NetEvent>, k: nat)
    requires IsRun(nets, evs, Happens) && Start(nets[0]) && k < |nets|
    ensures NotTold(nets[k].a.tcb.state) && NotTold(nets[k].b.tcb.state)
  {
    forall net, ev, net' | BothDeaf(net) && Happens(net, ev, net') ensures BothDeaf(net') {
      HappensDeaf(net, ev, net');
    }
    InvariantHolds(nets, evs, Happens, BothDeaf, k);
  }
}
