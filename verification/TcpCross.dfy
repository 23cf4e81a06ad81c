/**
 Opening: the arrows of the states before synchronization, and simultaneous opening, in which both sides
 connect before either SYN has arrived.  RFC 793, section 3.4, has both end up established; in this code
 neither ever does.
 */
module TcpCross {
  import opened Common
  import opened Tcp
  import opened TcpNet
  import opened TcpClose
  import opened Runs

  // ---------- the arrows ----------

  /** LISTEN takes any SYN, with ACK or not, and answers it. */
  lemma ListenArrow(t: Tcb, p: Segment, iss: int)
    requires |t.recv| <= 4096 && 0 <= p.seqno < 0xFFFF_FFFF
    ensures var r := ListenArrival(t, p, iss);
      if !p.syn then r == t
      else && r.state == SYN_RCVD && r.iss == r.una == iss && r.nxt == iss + 1 && r.swnd == p.win
           && r.irs == p.seqno && r.rnxt == p.seqno + 1 && r.rwnd == 4096 - |t.recv|
           && r.out == t.out + [Segment(iss, p.seqno + 1, true, true, false, 4096 - |t.recv|, [])]
  {
  }

  /** SYN_SENT: a SYN with an ACK of the SYN establishes; with no ACK, or of nothing new, it leads to SYN_RCVD. */
  lemma SynSentArrow(t: Tcb, p: Segment)
    requires t.una == t.iss && t.nxt == t.iss + 1 && 0 <= p.seqno < 0xFFFF_FFFF && 0 <= t.rwnd < 0x1_0000
    ensures var r := SynSentArrival(t, p);
      if !p.syn || (p.ack && p.ackno != t.una && p.ackno != t.nxt) then r == t
      else
        && r.irs == p.seqno && r.rnxt == p.seqno + 1 && r.swnd == (if p.ack then p.win else t.swnd)
        && if p.ack && p.ackno == t.nxt then
             && r.state == ESTABLISHED && r.una == t.nxt
             && r.out == t.out + [Segment(t.nxt, p.seqno + 1, false, true, false, t.rwnd, [])]
           else
             && r.state == SYN_RCVD && r.una == t.una
             && r.out == t.out + [Segment(t.iss, p.seqno + 1, true, true, false, t.rwnd, [])]
  {
  }

  /** SYN_RCVD: an acceptable ACK of the SYN, or even of nothing, establishes; other acceptable segments are answered. */
  lemma SynRcvdArrow(t: Tcb, p: Segment)
    requires t.nxt == t.una + 1
    ensures var r := SynRcvdArrival(t, p);
      if !Acceptable(t, p) then r == t.(refused := r.refused)
      else if p.ack && (p.ackno == t.una || p.ackno == t.nxt) then
        r == t.(una := t.nxt, swnd := p.win, state := ESTABLISHED)
      else r == t.(swnd := p.win, out := t.out + [Segment(t.nxt, t.rnxt, false, true, false, U16(t.rwnd), [])])
  {
  }

  // ---------- simultaneous opening ----------

  /** A SYN of x's, with or without ACK. */
  ghost predicate OwnSyn(p: Segment, x: Side) {
    p.syn && !p.fin && p.payload == [] && p.seqno == x.tcb.iss
  }

  /** y has had no answer to its SYN, and x's plain SYN is next; or it has had that SYN and waits for an ACK. */
  ghost predicate Stuck(x: Side, y: Side) {
    && 1 <= x.tcb.iss <= 1000 && y.tcb.using == Idle && y.tcb.una == y.tcb.iss && y.tcb.rwnd == TCP_BUFFER_SIZE
    && (forall p :: p in Flight(x, y) ==> OwnSyn(p, x))
    && (if y.tcb.state == SYN_SENT then Flight(x, y) != [] && !Flight(x, y)[0].ack
        else y.tcb.state == SYN_RCVD && y.tcb.rnxt == x.tcb.iss + 1)
  }

  ghost predicate Crossed(net: Net) {
    Stuck(net.a, net.b) && Stuck(net.b, net.a)
  }

  /** In SYN_RCVD the peer's SYN with ACK lies before RCV.NXT: it is not acceptable, and is not answered. */
  lemma SynTooOld(x: Side, y: Side)
    requires Stuck(x, y) && y.tcb.state == SYN_RCVD && y.tcb.pending != []
    ensures var t := y.tcb.(pending := y.tcb.pending[1..]); SynRcvdArrival(t, y.tcb.pending[0]) == t
  {
    assert y.tcb.pending[0] in Flight(x, y);
  }

  lemma PopSticks(x: Side, y: Side, p: Segment)
    requires Stuck(x, y) && Stuck(y, x) && y.tcb.pending != [] && p == y.tcb.pending[0]
    ensures OwnSyn(p, x) && (y.tcb.state == SYN_SENT ==> !p.ack)
    ensures var y1 := With(y, y.tcb.(pending := y.tcb.pending[1..]));
      Flight(y1, x) == Flight(y, x) && forall q :: q in Flight(x, y1) ==> OwnSyn(q, x)
  {
    assert p == Flight(x, y)[0] && p in Flight(x, y);
    PopFlight(x, y, With(y, y.tcb.(pending := y.tcb.pending[1..])));
  }

  lemma AnswerSticks(x: Side, y: Side, p: Segment, t': Tcb)
    requires Stuck(x, y) && Stuck(y, x) && y.tcb.pending != [] && p == y.tcb.pending[0] && y.tcb.state == SYN_SENT
    requires t' == SynSentArrival(y.tcb.(pending := y.tcb.pending[1..]), p)
    ensures Stuck(x, With(y, t')) && Stuck(With(y, t'), x)
  {
    PopSticks(x, y, p);
    var t := y.tcb.(pending := y.tcb.pending[1..], rnxt := x.tcb.iss + 1, irs := p.seqno);
    assert t' == Emit(t, SynAck(t)).(state := SYN_RCVD);
    assert Flight(x, With(y, t')) == Flight(x, With(y, y.tcb.(pending := y.tcb.pending[1..])));
    assert Flight(With(y, t'), x) == Flight(y, x) + [SynAck(t)];
  }

  lemma ArrivalSticks(x: Side, y: Side, iss: int)
    requires Stuck(x, y) && Stuck(y, x)
    ensures Stuck(x, SideStep(y, Arrival(iss))) && Stuck(SideStep(y, Arrival(iss)), x)
  {
    if y.tcb.pending == [] {
      assert SideStep(y, Arrival(iss)) == y;
    } else if y.tcb.state == SYN_RCVD {
      SynTooOld(x, y);
      PopSticks(x, y, y.tcb.pending[0]);
    } else {
      AnswerSticks(x, y, y.tcb.pending[0], SideStep(y, Arrival(iss)).tcb);
    }
  }

  lemma SideSticks(x: Side, y: Side, e: Event)
    requires Stuck(x, y) && Stuck(y, x) && !e.Delivery?
    ensures Stuck(x, SideStep(y, e)) && Stuck(SideStep(y, e), x)
  {
    if e.Arrival? {
      ArrivalSticks(x, y, e.iss);
    } else {
      var y' := SideStep(y, e);
      assert Flight(x, y') == Flight(x, y) && Flight(y', x) == Flight(y, x);
    }
  }

  lemma CarrySticks(x: Side, y: Side)
    requires Stuck(x, y) && Stuck(y, x) && x.tcb.out != []
    ensures var (x', y') := Carried(x, y); Stuck(x', y') && Stuck(y', x')
  {
    var (x', y') := Carried(x, y);
    assert y.tcb.pending + [x.tcb.out[0]] + x.tcb.out[1..] == Flight(x, y);
    assert Flight(x', y') == Flight(x, y) && Flight(y', x') == Flight(y, x);
  }

  lemma StepSticks(net: Net, ev: NetEvent, net': Net)
    requires Crossed(net) && Happens(net, ev, net')
    ensures Crossed(net')
  {
    match ev
    case AtA(e) => SideSticks(net.b, net.a, e);
    case AtB(e) => SideSticks(net.a, net.b, e);
    case CarryToA => CarrySticks(net.b, net.a);
    case CarryToB => CarrySticks(net.a, net.b);
  }

  /** Two connects with no SYN carried in between. */
  lemma ConnectsCross(a: Side, b: Side, m: int, n: int)
    requires Blank(a) && Blank(b) && a.tcb.state == CLOSED && b.tcb.state == CLOSED
    requires 1 <= m <= 1000 && 1 <= n <= 1000
    ensures Crossed(Net(SideStep(a, Connecting(m)), SideStep(b, Connecting(n))))
  {
    var a', b' := SideStep(a, Connecting(m)), SideStep(b, Connecting(n));
    assert Flight(a', b') == [a'.tcb.out[0]] && Flight(b', a') == [b'.tcb.out[0]];
  }

  /** From there, whatever happens, neither side is ever established. */
  lemma CrossedNeverEstablishes(nets: seq<Net>, evs: seq<NetEvent>, k: nat)
    requires IsRun(nets, evs, Happens) && Crossed(nets[0]) && k < |nets|
    ensures nets[k].a.tcb.state == SYN_SENT || nets[k].a.tcb.state == SYN_RCVD
    ensures nets[k].b.tcb.state == SYN_SENT || nets[k].b.tcb.state == SYN_RCVD
  {
    forall net, ev, net' | Crossed(net) && Happens(net, ev, net') ensures Crossed(net') { StepSticks(net, ev, net'); }
    InvariantHolds(nets, evs, Happens, Crossed, k);
  }
}
