/**
 Acknowledgements: which ACK moves SND.UNA and SND.WND, and where two careful senders stand once nothing
 is in flight, which is that everything sent has been acknowledged.
 */
module TcpAck {
  import opened Common
  import opened Tcp
  import opened TcpSend
  import opened TcpNet
  import opened TcpWindow
  import opened Runs

  // ---------- what is acceptable ----------

  /** The numbers of a segment, FIN and SYN counted, and those of the window have one in common. */
  ghost predicate Overlaps(t: Tcb, p: Segment) {
    exists n :: InSegment(p, n) && t.rnxt <= n < t.rnxt + t.rwnd
  }

  predicate InSegment(p: Segment, n: int) {
    p.seqno <= n < p.seqno + (if p.syn then 1 else 0) + (if p.fin then 1 else 0) + |p.payload|
  }

  /**
   RFC 793, section 3.3, for windows that do not pass 2^32: a segment with something in it is acceptable if
   part of it lies in the window, unless the window lies inside the segment, apart from both its ends.
   */
  lemma AcceptableIffOverlaps(t: Tcb, p: Segment)
    requires 0 <= t.rnxt && 0 <= t.rwnd && t.rnxt + t.rwnd < 0x1_0000_0000 && (p.syn || p.fin || p.payload != [])
    ensures Acceptable(t, p) <==>
            Overlaps(t, p) && !(p.seqno < t.rnxt && InSegment(p, t.rnxt + t.rwnd))
  {
    var last := p.seqno + SegLen(p) - 1;
    if Acceptable(t, p) {
      var n := if t.rnxt <= p.seqno then p.seqno else last;
      assert InSegment(p, n) && t.rnxt <= n < t.rnxt + t.rwnd;
    }
  }

  /** A segment with nothing in it is acceptable at the next number, or anywhere in the window. */
  lemma EmptyAcceptableIff(t: Tcb, p: Segment)
    requires 0 <= t.rnxt && 0 <= t.rwnd && t.rnxt + t.rwnd < 0x1_0000_0000 && !p.syn && !p.fin && p.payload == []
    ensures Acceptable(t, p) <==> p.seqno == t.rnxt || t.rnxt <= p.seqno < t.rnxt + t.rwnd
  {
  }

  /** Past 2^32 the right edge wraps and the left one does not: nothing is acceptable. */
  lemma WrappedRefusesAll(t: Tcb, p: Segment)
    requires Is32(t.rnxt) && Is32(t.rwnd) && t.rnxt + t.rwnd >= 0x1_0000_0000
    ensures !Acceptable(t, p)
  {
  }

  // ---------- data taken ----------

  /** A segment with data that fits: RCV.NXT, RCV.WND, the buffer, and the ACK that goes back. */
  lemma DataTaken(t: Tcb, p: Segment)
    requires t.state in {ESTABLISHED, FIN_WAIT_1, FIN_WAIT_2} && t.using == Idle && !t.recvClosed
    requires p.ack && !p.syn && !p.fin && p.payload != []
    requires |t.recv| + (if |p.payload| < 4096 then |p.payload| else 4096) <= 4096
    ensures var n := if |p.payload| < 4096 then |p.payload| else 4096;
      var r := OnSegment(t, t.state, p);
      && r.recv == t.recv + p.payload[..n] && r.using == Idle && (t.state != FIN_WAIT_1 ==> r.state == t.state)
      && r.rnxt == U32(t.rnxt + n) && r.rwnd == U32(t.rwnd - n)
      && r.out == t.out + [Segment(t.nxt, r.rnxt, false, true, false, U16(r.rwnd), [])]
  {
    var n := if |p.payload| < 4096 then |p.payload| else 4096;
    assert p.payload[..n][..n] == p.payload[..n];
  }

  /** After a CLOSE the bytes are thrown away: none is counted, and the ACK says so. */
  lemma DataDiscarded(t: Tcb, p: Segment)
    requires t.state in {ESTABLISHED, FIN_WAIT_1, FIN_WAIT_2} && t.using == Idle && t.recvClosed
    requires p.ack && !p.syn && !p.fin && p.payload != [] && Is32(t.rnxt) && Is32(t.rwnd)
    ensures var r := OnSegment(t, t.state, p);
      && r.recv == t.recv && r.rnxt == t.rnxt && r.rwnd == t.rwnd && r.using == Idle
      && r.out == t.out + [Segment(t.nxt, t.rnxt, false, true, false, U16(t.rwnd), [])]
  {
  }

  lemma UseWaits(t: Tcb, h: State, p: Segment)
    requires !t.recvClosed && |p.payload| <= 4096 && |t.recv| <= 4096 < |t.recv| + |p.payload|
    ensures var r := UseData(t, h, p);
      && |r.recv| == 4096 && r.using.Using? && t.recv + p.payload == r.recv + r.using.rest
      && r.rnxt == t.rnxt && r.rwnd == t.rwnd && r.out == t.out
  {
    assert p.payload[..|p.payload|] == p.payload;
  }

  /** One that does not fit waits with what is left of it, and nothing is acknowledged yet. */
  lemma DataWaits(t: Tcb, p: Segment)
    requires t.state in {ESTABLISHED, FIN_WAIT_1, FIN_WAIT_2} && t.using == Idle && !t.recvClosed
    requires p.ack && !p.syn && |p.payload| <= 4096 && |t.recv| <= 4096 < |t.recv| + |p.payload|
    ensures var r := OnSegment(t, t.state, p);
      && |r.recv| == 4096 && r.using.Using? && t.recv + p.payload == r.recv + r.using.rest
      && r.rnxt == t.rnxt && r.rwnd == t.rwnd && r.out == t.out
  {
    UseWaits(OnAck(t, t.state, p), t.state, p);
  }

  // ---------- one ACK ----------

  /** The next segment without data is refused only at a window that passes 2^32; a closed window takes it. */
  lemma AckRefusedIff(x: Side, y: Side)
    requires Linked(x, y) && Short(x) && y.tcb.using.Idle? && Is32(y.tcb.rwnd)
    requires y.tcb.pending != [] && y.tcb.pending[0].payload == []
    ensures !Acceptable(y.tcb.(pending := y.tcb.pending[1..]), y.tcb.pending[0]) <==>
            y.tcb.rnxt + y.tcb.rwnd >= 0x1_0000_0000
  {
    FirstInFlight(x, y);
    ExpectFits(x, y);
  }

  lemma LoopTakesAck(t: Tcb, p: Segment)
    requires t.state == ESTABLISHED && t.using == Idle && t.pending == [p] && Available(t) > 0
    requires p.ack && !p.syn && !p.fin && p.payload == [] && Acceptable(t.(pending := []), p)
    ensures ArrivalLoop(t, ESTABLISHED) == OnAck(t.(pending := []), ESTABLISHED, p)
  {
    assert t.pending[1..] == [];
    var t' := OnAck(t.(pending := []), ESTABLISHED, p);
    assert ArrivalLoop(t', ESTABLISHED) == t';
  }

  lemma NotAhead(x: Side, y: Side)
    requires Linked(x, y) && Short(x)
    ensures Expect(y) <= x.tcb.nxt && x.tcb.una <= y.tcb.rnxt <= x.tcb.nxt
  {
    ExpectFits(x, y);
  }

  /** An ACK of anything new, of all that was sent too, becomes SND.UNA and brings SND.WND; no other does. */
  lemma AckAdvances(x: Side, y: Side, p: Segment)
    requires Linked(x, y) && Short(x) && Short(y) && y.tcb.state == ESTABLISHED && y.tcb.using == Idle
    requires y.tcb.pending == [p] && p.payload == [] && |y.tcb.recv| < 4096
    requires 0 <= y.tcb.rwnd && y.tcb.rnxt + y.tcb.rwnd < 0x1_0000_0000
    ensures var t, t' := y.tcb, Step(y.tcb, Arrival(1));
      && t'.una == (if t.una < p.ackno then p.ackno else t.una)
      && t'.swnd == (if t.una < p.ackno then p.win else t.swnd)
  {
    FirstInFlight(x, y);
    AckRefusedIff(x, y);
    NotAhead(y, x);
    assert y.tcb.pending[1..] == [];
    LoopTakesAck(y.tcb, p);
  }

  // ---------- what a side has been told ----------

  /** The newest ACK of a flight, or what the last one before it had made of SND.UNA. */
  function LastAck(f: seq<Segment>, una: int): int {
    if f == [] then una else f[|f| - 1].ackno
  }

  /** Once it has taken all that is on its way from y, x knows y's RCV.NXT. */
  ghost predicate Told(x: Side, y: Side) {
    LastAck(Flight(y, x), x.tcb.una) == y.tcb.rnxt
  }

  lemma SameAcks(f: seq<Segment>, segs: seq<Segment>, una: int, n: int)
    requires LastAck(f, una) == n && forall p :: p in segs ==> p.ackno == n
    ensures LastAck(f + segs, una) == n
  {
    if segs != [] {
      assert (f + segs)[|f + segs| - 1] == segs[|segs| - 1] && segs[|segs| - 1] in segs;
    } else {
      assert f + segs == f;
    }
  }

  ghost predicate ToldBoth(net: Net) {
    Told(net.a, net.b) && Told(net.b, net.a)
  }

  lemma AckAccepted(x: Side, y: Side)
    requires Fits(x, y) && Short(x) && y.tcb.using.Idle? && y.tcb.pending != [] && y.tcb.pending[0].payload == []
    ensures Acceptable(y.tcb.(pending := y.tcb.pending[1..]), y.tcb.pending[0])
  {
    NotAhead(x, y);
    AckRefusedIff(x, y);
  }

  /** y takes the oldest segment off its queue: x's news in it is in SND.UNA, and y's in what it sends back. */
  lemma SegmentTold(x: Side, y: Side, t': Tcb)
    requires Fits(x, y) && Short(x) && Short(y) && Told(x, y) && Told(y, x)
    requires y.tcb.state == ESTABLISHED && y.tcb.pending != [] && y.tcb.using.Idle?
    requires t' == OnSegment(y.tcb.(pending := y.tcb.pending[1..]), ESTABLISHED, y.tcb.pending[0])
    ensures Told(x, With(y, t')) && Told(With(y, t'), x)
  {
    var p, t1 := y.tcb.pending[0], y.tcb.(pending := y.tcb.pending[1..]);
    assert p in Flight(x, y) && Plain(p, x);
    NotAhead(y, x);
    PopFlight(x, y, With(y, t1));
    SegmentAsWrite(y.tcb);
    assert OnAck(t1, ESTABLISHED, p).una == if y.tcb.una < p.ackno then p.ackno else y.tcb.una;
    if p.payload == [] {
      assert Flight(x, With(y, t')) == Flight(x, With(y, t1)) && Flight(With(y, t'), x) == Flight(y, x);
    } else {
      DataTold(x, y, t');
    }
  }

  lemma DataTold(x: Side, y: Side, t': Tcb)
    requires Fits(x, y) && Short(x) && y.tcb.state == ESTABLISHED && y.tcb.pending != [] && y.tcb.using.Idle?
    requires y.tcb.pending[0].payload != [] && Plain(y.tcb.pending[0], x)
    requires t' == WriteSome(OnAck(TcpNet.Taken(y.tcb), ESTABLISHED, y.tcb.pending[0]))
    ensures t'.una == OnAck(y.tcb, ESTABLISHED, y.tcb.pending[0]).una && t'.pending == y.tcb.pending[1..]
    ensures Told(x, With(y, t'))
  {
    var y1 := With(y, OnAck(TcpNet.Taken(y.tcb), ESTABLISHED, y.tcb.pending[0]));
    TakenFits(x, y);
    PopFlight(x, y, With(y, TcpNet.Taken(y.tcb)));
    assert y.tcb.pending[0] in Flight(x, y);
    OnAckFits(x, With(y, TcpNet.Taken(y.tcb)), y.tcb.pending[0]);
    WritesAll(x, y1);
    var ack := AckSegment(t', []);
    assert t'.out == y.tcb.out + [ack];
    assert Flight(With(y, t'), x) == Flight(y, x) + [ack];
  }

  lemma {:induction false} ArrivalTold(x: Side, y: Side)
    requires Fits(x, y) && Short(x) && Short(y) && Told(x, y) && Told(y, x)
    requires y.tcb.state == ESTABLISHED && y.tcb.using == Idle
    ensures var y' := With(y, ArrivalLoop(y.tcb, ESTABLISHED)); Told(x, y') && Told(y', x)
    decreases |y.tcb.pending|
  {
    var t := y.tcb;
    if t.pending == [] || Available(t) == 0 {
      assert With(y, t) == y;
    } else {
      var t1 := t.(pending := t.pending[1..]);
      if t.pending[0].payload == [] { AckAccepted(x, y); } else { DataAccepted(x, y); }
      var t' := OnSegment(t1, ESTABLISHED, t.pending[0]);
      SegmentTold(x, y, t');
      SegmentFits(x, y, t');
      ArrivalTold(x, With(y, t'));
    }
  }

  lemma SendTold(x: Side, y: Side)
    requires Fits(x, y) && Short(x) && KeepsWindow(x.tcb) && Told(x, y) && Told(y, x)
    ensures var x' := x.(tcb := SendAll(x.tcb)); Told(x', y) && Told(y, x')
  {
    var x' := x.(tcb := SendAll(x.tcb));
    var segs := SendsWithin(x.tcb);
    assert Flight(x', y) == Flight(x, y) + segs && Flight(y, x') == Flight(y, x);
    SameAcks(Flight(x, y), segs, y.tcb.una, x.tcb.rnxt);
  }

  /** An event that neither takes a segment nor sends one. */
  lemma QuietTold(x: Side, y: Side, e: Event)
    requires Told(x, y) && Told(y, x) && y.tcb.state == ESTABLISHED && y.tcb.using == Idle
    requires !e.Sending? && !e.Arrival? && !e.Closing? && !e.Delivery?
    ensures Told(x, SideStep(y, e)) && Told(SideStep(y, e), x)
  {
    var y' := SideStep(y, e);
    assert Flight(x, y') == Flight(x, y) && Flight(y', x) == Flight(y, x);
  }

  lemma SideTold(x: Side, y: Side, e: Event)
    requires Fits(x, y) && Short(x) && Short(y) && Told(x, y) && Told(y, x)
    requires y.tcb.state == ESTABLISHED && y.tcb.using == Idle
    requires TcpNet.Allowed(e) && (e.Sending? ==> KeepsWindow(y.tcb))
    ensures Told(x, SideStep(y, e)) && Told(SideStep(y, e), x)
  {
    match e
    case Sending => SendTold(y, x);
    case Arrival(iss) => ArrivalTold(x, y);
    case Closing =>
    case Delivery(p) =>
    case _ => QuietTold(x, y, e);
  }

  lemma CarryTold(x: Side, y: Side)
    requires x.tcb.out != [] && Told(x, y) && Told(y, x)
    ensures var (x', y') := Carried(x, y); Told(x', y') && Told(y', x')
  {
    var (x', y') := Carried(x, y);
    assert y.tcb.pending + [x.tcb.out[0]] + x.tcb.out[1..] == Flight(x, y);
    assert Flight(x', y') == Flight(x, y) && Flight(y', x') == Flight(y, x);
  }

  // ---------- every careful run ----------

  ghost predicate Informed(net: Net) {
    Within(net) && (net.a.tcb.state == ESTABLISHED ==> ToldBoth(net))
  }

  /** The ACK that a sends when its SYN is answered, and b's answer, tell each what it has to know. */
  lemma SynSentTold(net: Net, e: Event)
    requires SynAckPhase(net) && e.Arrival? && TcpNet.Allowed(e)
    ensures var net' := net.(a := SideStep(net.a, e)); net'.a.tcb.state == ESTABLISHED ==> ToldBoth(net')
  {
    if net.a.tcb.pending != [] {
      var p :| Flight(net.b, net.a) == [p] && p.syn && p.ack && p.payload == [] && p.ackno == net.a.tcb.nxt &&
                   p.seqno == net.b.tcb.iss && p.win == TCP_BUFFER_SIZE;
      assert net.a.tcb.pending[0] == Flight(net.b, net.a)[0] == p && |Flight(net.b, net.a)| == 1;
      assert net.a.tcb.pending[1..] == [] && net.b.tcb.out == [];
      assert net.a.tcb.out == [] && net.b.tcb.pending == [];
      var t := net.a.tcb.(pending := [], rnxt := U32(p.seqno + 1), irs := p.seqno, una := p.ackno, swnd := p.win);
      var a' := SideStep(net.a, e);
      assert a'.tcb == t.(out := [AckSegment(t, [])], state := ESTABLISHED);
      assert Flight(a', net.b) == [AckSegment(t, [])] && Flight(net.b, a') == [];
    }
  }

  lemma EarlyInformed(net: Net, ev: NetEvent, net': Net)
    requires (Start(net) || SynPhase(net) || SynAckPhase(net)) && Careful(net, ev, net')
    ensures net'.a.tcb.state == ESTABLISHED ==> ToldBoth(net')
  {
    if ev.AtA? && SynAckPhase(net) {
      if ev.e.Arrival? { SynSentTold(net, ev.e); } else { SynSentWaits(net.a, ev.e); }
    } else if ev.AtA? && SynPhase(net) {
      SynSentWaits(net.a, ev.e);
    }
  }

  lemma AckPhaseToldB(net: Net, e: Event)
    requires AckPhase(net) && Fits(net.a, net.b) && ToldBoth(net) && TcpNet.Allowed(e)
    ensures ToldBoth(net.(b := SideStep(net.b, e)))
  {
    var b' := SideStep(net.b, e);
    if e.Arrival? && net.b.tcb.pending != [] {
      FirstInFlight(net.a, net.b);
      SynRcvdTakesAck(net.b, e);
      PopFlight(net.a, net.b, b');
      NotAheadOfSyn(net);
    } else {
      assert Flight(net.a, b') == Flight(net.a, net.b) && Flight(b', net.a) == Flight(net.b, net.a);
    }
  }

  lemma NotAheadOfSyn(net: Net)
    requires AckPhase(net)
    ensures net.a.tcb.rnxt == net.b.tcb.nxt
  {
    assert Tiles(Flight(net.b, net.a), Expect(net.a), net.b.tcb.nxt);
  }

  lemma StepTold(net: Net, ev: NetEvent, net': Net)
    requires Informed(net) && Careful(net, ev, net') && (AckPhase(net) || Established(net))
    requires !(Start(net) || SynPhase(net) || SynAckPhase(net))
    ensures ToldBoth(net')
  {
    match ev
    case AtA(e) => SideTold(net.b, net.a, e);
    case AtB(e) => if AckPhase(net) { AckPhaseToldB(net, e); } else { SideTold(net.a, net.b, e); }
    case CarryToA => CarryTold(net.b, net.a);
    case CarryToB => CarryTold(net.a, net.b);
  }

  lemma StepInformed(net: Net, ev: NetEvent, net': Net)
    requires Informed(net) && Careful(net, ev, net')
    ensures Informed(net')
  {
    StepWithin(net, ev, net');
    if Start(net) || SynPhase(net) || SynAckPhase(net) {
      EarlyInformed(net, ev, net');
    } else {
      StepTold(net, ev, net');
    }
  }

  /**
   On every run of careful senders, once both sides are established: the newest ACK of each side that is
   on its way, or the last one taken, is its RCV.NXT, and when nothing is in flight all is acknowledged.
   */
  lemma CarefulRunAcknowledges(nets: seq<Net>, evs: seq<NetEvent>, k: nat)
    requires IsRun(nets, evs, Careful) && Start(nets[0]) && k < |nets|
    requires nets[k].a.tcb.state == ESTABLISHED && nets[k].b.tcb.state == ESTABLISHED
    ensures ToldBoth(nets[k])
    ensures var a, b := nets[k].a, nets[k].b;
      Flight(a, b) == [] && Flight(b, a) == [] ==>
        a.tcb.una == a.tcb.nxt == b.tcb.rnxt && b.tcb.una == b.tcb.nxt == a.tcb.rnxt
  {
    forall net, ev, net' | Informed(net) && Careful(net, ev, net') ensures Informed(net') {
      StepInformed(net, ev, net');
    }
    InvariantHolds(nets, evs, Careful, Informed, k);
  }
}
