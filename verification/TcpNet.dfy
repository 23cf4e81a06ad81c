/**
 Two sockets and the two FIFO links between them, from the handshake through ESTABLISHED.
 Every run in which no data segment is refused delivers the stream: what one application wrote is
 what the other has read, then what lies in the receive buffer, then what is still on its way.
 */
module TcpNet {
  import opened Common
  import opened Tcp
  import opened TcpSend
  import opened Runs

  /** A socket with all its application has written to it and read from it so far. */
  datatype Side = Side(tcb: Tcb, written: seq<byte>, got: seq<byte>)

  datatype Net = Net(a: Side, b: Side)

  datatype NetEvent =
    | AtA(e: Event)
    | AtB(e: Event)
    | CarryToA
    | CarryToB

  function SideStep(s: Side, e: Event): Side {
    Side(Step(s.tcb, e),
         if e.AppWrite? && MayWrite(s.tcb, e.data) then s.written + e.data else s.written,
         if e.AppRead? && !s.tcb.recvClosed then s.got + s.tcb.recv[..Min(e.n, |s.tcb.recv|)] else s.got)
  }

  /** The link hands the oldest segment sent by x to y. */
  function Carried(x: Side, y: Side): (Side, Side)
    requires x.tcb.out != []
  {
    (x.(tcb := x.tcb.(out := x.tcb.out[1..])), SideStep(y, Delivery(x.tcb.out[0])))
  }

  /** Buffers stay open: no CLOSE.  Only the links deliver, and initial numbers are rand() % 1000 + 1. */
  predicate Allowed(e: Event) {
    && !e.Closing? && !e.Delivery?
    && (e.Connecting? ==> 1 <= e.iss <= 1000)
    && (e.Arrival? ==> 1 <= e.iss <= 1000)
  }

  predicate Enabled(net: Net, ev: NetEvent) {
    match ev
    case AtA(e) => Allowed(e)
    case AtB(e) => Allowed(e)
    case CarryToA => net.b.tcb.out != []
    case CarryToB => net.a.tcb.out != []
  }

  function NetStep(net: Net, ev: NetEvent): Net
    requires Enabled(net, ev)
  {
    match ev
    case AtA(e) => net.(a := SideStep(net.a, e))
    case AtB(e) => net.(b := SideStep(net.b, e))
    case CarryToA => var (b, a) := Carried(net.b, net.a); Net(a, b)
    case CarryToB => var (a, b) := Carried(net.a, net.b); Net(a, b)
  }

  // ---------- the invariant ----------

  /** The segments from x that y has yet to process, oldest first. */
  function Flight(x: Side, y: Side): seq<Segment> {
    y.tcb.pending + x.tcb.out
  }

  function Rest(y: Side): seq<byte> {
    if y.tcb.using.Using? then y.tcb.using.rest else []
  }

  /** RCV.NXT as it will be once the write in progress is over. */
  function Expect(y: Side): int {
    y.tcb.rnxt + if y.tcb.using.Using? then y.tcb.using.len else 0
  }

  /** The bytes written at x: read at y, in y's buffer, being written to it, in flight, not yet sent. */
  ghost predicate Bytes(x: Side, y: Side) {
    x.written == y.got + y.tcb.recv + Rest(y) + Payloads(Flight(x, y)) + x.tcb.send
  }

  /** A segment of an established connection from x, with an ACK number not past x's RCV.NXT. */
  ghost predicate Plain(p: Segment, x: Side) {
    p.ack && !p.syn && !p.fin && |p.payload| <= TCP_MSS && 0 <= p.win < 0x1_0000 && p.ackno <= x.tcb.rnxt
  }

  /** From x to y the stream and the sequence numbers are unbroken, and y's ACKs tell the truth. */
  ghost predicate Stream(x: Side, y: Side) {
    && Bytes(x, y)
    && Tiles(Flight(x, y), Expect(y), x.tcb.nxt)
    && (forall p :: p in Flight(x, y) ==> Plain(p, x))
    && x.tcb.una <= y.tcb.rnxt
  }

  ghost predicate Good(x: Side) {
    && x.tcb.nxt == x.tcb.iss + 1 + |x.written| - |x.tcb.send|
    && 1 <= x.tcb.iss <= 1000
    && 0 <= x.tcb.swnd < 0x8000_0000 && 0 <= x.tcb.rnxt
    && !x.tcb.recvClosed
    && (x.tcb.using.Using? ==> x.tcb.using.handler == ESTABLISHED && !x.tcb.using.pack.fin && 0 <= x.tcb.using.len)
  }

  /** Both ways, whatever the states of the two sockets. */
  ghost predicate Linked(x: Side, y: Side) {
    Good(x) && Good(y) && Stream(x, y) && Stream(y, x)
  }

  /** No run of ours reaches the end of the 32-bit sequence space. */
  ghost predicate Short(x: Side) {
    |x.written| < 0xFFFF_0000
  }

  // ---------- application events ----------

  lemma WriteKeeps(x: Side, y: Side, e: Event)
    requires Linked(x, y) && e.AppWrite?
    ensures Linked(SideStep(x, e), y)
  {
    var x' := SideStep(x, e);
    assert Flight(x', y) == Flight(x, y) && Flight(y, x') == Flight(y, x);
  }

  lemma ReadKeeps(x: Side, y: Side, e: Event)
    requires Linked(x, y) && e.AppRead?
    ensures Linked(SideStep(x, e), y)
  {
    var x' := SideStep(x, e);
    assert Flight(x', y) == Flight(x, y) && Flight(y, x') == Flight(y, x);
    assert x'.got + x'.tcb.recv == x.got + x.tcb.recv;
  }

  /** It does not matter where in a flight the wire ends and the queue begins. */
  lemma SameFlights(x: Side, y: Side, x': Side, y': Side)
    requires Linked(x, y) && Flight(x', y') == Flight(x, y) && Flight(y', x') == Flight(y, x)
    requires x' == x.(tcb := x.tcb.(out := x'.tcb.out)) && y' == y.(tcb := y.tcb.(pending := y'.tcb.pending))
    ensures Linked(x', y')
  {
  }

  lemma CarryKeeps(x: Side, y: Side)
    requires Linked(x, y) && x.tcb.out != []
    ensures Linked(Carried(x, y).0, Carried(x, y).1)
  {
    var (x', y') := Carried(x, y);
    assert y.tcb.pending + [x.tcb.out[0]] + x.tcb.out[1..] == Flight(x, y);
    SameFlights(x, y, x', y');
  }

  /** x puts segs on the wire, which carry the front of its send buffer. */
  lemma SentKeeps(x: Side, y: Side, r: Tcb, segs: seq<Segment>)
    requires Linked(x, y)
    requires r == x.tcb.(send := r.send, nxt := r.nxt, swnd := r.swnd, out := x.tcb.out + segs)
    requires Tiles(segs, x.tcb.nxt, r.nxt) && x.tcb.send == Payloads(segs) + r.send
    requires r.nxt == x.tcb.nxt + |Payloads(segs)| && 0 <= r.swnd < 0x8000_0000
    requires forall p :: p in segs ==> Plain(p, x)
    ensures Linked(x.(tcb := r), y)
  {
    var x' := x.(tcb := r);
    var f := Flight(x, y);
    assert Flight(x', y) == f + segs && Flight(y, x') == Flight(y, x);
    TilesAppend(f, segs, Expect(y), x.tcb.nxt, r.nxt);
    PayloadsMove(y.got + y.tcb.recv + Rest(y), f, segs, x.tcb.send, r.send);
  }

  lemma PayloadsMove(front: seq<byte>, f: seq<Segment>, segs: seq<Segment>, send: seq<byte>, rest: seq<byte>)
    requires send == Payloads(segs) + rest
    ensures front + Payloads(f) + send == front + Payloads(f + segs) + rest
  {
    PayloadsAppend(f, segs);
  }

  lemma SendKeeps(x: Side, y: Side)
    requires Linked(x, y) && Short(x)
    ensures Linked(x.(tcb := SendAll(x.tcb)), y)
  {
    var segs := SendAllSends(x.tcb);
    SentKeeps(x, y, SendAll(x.tcb), segs);
  }

  // ---------- arriving segments: y processes what x sent ----------

  function With(y: Side, t: Tcb): Side {
    y.(tcb := t)
  }

  lemma AckKeeps(x: Side, y: Side)
    requires Linked(x, y)
    ensures Linked(x, With(y, SendAck(y.tcb)))
  {
    var ack := AckSegment(y.tcb, []);
    OneSegment(ack, y.tcb.nxt);
    SentKeeps(y, x, SendAck(y.tcb), [ack]);
  }

  /** The bytes y still expects end where x's SND.NXT stands, so nothing wraps. */
  lemma ExpectFits(x: Side, y: Side)
    requires Linked(x, y) && Short(x)
    ensures Expect(y) + |Payloads(Flight(x, y))| == x.tcb.nxt
    ensures Expect(y) < 0x1_0000_0000
  {
    TilesLength(Flight(x, y), Expect(y), x.tcb.nxt);
  }

  /** RCV.NXT moves past the bytes written and the write is over. */
  function Finished(t: Tcb): Tcb
    requires t.using.Using?
  {
    t.(rnxt := U32(t.rnxt + t.using.len), rwnd := U32(t.rwnd - t.using.len), using := Idle)
  }

  lemma FinishKeeps(x: Side, y: Side)
    requires Linked(x, y) && Short(x) && y.tcb.using.Using? && y.tcb.using.rest == []
    ensures Linked(x, With(y, Finished(y.tcb)))
  {
    ExpectFits(x, y);
    var y' := With(y, Finished(y.tcb));
    assert Flight(x, y') == Flight(x, y) && Flight(y', x) == Flight(y, x);
    assert Expect(y') == Expect(y);
  }

  /** n bytes of the write in progress go into the buffer. */
  function Written(t: Tcb, n: nat): Tcb
    requires t.using.Using? && n <= |t.using.rest|
  {
    t.(recv := t.recv + t.using.rest[..n], using := t.using.(rest := t.using.rest[n..]))
  }

  lemma WrittenKeeps(x: Side, y: Side, n: nat)
    requires Linked(x, y) && y.tcb.using.Using? && n <= |y.tcb.using.rest|
    ensures Linked(x, With(y, Written(y.tcb, n)))
  {
    var y' := With(y, Written(y.tcb, n));
    assert Flight(x, y') == Flight(x, y) && Flight(y', x) == Flight(y, x);
    assert y'.tcb.recv + Rest(y') == y.tcb.recv + Rest(y);
  }

  lemma WriteSomeKeeps(x: Side, y: Side)
    requires Linked(x, y) && Short(x) && y.tcb.using.Using?
    ensures Linked(x, With(y, WriteSome(y.tcb))) && WriteSome(y.tcb).state == y.tcb.state
  {
    var Using(h, p, rest, len) := y.tcb.using;
    var n := Min(|rest|, if Available(y.tcb) > 0 then Available(y.tcb) else 0);
    WrittenKeeps(x, y, n);
    var y1 := With(y, Written(y.tcb, n));
    if n == |rest| {
      FinishKeeps(x, y1);
      AckKeeps(x, With(y1, Finished(y1.tcb)));
      assert WriteSome(y.tcb) == SendAck(Finished(y1.tcb));
    } else {
      assert WriteSome(y.tcb) == y1.tcb;
    }
  }

  lemma PopFlight(x: Side, y: Side, y': Side)
    requires y.tcb.pending != [] && y'.tcb.pending == y.tcb.pending[1..] && y'.tcb.out == y.tcb.out
    ensures Flight(x, y) == [y.tcb.pending[0]] + Flight(x, y') && Flight(y', x) == Flight(y, x)
    ensures Payloads(Flight(x, y)) == y.tcb.pending[0].payload + Payloads(Flight(x, y'))
  {
    assert Flight(x, y)[1..] == Flight(x, y');
  }

  /** y takes the oldest segment, which brings no data, off its queue. */
  lemma PopKeeps(x: Side, y: Side)
    requires Linked(x, y) && y.tcb.pending != [] && y.tcb.pending[0].payload == []
    ensures Linked(x, With(y, y.tcb.(pending := y.tcb.pending[1..])))
  {
    var y' := With(y, y.tcb.(pending := y.tcb.pending[1..]));
    PopFlight(x, y, y');
    assert Payloads(Flight(x, y)) == Payloads(Flight(x, y'));
  }

  /** y takes the oldest segment off its queue to write its data. */
  function Taken(t: Tcb): Tcb
    requires t.pending != []
  {
    var p := t.pending[0];
    t.(pending := t.pending[1..], using := Using(ESTABLISHED, p, p.payload, |p.payload|))
  }

  lemma TakenKeeps(x: Side, y: Side)
    requires Linked(x, y) && y.tcb.pending != [] && y.tcb.using.Idle?
    ensures Linked(x, With(y, Taken(y.tcb)))
  {
    var y' := With(y, Taken(y.tcb));
    var p := y.tcb.pending[0];
    PopFlight(x, y, y');
    assert Plain(p, x);
    assert Rest(y') + Payloads(Flight(x, y')) == Payloads(Flight(x, y));
  }

  lemma OnAckKeeps(x: Side, y: Side, p: Segment)
    requires Linked(x, y) && Plain(p, x)
    ensures Linked(x, With(y, OnAck(y.tcb, ESTABLISHED, p)))
  {
    var y' := With(y, OnAck(y.tcb, ESTABLISHED, p));
    assert Flight(x, y') == Flight(x, y) && Flight(y', x) == Flight(y, x);
  }

  /** The handler of ESTABLISHED, for a segment with data and one without. */
  lemma SegmentAsWrite(t: Tcb)
    requires t.state == ESTABLISHED && t.pending != [] && !t.recvClosed
    requires var p := t.pending[0]; p.ack && !p.syn && !p.fin && |p.payload| <= TCP_MSS
    ensures OnSegment(t.(pending := t.pending[1..]), ESTABLISHED, t.pending[0]) ==
            if t.pending[0].payload == [] then OnAck(t.(pending := t.pending[1..]), ESTABLISHED, t.pending[0])
            else WriteSome(OnAck(Taken(t), ESTABLISHED, t.pending[0]))
  {
    var p, t1 := t.pending[0], t.(pending := t.pending[1..]);
    if p.payload != [] {
      assert p.payload[..|p.payload|] == p.payload;
      assert OnAck(Taken(t), ESTABLISHED, p) ==
             OnAck(t1, ESTABLISHED, p).(using := Using(ESTABLISHED, p, p.payload, |p.payload|));
    }
  }

  /** y processes the oldest segment on its queue and does not refuse data. */
  lemma SegmentKeeps(x: Side, y: Side, t': Tcb)
    requires Linked(x, y) && Short(x) && y.tcb.state == ESTABLISHED && y.tcb.pending != [] && y.tcb.using.Idle?
    requires t' == OnSegment(y.tcb.(pending := y.tcb.pending[1..]), ESTABLISHED, y.tcb.pending[0])
    ensures Linked(x, With(y, t')) && t'.state == ESTABLISHED
  {
    var p := y.tcb.pending[0];
    assert p in Flight(x, y) && Plain(p, x);
    SegmentAsWrite(y.tcb);
    if p.payload == [] {
      PopKeeps(x, y);
      OnAckKeeps(x, With(y, y.tcb.(pending := y.tcb.pending[1..])), p);
    } else {
      TakenKeeps(x, y);
      OnAckKeeps(x, With(y, Taken(y.tcb)), p);
      WriteSomeKeeps(x, With(y, OnAck(Taken(y.tcb), ESTABLISHED, p)));
    }
  }

  lemma {:induction false} ArrivalKeeps(x: Side, y: Side)
    requires Linked(x, y) && Short(x) && y.tcb.state == ESTABLISHED
    requires ArrivalLoop(y.tcb, ESTABLISHED).refused == y.tcb.refused
    ensures Linked(x, With(y, ArrivalLoop(y.tcb, ESTABLISHED)))
    ensures ArrivalLoop(y.tcb, ESTABLISHED).state == ESTABLISHED
    decreases |y.tcb.pending|
  {
    var t := y.tcb;
    if t.pending == [] || t.using.Using? || Available(t) == 0 {
      assert With(y, t) == y;
    } else {
      var p, t1 := t.pending[0], t.(pending := t.pending[1..]);
      if Acceptable(t1, p) {
        SegmentKeeps(x, y, OnSegment(t1, ESTABLISHED, p));
        ArrivalKeeps(x, With(y, OnSegment(t1, ESTABLISHED, p)));
      } else {
        PopKeeps(x, y);
        AckKeeps(x, With(y, t1));
        RefusedUnseen(x, With(y, SendAck(t1)), Refuse(t1, p).refused);
      }
    }
  }

  lemma RefusedUnseen(x: Side, y: Side, n: nat)
    requires Linked(x, y)
    ensures Linked(x, With(y, y.tcb.(refused := n)))
  {
    var y' := With(y, y.tcb.(refused := n));
    assert Flight(x, y') == Flight(x, y) && Flight(y', x) == Flight(y, x);
  }

  // ---------- the handshake ----------

  ghost predicate Blank(s: Side) {
    && s.tcb.send == [] && s.tcb.recv == [] && s.written == [] && s.got == []
    && s.tcb.pending == [] && s.tcb.out == [] && s.tcb.using == Idle && !s.tcb.recvClosed
    && 0 <= s.tcb.swnd < 0x1_0000
  }

  /** One side is about to connect, the other listens. */
  ghost predicate Start(net: Net) {
    Blank(net.a) && Blank(net.b) && net.a.tcb.state == CLOSED && net.b.tcb.state == LISTEN
  }

  /** A side that has sent its SYN and holds what its application has written since. */
  ghost predicate Opening(x: Side, s: State) {
    && x.tcb.state == s && 1 <= x.tcb.iss <= 1000
    && x.tcb.una == x.tcb.iss && x.tcb.nxt == x.tcb.iss + 1 && x.tcb.rwnd == TCP_BUFFER_SIZE
    && x.written == x.tcb.send && x.got == [] && x.tcb.recv == []
    && x.tcb.using == Idle && !x.tcb.recvClosed && 0 <= x.tcb.swnd < 0x1_0000
  }

  /** a's SYN is on its way to the listening b. */
  ghost predicate SynPhase(net: Net) {
    && Opening(net.a, SYN_SENT) && Blank(net.b.(tcb := net.b.tcb.(pending := [])))
    && net.b.tcb.state == LISTEN && net.a.tcb.pending == []
    && exists p :: Flight(net.a, net.b) == [p] && p.syn && !p.ack && p.payload == [] &&
                   p.seqno == net.a.tcb.iss && p.win == TCP_BUFFER_SIZE
  }

  /** b's SYN with ACK is on its way back. */
  ghost predicate SynAckPhase(net: Net) {
    && Opening(net.a, SYN_SENT) && Opening(net.b, SYN_RCVD)
    && Flight(net.a, net.b) == [] && net.b.tcb.rnxt == net.a.tcb.nxt && net.b.tcb.swnd == TCP_BUFFER_SIZE
    && exists p :: Flight(net.b, net.a) == [p] && p.syn && p.ack && p.payload == [] && p.ackno == net.a.tcb.nxt &&
                   p.seqno == net.b.tcb.iss && p.win == TCP_BUFFER_SIZE
  }

  /** a may send; b still waits for the ACK, which is the first thing in flight to it. */
  ghost predicate AckPhase(net: Net) {
    && Linked(net.a, net.b) && net.a.tcb.state == ESTABLISHED && net.a.tcb.using == Idle
    && Opening(net.b, SYN_RCVD) && Flight(net.b, net.a) == []
    && Flight(net.a, net.b) != [] && net.b.tcb.rnxt == net.a.tcb.iss + 1
    && Flight(net.a, net.b)[0].payload == [] && Flight(net.a, net.b)[0].ackno == net.b.tcb.nxt
  }

  ghost predicate Established(net: Net) {
    Linked(net.a, net.b) && net.a.tcb.state == ESTABLISHED && net.b.tcb.state == ESTABLISHED
  }

  ghost predicate Inv(net: Net) {
    Start(net) || SynPhase(net) || SynAckPhase(net) || AckPhase(net) || Established(net)
  }

  lemma ConnectStarts(net: Net, e: Event)
    requires Start(net) && e.Connecting? && Allowed(e)
    ensures SynPhase(net.(a := SideStep(net.a, e)))
    ensures SideStep(net.a, e).tcb.out == [Segment(e.iss, e.iss + 1, true, false, false, 4096, [])]
  {
    var a' := SideStep(net.a, e);
    assert Flight(a', net.b) == [a'.tcb.out[0]];
  }

  lemma ListenAnswers(net: Net, e: Event)
    requires SynPhase(net) && e.Arrival? && Allowed(e)
    ensures SynPhase(net.(b := SideStep(net.b, e))) || SynAckPhase(net.(b := SideStep(net.b, e)))
    ensures SideStep(net.b, e).tcb.state == SYN_RCVD ==> SideStep(net.b, e).tcb.irs == net.a.tcb.iss
  {
    var b' := SideStep(net.b, e);
    if net.b.tcb.pending != [] {
      var p :| Flight(net.a, net.b) == [p];
      assert net.b.tcb.pending[0] == Flight(net.a, net.b)[0] == p;
      assert |Flight(net.a, net.b)| == 1;
      assert net.b.tcb.pending == [p] && net.a.tcb.out == [];
      assert Flight(net.a, b') == [];
      assert Flight(b', net.a) == [b'.tcb.out[0]];
    }
  }

  /** What the ACK of the handshake establishes. */
  lemma AckPhaseBegins(x: Side, y: Side, x': Side, p: Segment)
    requires Opening(x, SYN_SENT) && Opening(y, SYN_RCVD) && x.tcb.out == [] && x.tcb.pending == []
    requires y.tcb.out == [] && y.tcb.pending == [] && y.tcb.rnxt == x.tcb.nxt
    requires p.ackno == x.tcb.nxt && p.seqno == y.tcb.iss && p.syn && p.ack && 0 <= p.win < 0x1_0000
    requires x' == x.(tcb := SynSentArrival(x.tcb, p))
    ensures AckPhase(Net(x', y))
  {
    var t := x.tcb.(rnxt := y.tcb.nxt, irs := p.seqno, una := p.ackno, swnd := p.win);
    var ack := AckSegment(t, []);
    assert x'.tcb == t.(out := [ack], state := ESTABLISHED);
    assert Flight(x', y) == [ack] && Flight(y, x') == [];
    OneSegment(ack, x.tcb.nxt);
    assert Linked(x', y);
  }

  lemma SynSentAnswers(net: Net, e: Event)
    requires SynAckPhase(net) && e.Arrival? && Allowed(e)
    ensures SynAckPhase(net.(a := SideStep(net.a, e))) || AckPhase(net.(a := SideStep(net.a, e)))
    ensures SideStep(net.a, e).tcb.state == ESTABLISHED ==> SideStep(net.a, e).tcb.irs == net.b.tcb.iss
  {
    if net.a.tcb.pending != [] {
      var p :| Flight(net.b, net.a) == [p] && p.syn && p.ack && p.payload == [] && p.ackno == net.a.tcb.nxt &&
                   p.seqno == net.b.tcb.iss && p.win == TCP_BUFFER_SIZE;
      assert net.a.tcb.pending[0] == Flight(net.b, net.a)[0] == p && |Flight(net.b, net.a)| == 1;
      assert net.a.tcb.pending[1..] == [] && net.b.tcb.out == [];
      assert net.a.tcb.out == [] && net.b.tcb.pending == [];
      AckPhaseBegins(With(net.a, net.a.tcb.(pending := [])), net.b, SideStep(net.a, e), p);
    } else {
      assert SideStep(net.a, e) == net.a;
    }
  }

  /** y is established, and all x's numbers up to y's SND.NXT are acknowledged. */
  lemma EstablishedKeeps(x: Side, y: Side, win: int)
    requires Linked(x, y) && y.tcb.nxt <= x.tcb.rnxt && 0 <= win < 0x1_0000
    ensures Linked(x, With(y, y.tcb.(una := y.tcb.nxt, swnd := win, state := ESTABLISHED)))
  {
    var y' := With(y, y.tcb.(una := y.tcb.nxt, swnd := win, state := ESTABLISHED));
    assert Flight(x, y') == Flight(x, y) && Flight(y', x) == Flight(y, x);
  }

  /** The side that waits for the ACK of its SYN gets it. */
  lemma SynRcvdTakesAck(y: Side, e: Event)
    requires Opening(y, SYN_RCVD) && e.Arrival? && y.tcb.pending != [] && 1 <= y.tcb.rnxt <= 1001
    requires var p := y.tcb.pending[0]; SegLen(p) == 0 && p.ack && p.ackno == y.tcb.nxt && p.seqno == y.tcb.rnxt
    ensures var t := y.tcb.(pending := y.tcb.pending[1..]);
      SideStep(y, e) == With(y, t.(una := t.nxt, swnd := y.tcb.pending[0].win, state := ESTABLISHED))
  {
    assert Acceptable(y.tcb.(pending := y.tcb.pending[1..]), y.tcb.pending[0]);
  }

  lemma FirstInFlight(x: Side, y: Side)
    requires Stream(x, y) && y.tcb.pending != []
    ensures var p := y.tcb.pending[0]; p == Flight(x, y)[0] && p.seqno == Expect(y) && Plain(p, x)
  {
    assert y.tcb.pending[0] in Flight(x, y);
  }

  lemma SynRcvdAnswers(net: Net, e: Event)
    requires AckPhase(net) && e.Arrival? && Allowed(e)
    ensures AckPhase(net.(b := SideStep(net.b, e))) || Established(net.(b := SideStep(net.b, e)))
  {
    if net.b.tcb.pending != [] {
      FirstInFlight(net.a, net.b);
      SynRcvdTakesAck(net.b, e);
      PopKeeps(net.a, net.b);
      EstablishedKeeps(net.a, With(net.b, net.b.tcb.(pending := net.b.tcb.pending[1..])), net.b.tcb.pending[0].win);
    } else {
      assert SideStep(net.b, e) == net.b;
    }
  }

  // ---------- every step, every run ----------

  lemma StartKeeps(net: Net, ev: NetEvent)
    requires Start(net) && Enabled(net, ev)
    ensures Inv(NetStep(net, ev))
  {
    match ev
    case AtA(e) =>
      if e.Connecting? { ConnectStarts(net, e); } else { assert Start(NetStep(net, ev)); }
    case AtB(e) =>
      assert Start(NetStep(net, ev));
    case _ =>
  }

  lemma SynPhaseKeepsA(net: Net, e: Event)
    requires SynPhase(net) && Allowed(e)
    ensures SynPhase(net.(a := SideStep(net.a, e)))
  {
    var a' := SideStep(net.a, e);
    assert a'.tcb.out == net.a.tcb.out;
    assert Flight(a', net.b) == Flight(net.a, net.b);
  }

  lemma SynPhaseKeeps(net: Net, ev: NetEvent)
    requires SynPhase(net) && Enabled(net, ev)
    ensures Inv(NetStep(net, ev))
  {
    match ev
    case AtA(e) => SynPhaseKeepsA(net, e);
    case AtB(e) =>
      if e.Arrival? { ListenAnswers(net, e); } else { assert SideStep(net.b, e) == net.b; }
    case CarryToA =>
    case CarryToB =>
      var net' := NetStep(net, ev);
      assert Flight(net'.a, net'.b) == Flight(net.a, net.b);
  }

  /** Whatever else happens to the two sides, the SYN with ACK stays on its way. */
  lemma SynAckStays(net: Net, net': Net)
    requires SynAckPhase(net) && Opening(net'.a, SYN_SENT) && Opening(net'.b, SYN_RCVD)
    requires Flight(net'.a, net'.b) == [] && Flight(net'.b, net'.a) == Flight(net.b, net.a)
    requires net'.b.tcb.rnxt == net.b.tcb.rnxt && net'.b.tcb.swnd == net.b.tcb.swnd
    requires net'.a.tcb.nxt == net.a.tcb.nxt && net'.b.tcb.iss == net.b.tcb.iss
    ensures SynAckPhase(net')
  {
  }

  lemma SynAckPhaseKeepsA(net: Net, e: Event)
    requires SynAckPhase(net) && Allowed(e)
    ensures Inv(net.(a := SideStep(net.a, e)))
  {
    if e.Arrival? {
      SynSentAnswers(net, e);
    } else {
      SynAckStays(net, net.(a := SideStep(net.a, e)));
    }
  }

  lemma SynAckPhaseKeepsB(net: Net, e: Event)
    requires SynAckPhase(net) && Allowed(e)
    ensures SynAckPhase(net.(b := SideStep(net.b, e)))
  {
    assert net.b.tcb.pending == [];
    SynAckStays(net, net.(b := SideStep(net.b, e)));
  }

  lemma SynAckPhaseKeeps(net: Net, ev: NetEvent)
    requires SynAckPhase(net) && Enabled(net, ev)
    ensures Inv(NetStep(net, ev))
  {
    assert net.a.tcb.out == [] && net.b.tcb.pending == [];
    match ev
    case AtA(e) => SynAckPhaseKeepsA(net, e);
    case AtB(e) => SynAckPhaseKeepsB(net, e);
    case CarryToA =>
      var net' := NetStep(net, ev);
      assert Flight(net'.b, net'.a) == Flight(net.b, net.a);
      SynAckStays(net, net');
    case CarryToB =>
  }

  /** What an established side may do while the other is linked to it. */
  lemma SideKeeps(x: Side, y: Side, e: Event)
    requires Linked(x, y) && Short(x) && Short(y) && y.tcb.state == ESTABLISHED && Allowed(e)
    requires SideStep(y, e).tcb.refused == y.tcb.refused
    ensures Linked(x, SideStep(y, e)) && SideStep(y, e).tcb.state == ESTABLISHED
  {
    var y' := SideStep(y, e);
    match e
    case AppWrite(data) => WriteKeeps(y, x, e);
    case AppRead(n) => ReadKeeps(y, x, e);
    case Sending => if y.tcb.using.Idle? { SendKeeps(y, x); }
    case Receiving => assert Flight(x, y') == Flight(x, y) && Flight(y', x) == Flight(y, x);
    case Arrival(iss) => if y.tcb.using.Idle? { ArrivalKeeps(x, y); }
    case Resuming =>
      if y.tcb.using.Using? {
        WriteSomeKeeps(x, y);
        ArrivalKeeps(x, With(y, WriteSome(y.tcb)));
      }
    case _ =>
  }

  /** An established side with an empty queue only ever adds to its wire. */
  lemma QuietSide(y: Side, e: Event, y': Side) returns (segs: seq<Segment>)
    requires y.tcb.state == ESTABLISHED && y.tcb.pending == [] && y.tcb.using == Idle && Good(y) && Short(y)
    requires |y.tcb.send| <= |y.written|
    requires Allowed(e) && y' == SideStep(y, e)
    ensures y'.tcb.pending == [] && y'.tcb.using == Idle && y'.tcb.iss == y.tcb.iss
    ensures y'.tcb.out == y.tcb.out + segs
    ensures y'.tcb.refused == y.tcb.refused
  {
    segs := [];
    if e.Sending? {
      segs := SendAllSends(y.tcb);
    }
  }

  lemma AckPhaseStays(net: Net, a': Side, segs: seq<Segment>)
    requires AckPhase(net) && Linked(a', net.b) && a'.tcb.state == ESTABLISHED
    requires a'.tcb.pending == [] && a'.tcb.using == Idle && a'.tcb.iss == net.a.tcb.iss
    requires a'.tcb.out == net.a.tcb.out + segs
    ensures AckPhase(net.(a := a'))
  {
    assert Flight(a', net.b) == Flight(net.a, net.b) + segs;
  }

  lemma AckPhaseKeepsA(net: Net, e: Event)
    requires AckPhase(net) && Allowed(e) && Short(net.a) && Short(net.b)
    ensures AckPhase(net.(a := SideStep(net.a, e)))
  {
    assert net.b.tcb.out == [] && net.a.tcb.pending == [];
    var a' := SideStep(net.a, e);
    var segs := QuietSide(net.a, e, a');
    SideKeeps(net.b, net.a, e);
    AckPhaseStays(net, a', segs);
  }

  lemma OpeningStays(y: Side, e: Event)
    requires Opening(y, SYN_RCVD) && Allowed(e) && !e.Arrival? && !e.AppWrite?
    ensures SideStep(y, e) == y
  {
  }

  lemma AckPhaseWrites(net: Net, e: Event)
    requires AckPhase(net) && e.AppWrite?
    ensures AckPhase(net.(b := SideStep(net.b, e)))
  {
    var b' := SideStep(net.b, e);
    WriteKeeps(net.b, net.a, e);
    assert Flight(net.a, b') == Flight(net.a, net.b) && Flight(b', net.a) == [];
  }

  lemma AckPhaseKeepsB(net: Net, e: Event)
    requires AckPhase(net) && Allowed(e)
    ensures Inv(net.(b := SideStep(net.b, e)))
  {
    if e.Arrival? {
      SynRcvdAnswers(net, e);
    } else if e.AppWrite? {
      AckPhaseWrites(net, e);
    } else {
      OpeningStays(net.b, e);
    }
  }

  lemma AckPhaseCarries(net: Net)
    requires AckPhase(net) && net.a.tcb.out != []
    ensures AckPhase(NetStep(net, CarryToB))
  {
    CarryKeeps(net.a, net.b);
    var net' := NetStep(net, CarryToB);
    assert Flight(net'.a, net'.b) == Flight(net.a, net.b) && Flight(net'.b, net'.a) == Flight(net.b, net.a);
  }

  lemma AckPhaseKeeps(net: Net, ev: NetEvent)
    requires AckPhase(net) && Enabled(net, ev) && Short(net.a) && Short(net.b)
    ensures Inv(NetStep(net, ev))
  {
    assert net.b.tcb.out == [];
    match ev
    case AtA(e) => AckPhaseKeepsA(net, e);
    case AtB(e) => AckPhaseKeepsB(net, e);
    case CarryToA =>
    case CarryToB => AckPhaseCarries(net);
  }

  lemma EstablishedNetKeeps(net: Net, ev: NetEvent, net': Net)
    requires Established(net) && Moves(net, ev, net')
    ensures Established(net')
  {
    match ev
    case AtA(e) => SideKeeps(net.b, net.a, e);
    case AtB(e) => SideKeeps(net.a, net.b, e);
    case CarryToA => CarryKeeps(net.b, net.a);
    case CarryToB => CarryKeeps(net.a, net.b);
  }

  /** A step that refuses no data segment, while neither stream is near 2^32 bytes. */
  ghost predicate Moves(net: Net, ev: NetEvent, net': Net) {
    && Enabled(net, ev) && net' == NetStep(net, ev)
    && net'.a.tcb.refused == net.a.tcb.refused && net'.b.tcb.refused == net.b.tcb.refused
    && Short(net.a) && Short(net.b)
  }

  lemma StepKeeps(net: Net, ev: NetEvent, net': Net)
    requires Inv(net) && Moves(net, ev, net')
    ensures Inv(net')
  {
    if Start(net) {
      StartKeeps(net, ev);
    } else if SynPhase(net) {
      SynPhaseKeeps(net, ev);
    } else if SynAckPhase(net) {
      SynAckPhaseKeeps(net, ev);
    } else if AckPhase(net) {
      AckPhaseKeeps(net, ev);
    } else {
      EstablishedNetKeeps(net, ev, net');
    }
  }

  lemma RunKeeps(nets: seq<Net>, evs: seq<NetEvent>, k: nat)
    requires IsRun(nets, evs, Moves) && Start(nets[0]) && k < |nets|
    ensures Inv(nets[k])
  {
    forall net, ev, net' | Inv(net) && Moves(net, ev, net')
      ensures Inv(net')
    {
      StepKeeps(net, ev, net');
    }
    InvariantHolds(nets, evs, Moves, Inv, k);
  }

  /** What y has been given, read or not, is a prefix of what x's application wrote. */
  ghost predicate Delivers(x: Side, y: Side) {
    y.got + y.tcb.recv <= x.written
  }

  lemma InvDelivers(net: Net)
    requires Inv(net)
    ensures Delivers(net.a, net.b) && Delivers(net.b, net.a)
  {
    if AckPhase(net) || Established(net) {
      BytesDeliver(net.a, net.b);
      BytesDeliver(net.b, net.a);
    }
  }

  lemma BytesDeliver(x: Side, y: Side)
    requires Bytes(x, y)
    ensures Delivers(x, y)
  {
    var front := y.got + y.tcb.recv;
    assert x.written == front + (Rest(y) + Payloads(Flight(x, y)) + x.tcb.send);
    assert x.written[..|front|] == front;
  }

  /** In every run the received bytes are a prefix of the sent ones, both ways. */
  lemma RunDelivers(nets: seq<Net>, evs: seq<NetEvent>, k: nat)
    requires IsRun(nets, evs, Moves) && Start(nets[0]) && k < |nets|
    ensures Delivers(nets[k].a, nets[k].b) && Delivers(nets[k].b, nets[k].a)
  {
    RunKeeps(nets, evs, k);
    InvDelivers(nets[k]);
  }

  /**
   Once both sides are established: RCV.NXT plus the payload bytes in flight is the peer's SND.NXT,
   no byte is taken for acknowledged that the peer has not put in its buffer, and every written
   byte is in exactly one place.
   */
  lemma RunConserves(nets: seq<Net>, evs: seq<NetEvent>, k: nat)
    requires IsRun(nets, evs, Moves) && Start(nets[0]) && k < |nets|
    requires nets[k].a.tcb.state == ESTABLISHED && nets[k].b.tcb.state == ESTABLISHED
    ensures var a, b := nets[k].a, nets[k].b;
            && Bytes(a, b) && Bytes(b, a)
            && Expect(b) + |Payloads(Flight(a, b))| == a.tcb.nxt
            && Expect(a) + |Payloads(Flight(b, a))| == b.tcb.nxt
            && a.tcb.una <= b.tcb.rnxt && b.tcb.una <= a.tcb.rnxt
  {
    RunKeeps(nets, evs, k);
    var a, b := nets[k].a, nets[k].b;
    TilesLength(Flight(a, b), Expect(b), a.tcb.nxt);
    TilesLength(Flight(b, a), Expect(a), b.tcb.nxt);
  }

  // ---------- when a data segment is refused ----------

  /**
   The next data segment is refused if and only if RCV.WND is 0 or RCV.NXT + RCV.WND passes 2^32,
   which it does once use_data has taken more from RCV.WND than was in it.
   */
  lemma DataRefusedIff(x: Side, y: Side)
    requires Linked(x, y) && Short(x) && y.tcb.using.Idle? && Is32(y.tcb.rwnd)
    requires y.tcb.pending != [] && y.tcb.pending[0].payload != []
    ensures !Acceptable(y.tcb.(pending := y.tcb.pending[1..]), y.tcb.pending[0]) <==>
            y.tcb.rwnd == 0 || y.tcb.rnxt + y.tcb.rwnd >= 0x1_0000_0000
  {
    FirstInFlight(x, y);
    ExpectFits(x, y);
  }

  /** Nothing is ever sent again: the bytes of a refused segment are then nowhere any more. */
  lemma RefusalLosesBytes(x: Side, y: Side)
    requires Linked(x, y) && y.tcb.pending != [] && y.tcb.pending[0].payload != []
    ensures var y' := With(y, Refuse(y.tcb.(pending := y.tcb.pending[1..]), y.tcb.pending[0]));
      |y'.got + y'.tcb.recv + Rest(y') + Payloads(Flight(x, y')) + x.tcb.send| ==
      |x.written| - |y.tcb.pending[0].payload|
  {
    PopFlight(x, y, With(y, y.tcb.(pending := y.tcb.pending[1..])));
    var y' := With(y, Refuse(y.tcb.(pending := y.tcb.pending[1..]), y.tcb.pending[0]));
    assert Flight(x, y') == Flight(x, With(y, y.tcb.(pending := y.tcb.pending[1..])));
  }
}
