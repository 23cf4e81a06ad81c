/**
 A run of two sockets, from the start, in which a data segment is refused and the bytes after it are
 delivered in its place: without the condition of TcpWindow the delivery theorems do not hold.
 */
module TcpLoss {
  import opened Common
  import opened Tcp
  import opened TcpSend
  import opened TcpNet
  import opened Runs

  /** Any step of either socket, application or link, refusals included. */
  ghost predicate Steps(net: Net, ev: NetEvent, net': Net) {
    Enabled(net, ev) && net' == NetStep(net, ev)
  }

  ghost predicate Leads(nets: seq<Net>, evs: seq<NetEvent>, from: Net, to: Net) {
    IsRun(nets, evs, Steps) && nets[0] == from && nets[|evs|] == to
  }

  ghost predicate Reaches(from: Net, to: Net) {
    exists nets, evs :: Leads(nets, evs, from, to)
  }

  lemma AtStart(net: Net)
    ensures Reaches(net, net)
  {
    assert Leads([net], [], net, net);
  }

  lemma OneMore(from: Net, net: Net, ev: NetEvent)
    requires Reaches(from, net) && Enabled(net, ev)
    ensures Reaches(from, NetStep(net, ev))
  {
    var nets, evs :| Leads(nets, evs, from, net);
    var nets', evs' := nets + [NetStep(net, ev)], evs + [ev];
    forall i | 0 <= i < |evs'| ensures Steps(nets'[i], evs'[i], nets'[i + 1]) {
      if i < |evs| {
        assert Steps(nets[i], evs[i], nets[i + 1]);
      }
    }
    assert Leads(nets', evs', from, NetStep(net, ev));
  }

  // ---------- the handshake ----------

  /** An established side with nothing in progress. */
  ghost predicate SideIs(s: Side, una: int, nxt: int, swnd: int, rnxt: int, rwnd: int, send: seq<byte>, recv: seq<byte>,
                         pending: seq<Segment>, out: seq<Segment>) {
    && s.tcb.state == ESTABLISHED && s.tcb.using == Idle && !s.tcb.recvClosed
    && s.tcb.una == una && s.tcb.nxt == nxt && s.tcb.swnd == swnd && s.tcb.rnxt == rnxt && s.tcb.rwnd == rwnd
    && s.tcb.send == send && s.tcb.recv == recv && s.tcb.pending == pending && s.tcb.out == out
  }

  /** As the handshake leaves a side whose own number and whose peer's is 1. */
  ghost predicate Fresh(s: Side) {
    SideIs(s, 2, 2, TCP_BUFFER_SIZE, 2, TCP_BUFFER_SIZE, [], [], [], []) && s.written == [] && s.got == []
  }

  ghost predicate SameAccount(s: Side, s': Side) {
    s'.tcb.refused == s.tcb.refused && s'.written == s.written && s'.got == s.got
  }

  /** The SYN goes out and arrives. */
  lemma SynArrives(net: Net) returns (net': Net)
    requires Start(net)
    ensures Reaches(net, net') && SameAccount(net.a, net'.a) && SameAccount(net.b, net'.b)
    ensures Opening(net'.a, SYN_SENT) && net'.a.tcb.pending == [] && net'.a.tcb.out == [] && net'.a.tcb.iss == 1
    ensures Opening(net'.b, SYN_RCVD) && net'.b.tcb.pending == [] && net'.b.tcb.iss == 1 && net'.b.tcb.rnxt == 2
    ensures net'.b.tcb.swnd == TCP_BUFFER_SIZE
    ensures net'.b.tcb.out == [Segment(1, 2, true, true, false, TCP_BUFFER_SIZE, [])]
  {
    AtStart(net);
    var n1 := NetStep(net, AtA(Connecting(1)));
    OneMore(net, net, AtA(Connecting(1)));
    OneMore(net, n1, CarryToB);
    var n2 := NetStep(n1, CarryToB);
    OneMore(net, n2, AtB(Arrival(1)));
    net' := NetStep(n2, AtB(Arrival(1)));
  }

  /** The SYN with ACK arrives, and the ACK after it. */
  lemma Handshake(net: Net) returns (net': Net)
    requires Start(net)
    ensures Reaches(net, net') && Fresh(net'.a) && Fresh(net'.b)
    ensures net'.a.tcb.refused == net.a.tcb.refused && net'.b.tcb.refused == net.b.tcb.refused
  {
    var n1 := SynArrives(net);
    OneMore(net, n1, CarryToA);
    var n2 := NetStep(n1, CarryToA);
    OneMore(net, n2, AtA(Arrival(1)));
    var n3 := NetStep(n2, AtA(Arrival(1)));
    SynAckTaken(n2.a);
    OneMore(net, n3, CarryToB);
    var n4 := NetStep(n3, CarryToB);
    SynRcvdTakesAck(n4.b, Arrival(1));
    OneMore(net, n4, AtB(Arrival(1)));
    net' := NetStep(n4, AtB(Arrival(1)));
  }

  lemma SynAckTaken(s: Side)
    requires Opening(s, SYN_SENT) && s.tcb.out == [] && s.tcb.iss == 1
    requires s.tcb.pending == [Segment(1, 2, true, true, false, TCP_BUFFER_SIZE, [])]
    ensures var s' := SideStep(s, Arrival(1));
      SideIs(s', 2, 2, TCP_BUFFER_SIZE, 2, TCP_BUFFER_SIZE, s.tcb.send, [], [],
             [Segment(2, 2, false, true, false, TCP_BUFFER_SIZE, [])]) && SameAccount(s, s')
  {
    var t := s.tcb.(pending := []);
    var t' := t.(rnxt := 2, irs := 1, una := 2, swnd := TCP_BUFFER_SIZE);
    assert SynSentArrival(t, s.tcb.pending[0]) == SendAck(t').(una := 2, state := ESTABLISHED);
    assert Step(s.tcb, Arrival(1)) == SynSentArrival(t, s.tcb.pending[0]);
  }

  // ---------- pieces of the run ----------

  /** The link hands over all that x has sent. */
  lemma {:induction false} AllCarriedToB(from: Net, net: Net)
    requires Reaches(from, net)
    ensures var a, b := net.a, net.b;
      Reaches(from, Net(a.(tcb := a.tcb.(out := [])), b.(tcb := b.tcb.(pending := b.tcb.pending + a.tcb.out))))
    decreases |net.a.tcb.out|
  {
    var a, b := net.a, net.b;
    if a.tcb.out == [] {
      assert b.tcb.pending + a.tcb.out == b.tcb.pending;
    } else {
      OneMore(from, net, CarryToB);
      AllCarriedToB(from, NetStep(net, CarryToB));
      assert b.tcb.pending + [a.tcb.out[0]] + a.tcb.out[1..] == b.tcb.pending + a.tcb.out;
    }
  }

  /** A block that takes data: what it is after a segment that fits. */
  function After(t: Tcb, p: Segment): Tcb
    requires t.pending != []
  {
    var t1 := t.(pending := t.pending[1..], recv := t.recv + p.payload, rnxt := t.rnxt + |p.payload|,
                 rwnd := t.rwnd - |p.payload|);
    SendAck(t1)
  }

  ghost predicate TakesData(t: Tcb) {
    && t.state == ESTABLISHED && t.using == Idle && !t.recvClosed
    && 0 <= t.rnxt && 0 <= t.rwnd && t.rnxt + t.rwnd < 0x1_0000_0000
  }

  /** Data of an established peer that acknowledges nothing new. */
  ghost predicate PlainData(p: Segment, t: Tcb) {
    DataSegment(p) && p.ackno <= t.una
  }

  lemma TakesOne(t: Tcb)
    requires TakesData(t) && t.pending != [] && PlainData(t.pending[0], t)
    requires t.rnxt <= t.pending[0].seqno < t.rnxt + t.rwnd && |t.pending[0].payload| <= Min(t.rwnd, Available(t))
    ensures Acceptable(t.(pending := t.pending[1..]), t.pending[0])
    ensures OnSegment(t.(pending := t.pending[1..]), ESTABLISHED, t.pending[0]) == After(t, t.pending[0])
  {
    var p, t1 := t.pending[0], t.(pending := t.pending[1..]);
    assert p.payload[..|p.payload|] == p.payload && p.payload[|p.payload|..] == [];
    assert OnAck(t1, ESTABLISHED, p) == t1;
  }

  lemma LoopTakesOne(t: Tcb)
    requires TakesData(t) && t.pending != [] && PlainData(t.pending[0], t)
    requires t.rnxt <= t.pending[0].seqno < t.rnxt + t.rwnd && |t.pending[0].payload| <= Min(t.rwnd, Available(t))
    ensures ArrivalLoop(t, ESTABLISHED) == ArrivalLoop(After(t, t.pending[0]), ESTABLISHED)
  {
    TakesOne(t);
  }

  function AfterAll(t: Tcb, n: nat): Tcb
    requires n <= |t.pending|
    decreases n
  {
    if n == 0 then t else AfterAll(After(t, t.pending[0]), n - 1)
  }

  /** The row of segments is in order, fits window and buffer, and is all there is or fills the buffer. */
  ghost predicate RowFits(t: Tcb, segs: seq<Segment>, rest: seq<Segment>, to: int) {
    && TakesData(t) && t.pending == segs + rest && Tiles(segs, t.rnxt, to)
    && (forall p :: p in segs ==> PlainData(p, t))
    && |Payloads(segs)| <= Min(t.rwnd, Available(t)) && (rest == [] || |Payloads(segs)| == Available(t))
  }

  lemma FirstOfRow(t: Tcb, segs: seq<Segment>, rest: seq<Segment>, to: int)
    requires RowFits(t, segs, rest, to) && segs != []
    ensures t.pending != [] && t.pending[0] == segs[0] && t.pending[1..] == segs[1..] + rest
    ensures PlainData(segs[0], t) && segs[0].seqno == t.rnxt
    ensures |segs[0].payload| + |Payloads(segs[1..])| == |Payloads(segs)| <= Min(t.rwnd, Available(t))
    ensures forall p :: p in segs[1..] ==> PlainData(p, t)
    ensures Tiles(segs[1..], t.rnxt + |segs[0].payload|, to)
  {
    assert segs[0] in segs && t.pending[1..] == segs[1..] + rest;
    forall p | p in segs[1..] ensures PlainData(p, t) { assert p in segs; }
  }

  lemma RestOfRow(t: Tcb, segs: seq<Segment>, rest: seq<Segment>, to: int)
    requires RowFits(t, segs, rest, to) && segs != []
    ensures t.pending != [] && t.pending[0] == segs[0]
    ensures RowFits(After(t, segs[0]), segs[1..], rest, to)
  {
    FirstOfRow(t, segs, rest, to);
    var t' := After(t, segs[0]);
    assert Available(t') == Available(t) - |segs[0].payload| && t'.una == t.una;
  }

  /** Such a row is taken. */
  lemma {:induction false} LoopTakesRow(t: Tcb, segs: seq<Segment>, rest: seq<Segment>, to: int)
    requires RowFits(t, segs, rest, to)
    ensures ArrivalLoop(t, ESTABLISHED) == AfterAll(t, |segs|)
    decreases |segs|
  {
    if segs == [] {
      assert t.pending == rest;
    } else {
      FirstOfRow(t, segs, rest, to);
      LoopTakesOne(t);
      RestOfRow(t, segs, rest, to);
      LoopTakesRow(After(t, segs[0]), segs[1..], rest, to);
    }
  }

  /** What a row of segments leaves. */
  lemma {:induction false} AfterAllIs(t: Tcb, segs: seq<Segment>, rest: seq<Segment>)
    requires t.pending == segs + rest
    ensures var r, n := AfterAll(t, |segs|), |Payloads(segs)|;
      && r == t.(pending := rest, recv := t.recv + Payloads(segs), rnxt := t.rnxt + n, rwnd := t.rwnd - n, out := r.out)
      && t.out <= r.out
    decreases |segs|
  {
    if segs == [] {
      assert t.pending == rest && t.recv + [] == t.recv;
    } else {
      assert t.pending[1..] == segs[1..] + rest;
      AfterAllIs(After(t, segs[0]), segs[1..], rest);
      assert t.recv + segs[0].payload + Payloads(segs[1..]) == t.recv + Payloads(segs);
    }
  }

  /** The first of its ACKs. */
  lemma FirstAck(t: Tcb, segs: seq<Segment>, rest: seq<Segment>)
    requires t.pending == segs + rest && segs != []
    ensures var r, n := AfterAll(t, |segs|), |segs[0].payload|;
      |t.out| < |r.out| && r.out[|t.out|] == Segment(t.nxt, t.rnxt + n, false, true, false, U16(t.rwnd - n), [])
  {
    assert t.pending[1..] == segs[1..] + rest;
    AfterAllIs(After(t, segs[0]), segs[1..], rest);
  }

  lemma RowArrives(y: Side, segs: seq<Segment>, rest: seq<Segment>, to: int)
    requires RowFits(y.tcb, segs, rest, to) && segs != []
    ensures var y', t, n := SideStep(y, Arrival(1)), y.tcb, |Payloads(segs)|;
      && y' == With(y, t.(pending := rest, recv := t.recv + Payloads(segs), rnxt := t.rnxt + n, rwnd := t.rwnd - n,
                          out := y'.tcb.out))
      && |t.out| < |y'.tcb.out| && y'.tcb.out[|t.out|] ==
         Segment(t.nxt, t.rnxt + |segs[0].payload|, false, true, false, U16(t.rwnd - |segs[0].payload|), [])
  {
    LoopTakesRow(y.tcb, segs, rest, to);
    AfterAllIs(y.tcb, segs, rest);
    FirstAck(y.tcb, segs, rest);
  }

  // ---------- the run ----------

  /** a writes 4000 bytes and sends them, and they arrive. */
  lemma FirstArrive(from: Net, net: Net, data: seq<byte>) returns (net': Net, segs: seq<Segment>)
    requires Reaches(from, net) && Fresh(net.a) && Fresh(net.b) && |data| == 4000
    ensures Reaches(from, net') && net'.a.tcb.refused == net.a.tcb.refused && SameAccount(net.b, net'.b)
    ensures SideIs(net'.a, 2, 4002, 96, 2, TCP_BUFFER_SIZE, [], [], [], []) && net'.a.written == data
    ensures SideIs(net'.b, 2, 2, TCP_BUFFER_SIZE, 2, TCP_BUFFER_SIZE, [], [], segs, [])
    ensures Tiles(segs, 2, 4002) && Payloads(segs) == data && forall p :: p in segs ==> PlainData(p, net'.b.tcb)
  {
    OneMore(from, net, AtA(AppWrite(data)));
    var n1 := NetStep(net, AtA(AppWrite(data)));
    OneMore(from, n1, AtA(Sending));
    var n2 := NetStep(n1, AtA(Sending));
    WriteAndSend(net.a.tcb, data);
    assert n1.a.tcb.send == data;
    segs := SendAllSends(n1.a.tcb);
    assert n2.a.tcb.out == segs;
    assert Payloads(segs) + [] == Payloads(segs);
    AllCarriedToB(from, n2);
    assert [] + segs == segs;
    net' := Net(n2.a.(tcb := n2.a.tcb.(out := [])), n2.b.(tcb := n2.b.tcb.(pending := segs)));
  }

  /** An ACK of b's that offers what is left of an empty buffer. */
  predicate Acknowledges(ack: Segment) {
    ack == Segment(2, ack.ackno, false, true, false, TCP_BUFFER_SIZE + 2 - ack.ackno, [])
  }

  /** b takes them all. */
  lemma FirstTaken(from: Net, net: Net, data: seq<byte>, segs: seq<Segment>) returns (net': Net)
    requires Reaches(from, net) && |data| == 4000
    requires SideIs(net.b, 2, 2, TCP_BUFFER_SIZE, 2, TCP_BUFFER_SIZE, [], [], segs, [])
    requires Tiles(segs, 2, 4002) && Payloads(segs) == data && forall p :: p in segs ==> PlainData(p, net.b.tcb)
    ensures Reaches(from, net') && net'.a == net.a && SameAccount(net.b, net'.b)
    ensures SideIs(net'.b, 2, 2, TCP_BUFFER_SIZE, 4002, 96, [], data, [], net'.b.tcb.out) && net'.b.tcb.out != []
    ensures 2 < net'.b.tcb.out[0].ackno <= 2 + TCP_MSS && Acknowledges(net'.b.tcb.out[0])
  {
    assert segs + [] == segs;
    assert segs != [] && segs[0] in segs;
    RowArrives(net.b, segs, [], 4002);
    OneMore(from, net, AtB(Arrival(1)));
    net' := NetStep(net, AtB(Arrival(1)));
    assert [] + data == data;
  }

  /** a gets the first of the ACKs, in a window that still ends at 4096. */
  lemma FirstAcknowledged(from: Net, net: Net, ack: Segment) returns (net': Net)
    requires Reaches(from, net) && net.b.tcb.out != [] && net.b.tcb.out[0] == ack
    requires SideIs(net.a, 2, 4002, 96, 2, TCP_BUFFER_SIZE, [], [], [], [])
    requires 2 < ack.ackno <= 2 + TCP_MSS && Acknowledges(ack)
    ensures Reaches(from, net') && net'.a.written == net.a.written
    ensures net'.b == net.b.(tcb := net.b.tcb.(out := net.b.tcb.out[1..]))
    ensures SideIs(net'.a, ack.ackno, 4002, TCP_BUFFER_SIZE + 2 - ack.ackno, 2, TCP_BUFFER_SIZE, [], [], [], [])
  {
    OneMore(from, net, CarryToA);
    var n1 := NetStep(net, CarryToA);
    assert n1.a.tcb.pending == [ack];
    AckTaken(n1.a.tcb, ack);
    OneMore(from, n1, AtA(Arrival(1)));
    net' := NetStep(n1, AtA(Arrival(1)));
  }

  function Data(t: Tcb, i: nat, j: nat): Segment
    requires i <= j <= |t.send|
  {
    Segment(t.nxt + i, t.rnxt, false, true, false, U16(t.rwnd), t.send[i..j])
  }

  lemma SendsOne(t: Tcb, allowed: int, n: nat)
    requires n > 0 && n == ToSend(t, allowed) && n <= |t.send|
    ensures SendLoop(t, allowed) == SendLoop(SendOne(t, n), allowed)
  {
  }

  /** 200 bytes where 96 are allowed: three segments. */
  lemma SendsThree(t: Tcb)
    requires |t.send| == 200 && Tcp.Allowed(t) == 96 && 0 <= t.nxt < 0x1_0000 && 3000 <= t.swnd <= TCP_BUFFER_SIZE
    ensures SendAll(t) == t.(send := [], nxt := t.nxt + 200, swnd := t.swnd - 200,
                             out := t.out + [Data(t, 0, 96), Data(t, 96, 192), Data(t, 192, 200)])
  {
    SendsOne(t, 96, 96);
    var t1 := SendOne(t, 96);
    assert t1.send == t.send[96..];
    SendsOne(t1, 96, 96);
    var t2 := SendOne(t1, 96);
    assert t2.send == t.send[192..];
    SendsOne(t2, 96, 8);
    var t3 := SendOne(t2, 8);
    assert t3.send == [] && t.send[..96] == t.send[0..96] && t1.send[..96] == t.send[96..192];
    assert t2.send[..8] == t.send[192..200];
    assert t3.out == t.out + [Data(t, 0, 96), Data(t, 96, 192), Data(t, 192, 200)];
  }

  function Late(d: seq<byte>, i: nat, j: nat): Segment
    requires i <= j <= |d|
  {
    Segment(4002 + i, 2, false, true, false, TCP_BUFFER_SIZE, d[i..j])
  }

  /** a writes 200 bytes more and sends them, 104 of them past the edge; they arrive. */
  lemma MoreArrive(from: Net, net: Net, more: seq<byte>) returns (net': Net)
    requires Reaches(from, net) && |more| == 200 && 2 < net.a.tcb.una <= 2 + TCP_MSS
    requires SideIs(net.a, net.a.tcb.una, 4002, TCP_BUFFER_SIZE + 2 - net.a.tcb.una, 2, TCP_BUFFER_SIZE, [], [], [], [])
    requires net.b.tcb.pending == []
    ensures Reaches(from, net') && net'.a.written == net.a.written + more
    ensures net'.b == net.b.(tcb := net.b.tcb.(pending := [Late(more, 0, 96), Late(more, 96, 192), Late(more, 192, 200)]))
  {
    OneMore(from, net, AtA(AppWrite(more)));
    var n1 := NetStep(net, AtA(AppWrite(more)));
    assert n1.a.tcb.send == more;
    SendsThree(n1.a.tcb);
    OneMore(from, n1, AtA(Sending));
    var n2 := NetStep(n1, AtA(Sending));
    var segs := [Late(more, 0, 96), Late(more, 96, 192), Late(more, 192, 200)];
    assert n2.a.tcb.out == segs;
    AllCarriedToB(from, n2);
    assert [] + segs == segs;
    net' := Net(n2.a.(tcb := n2.a.tcb.(out := [])), n2.b.(tcb := n2.b.tcb.(pending := segs)));
  }

  /** The first of the three fills b's buffer. */
  lemma BufferFills(from: Net, net: Net, data: seq<byte>, more: seq<byte>) returns (net': Net)
    requires Reaches(from, net) && |data| == 4000 && |more| == 200
    requires SideIs(net.b, 2, 2, TCP_BUFFER_SIZE, 4002, 96, [], data,
                    [Late(more, 0, 96), Late(more, 96, 192), Late(more, 192, 200)], net.b.tcb.out)
    ensures Reaches(from, net') && net'.a == net.a && SameAccount(net.b, net'.b)
    ensures SideIs(net'.b, 2, 2, TCP_BUFFER_SIZE, 4098, 0, [], data + more[..96],
                   [Late(more, 96, 192), Late(more, 192, 200)], net'.b.tcb.out)
  {
    var first, rest := [Late(more, 0, 96)], [Late(more, 96, 192), Late(more, 192, 200)];
    OneSegment(Late(more, 0, 96), 4002);
    assert more[0..96] == more[..96] && first + rest == net.b.tcb.pending;
    RowArrives(net.b, first, rest, 4098);
    OneMore(from, net, AtB(Arrival(1)));
    net' := NetStep(net, AtB(Arrival(1)));
  }

  /** Its application reads, and RCV.WND is still 0: the second is refused. */
  lemma SecondRefused(from: Net, net: Net, got: seq<byte>, more: seq<byte>) returns (net': Net)
    requires Reaches(from, net) && |got| == 4096 && |more| == 200
    requires SideIs(net.b, 2, 2, TCP_BUFFER_SIZE, 4098, 0, [], got,
                    [Late(more, 96, 192), Late(more, 192, 200)], net.b.tcb.out)
    ensures Reaches(from, net') && net'.a == net.a && net'.b.tcb.refused == net.b.tcb.refused + 1
    ensures SideIs(net'.b, 2, 2, TCP_BUFFER_SIZE, 4098, 0, [], got[200..], [Late(more, 192, 200)], net'.b.tcb.out)
    ensures net'.b.written == net.b.written && net'.b.got == net.b.got + got[..200]
  {
    OneMore(from, net, AtB(AppRead(200)));
    var n1 := NetStep(net, AtB(AppRead(200)));
    OneMore(from, n1, AtB(Arrival(1)));
    net' := NetStep(n1, AtB(Arrival(1)));
    var rest := [Late(more, 96, 192), Late(more, 192, 200)];
    assert rest[1..] == [Late(more, 192, 200)];
    assert net'.b.tcb == Refuse(n1.b.tcb.(pending := rest[1..]), rest[0]);
  }

  /** Then RECEIVE opens the window, and the third segment is taken for the second. */
  lemma ThirdTaken(from: Net, net: Net, recv: seq<byte>, more: seq<byte>) returns (net': Net)
    requires Reaches(from, net) && |recv| == 3896 && |more| == 200
    requires SideIs(net.b, 2, 2, TCP_BUFFER_SIZE, 4098, 0, [], recv, [Late(more, 192, 200)], net.b.tcb.out)
    ensures Reaches(from, net') && net'.a == net.a && SameAccount(net.b, net'.b)
    ensures net'.b.tcb.recv == recv + more[192..]
  {
    OneMore(from, net, AtB(Receiving));
    var n1 := NetStep(net, AtB(Receiving));
    TakesOne(n1.b.tcb);
    OneMore(from, n1, AtB(Arrival(1)));
    net' := NetStep(n1, AtB(Arrival(1)));
    assert more[192..200] == more[192..];
    assert ArrivalLoop(After(n1.b.tcb, Late(more, 192, 200)), ESTABLISHED) == After(n1.b.tcb, Late(more, 192, 200));
  }

  lemma Holed(data: seq<byte>, more: seq<byte>)
    requires |data| == 4000 && |more| == 200 && more[96] != more[192]
    ensures !(data + more[..96] + more[192..] <= data + more)
  {
    assert (data + more[..96] + more[192..])[4096] == more[192] && (data + more)[4096] == more[96];
  }

  /** From the start a run leads to a refused segment, and to a receiver that has been given what was not sent. */
  lemma DeliveryFails(net: Net, data: seq<byte>, more: seq<byte>) returns (net': Net)
    requires Start(net) && |data| == 4000 && |more| == 200 && more[96] != more[192]
    ensures Reaches(net, net') && net'.b.tcb.refused == net.b.tcb.refused + 1
    ensures net'.a.written == data + more && net'.b.got + net'.b.tcb.recv == data + more[..96] + more[192..]
    ensures !Delivers(net'.a, net'.b)
  {
    var n1 := Handshake(net);
    var n2, segs := FirstArrive(net, n1, data);
    var n3 := FirstTaken(net, n2, data, segs);
    var n4 := FirstAcknowledged(net, n3, n3.b.tcb.out[0]);
    n4 := MoreArrive(net, n4, more);
    var n5 := BufferFills(net, n4, data, more);
    var got := data + more[..96];
    n5 := SecondRefused(net, n5, got, more);
    net' := ThirdTaken(net, n5, got[200..], more);
    assert got[..200] + (got[200..] + more[192..]) == got + more[192..];
    assert [] + got[..200] == got[..200];
    Holed(data, more);
  }
}
