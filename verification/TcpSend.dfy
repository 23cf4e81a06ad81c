/**
 What one call of send_all puts on the wire: consecutive segments that cut a prefix of the send
 buffer into pieces, how many bytes in all, and exactly when they stay inside the peer's window.
 */
module TcpSend {
  import opened Common
  import opened Tcp

  /** The segments carry consecutive bytes, the first at sequence number `from`, up to `to`. */
  ghost predicate Tiles(segs: seq<Segment>, from: int, to: int)
    decreases |segs|
  {
    if segs == [] then from == to
    else segs[0].seqno == from && Tiles(segs[1..], from + |segs[0].payload|, to)
  }

  function Payloads(segs: seq<Segment>): seq<byte> {
    if segs == [] then [] else segs[0].payload + Payloads(segs[1..])
  }

  lemma {:induction false} TilesAppend(a: seq<Segment>, b: seq<Segment>, from: int, mid: int, to: int)
    requires Tiles(a, from, mid) && Tiles(b, mid, to)
    ensures Tiles(a + b, from, to)
    decreases |a|
  {
    if a == [] {
      assert a + b == b;
    } else {
      TilesAppend(a[1..], b, from + |a[0].payload|, mid, to);
      assert (a + b)[1..] == a[1..] + b;
    }
  }

  lemma {:induction false} PayloadsAppend(a: seq<Segment>, b: seq<Segment>)
    ensures Payloads(a + b) == Payloads(a) + Payloads(b)
    decreases |a|
  {
    if a == [] {
      assert a + b == b;
    } else {
      PayloadsAppend(a[1..], b);
      assert (a + b)[1..] == a[1..] + b;
    }
  }

  lemma OneSegment(p: Segment, from: int)
    requires p.seqno == from
    ensures Tiles([p], from, from + |p.payload|) && Payloads([p]) == p.payload
  {
    assert [p][1..] == [];
    assert Payloads([p]) == p.payload + Payloads([p][1..]);
  }

  /** The receiver expects the number the flight starts with, counted to the sender's SND.NXT. */
  lemma {:induction false} TilesLength(segs: seq<Segment>, from: int, to: int)
    requires Tiles(segs, from, to)
    ensures from + |Payloads(segs)| == to
    decreases |segs|
  {
    if segs != [] {
      TilesLength(segs[1..], from + |segs[0].payload|, to);
    }
  }

  /** A segment of send_all: 1 to 536 bytes with ACK and nothing else set. */
  ghost predicate DataSegment(p: Segment) {
    1 <= |p.payload| <= TCP_MSS && p.ack && !p.syn && !p.fin && 0 <= p.win < 0x1_0000
  }

  /** No pass can wrap SND.NXT or take SND.WND for negative. */
  ghost predicate InRange(t: Tcb) {
    0 <= t.nxt && t.nxt + |t.send| < 0x1_0000_0000 && 0 <= t.swnd < 0x8000_0000
  }

  /** r is t after sending segs. */
  ghost predicate Sent(t: Tcb, r: Tcb, segs: seq<Segment>) {
    && r.out == t.out + segs
    && Tiles(segs, t.nxt, r.nxt)
    && t.send == Payloads(segs) + r.send
    && r.nxt + r.swnd == t.nxt + t.swnd
    && forall p :: p in segs ==> DataSegment(p) && p.ackno == t.rnxt && p.win == U16(t.rwnd)
  }

  lemma SentCons(t: Tcb, n: nat, r: Tcb, rest: seq<Segment>)
    requires InRange(t) && 1 <= n <= |t.send| && n <= TCP_MSS && n <= t.swnd
    requires Sent(SendOne(t, n), r, rest)
    ensures Sent(t, r, [AckSegment(t, t.send[..n])] + rest)
    ensures |Payloads([AckSegment(t, t.send[..n])] + rest)| == n + |Payloads(rest)|
  {
    var first := AckSegment(t, t.send[..n]);
    var segs := [first] + rest;
    assert segs[0] == first && segs[1..] == rest;
    assert t.send == t.send[..n] + t.send[n..];
    assert t.send[..n] + (Payloads(rest) + r.send) == Payloads(segs) + r.send;
    assert t.out + [first] + rest == t.out + segs;
  }

  lemma {:induction false} SendLoopSends(t: Tcb, allowed: int) returns (segs: seq<Segment>)
    requires InRange(t)
    ensures Sent(t, SendLoop(t, allowed), segs)
    ensures |Payloads(segs)| == if allowed > 0 then Min(|t.send|, t.swnd) else 0
    decreases |t.send|
  {
    var n := ToSend(t, allowed);
    if |t.send| > 0 && n > 0 {
      assert InRange(SendOne(t, n));
      var rest := SendLoopSends(SendOne(t, n), allowed);
      SentCons(t, n, SendLoop(t, allowed), rest);
      segs := [AckSegment(t, t.send[..n])] + rest;
    } else {
      segs := [];
      assert t.out + segs == t.out;
    }
  }

  /** Every segment but the last is as large as it may be. */
  lemma {:induction false} FullSegments(t: Tcb, allowed: int) returns (segs: seq<Segment>)
    requires InRange(t)
    ensures SendLoop(t, allowed).out == t.out + segs
    ensures forall i :: 0 <= i < |segs| - 1 ==> |segs[i].payload| == Min(536, allowed)
    ensures t.send == [] || t.swnd == 0 ==> segs == []
    decreases |t.send|
  {
    var n := ToSend(t, allowed);
    if |t.send| > 0 && n > 0 {
      var rest := FullSegments(SendOne(t, n), allowed);
      segs := [AckSegment(t, t.send[..n])] + rest;
      assert t.out + [AckSegment(t, t.send[..n])] + rest == t.out + segs;
    } else {
      segs := [];
      assert t.out + segs == t.out;
    }
  }

  /** SND.NXT + SND.WND is conserved, the segments tile a prefix of the stream, and this many bytes go. */
  lemma SendAllSends(t: Tcb) returns (segs: seq<Segment>)
    requires InRange(t)
    ensures Sent(t, SendAll(t), segs)
    ensures |Payloads(segs)| == if Allowed(t) > 0 then Min(|t.send|, t.swnd) else 0
    ensures SendAll(t).nxt == t.nxt + |Payloads(segs)|
  {
    segs := SendLoopSends(t, Allowed(t));
    TilesLength(segs, t.nxt, SendAll(t).nxt);
  }

  /** Nothing sent lies past the right edge of the window at entry. */
  ghost predicate WindowKept(t: Tcb, r: Tcb) {
    r.nxt == t.nxt || r.nxt <= t.una + t.swnd
  }

  /**
   num_allowed is computed once and not lowered as the loop sends, so the window is kept exactly
   when what will be sent is no more than num_allowed was at entry.
   */
  lemma WindowKeptExactly(t: Tcb)
    requires InRange(t) && 0 <= t.una <= t.nxt < t.una + 0x8000_0000
    ensures WindowKept(t, SendAll(t)) <==> Allowed(t) <= 0 || Min(|t.send|, t.swnd) <= Allowed(t)
  {
    var segs := SendAllSends(t);
    assert Allowed(t) == t.una + t.swnd - t.nxt;
  }

  /** With nothing in flight the window is kept. */
  lemma WindowKeptWhenIdle(t: Tcb)
    requires InRange(t) && t.una == t.nxt
    ensures WindowKept(t, SendAll(t))
  {
    WindowKeptExactly(t);
  }

  /** 500 bytes in flight in a window of 600, and 200 more waiting: 100 of them go past the edge. */
  lemma WindowCanBeOverrun(t: Tcb)
    requires t.una == 1 && t.nxt == 501 && t.swnd == 600 && |t.send| == 200
    ensures SendAll(t).nxt == 701 && t.una + t.swnd == 601
  {
    var segs := SendAllSends(t);
  }

  /** A block as the handshake leaves it, the peer offering a whole buffer. */
  ghost predicate Ready(t: Tcb) {
    && t.state == ESTABLISHED && t.using == Idle && t.send == [] && t.recv == [] && t.pending == []
    && t.una == t.nxt && 2 <= t.nxt <= 1001 && t.swnd == TCP_BUFFER_SIZE
    && 1 <= t.rnxt <= 1001 && t.rwnd == TCP_BUFFER_SIZE
  }

  /** A pure ACK of the first n bytes, from a peer whose application has read nothing. */
  function PartialAck(t: Tcb, n: nat): Segment {
    Segment(t.rnxt, t.nxt + n, false, true, false, TCP_BUFFER_SIZE - n, [])
  }

  lemma AckTaken(t: Tcb, p: Segment)
    requires t.state == ESTABLISHED && t.using == Idle && t.pending == [p] && t.recv == [] && t.rwnd == TCP_BUFFER_SIZE
    requires 1 <= t.rnxt <= 1001 && p.seqno == t.rnxt && SegLen(p) == 0 && p.ack && InsideWindow(t, p)
    ensures Step(t, Arrival(1)) == t.(pending := [], una := p.ackno, swnd := p.win)
  {
    var t1 := t.(pending := t.pending[1..]);
    assert t.pending[1..] == [] && Acceptable(t1, p);
    assert OnSegment(t1, ESTABLISHED, p) == UpdateWndAndUna(t1, p);
    assert ArrivalLoop(UpdateWndAndUna(t1, p), ESTABLISHED) == UpdateWndAndUna(t1, p);
    assert ArrivalLoop(t, ESTABLISHED) == UpdateWndAndUna(t1, p);
  }

  lemma WriteAndSend(t: Tcb, data: seq<byte>)
    requires t.state == ESTABLISHED && t.using == Idle && t.send == [] && 0 <= t.nxt < 0x1_0000 && Allowed(t) > 0
    requires |data| <= t.swnd <= TCP_BUFFER_SIZE
    ensures var r := Step(Step(t, AppWrite(data)), Sending);
      r == t.(send := [], nxt := t.nxt + |data|, swnd := t.swnd - |data|, out := r.out)
  {
    var t1 := Step(t, AppWrite(data));
    assert t1.send == data;
    var segs := SendAllSends(t1);
    var r := SendAll(t1);
    assert |r.send| == 0;
  }

  /**
   A run that gets there: 4000 bytes are written and sent, the peer acknowledges 1000 of them in a window
   that still ends at 4096, and 200 more bytes are written and sent.  104 of them lie past that end.
   */
  lemma OverrunReached(t: Tcb, data: seq<byte>, more: seq<byte>)
    requires Ready(t) && |data| == 4000 && |more| == 200
    ensures var ack := PartialAck(t, 1000);
      var sent := Step(Step(t, AppWrite(data)), Sending);
      var acked := Step(Step(sent, Delivery(ack)), Arrival(1));
      var r := Step(Step(acked, AppWrite(more)), Sending);
      && acked.una == ack.ackno && acked.una + acked.swnd == t.nxt + TCP_BUFFER_SIZE
      && r.nxt == t.nxt + 4200 && r.nxt > acked.una + acked.swnd
  {
    var ack := PartialAck(t, 1000);
    WriteAndSend(t, data);
    var sent := Step(Step(t, AppWrite(data)), Sending);
    AckTaken(Step(sent, Delivery(ack)), ack);
    WriteAndSend(Step(Step(sent, Delivery(ack)), Arrival(1)), more);
  }
}
