/**
 The sequence-space engine of chiTCP, as functions on a transmission control block: what each
 handler of each state does with an event, one wait-free stretch at a time.  A handler that
 blocks writing to the full receive buffer is suspended in `using` and goes on in `Resume`.
 Names follow RFC 793; sequence numbers are 32-bit and wrap where the code lets them.
 */
module Tcp {
  import opened Common

  const TCP_BUFFER_SIZE := 4096
  const TCP_MSS := 536

  function U16(x: int): (r: int)
    ensures 0 <= r < 0x1_0000
  {
    x % 0x1_0000
  }

  /** What a 32-bit pattern is when it is read as a C int. */
  function S32(x: int): int {
    if U32(x) < 0x8000_0000 then U32(x) else U32(x) - 0x1_0000_0000
  }

  datatype State =
    | CLOSED | LISTEN | SYN_RCVD | SYN_SENT | ESTABLISHED
    | FIN_WAIT_1 | FIN_WAIT_2 | CLOSE_WAIT | CLOSING | TIME_WAIT | LAST_ACK

  datatype Segment = Segment(
    seqno: int, ackno: int, syn: bool, ack: bool, fin: bool, win: int, payload: seq<byte>)

  function SegLen(p: Segment): nat {
    (if p.syn then 1 else 0) + (if p.fin then 1 else 0) + |p.payload|
  }

  /** A use_data in progress in the handler of state `handler`: `rest` is still to be written. */
  datatype Using = Idle | Using(handler: State, pack: Segment, rest: seq<byte>, len: int)

  /** The block, its buffers and queues.  `refused` counts the data segments turned away so far. */
  datatype Tcb = Tcb(
    state: State,
    iss: int, una: int, nxt: int, swnd: int,
    irs: int, rnxt: int, rwnd: int,
    send: seq<byte>, recv: seq<byte>, recvClosed: bool,
    pending: seq<Segment>, out: seq<Segment>,
    using: Using, refused: nat)

  function Available(t: Tcb): int {
    TCP_BUFFER_SIZE - |t.recv|
  }

  function Emit(t: Tcb, p: Segment): Tcb {
    t.(out := t.out + [p])
  }

  function AckSegment(t: Tcb, payload: seq<byte>): Segment {
    Segment(t.nxt, t.rnxt, false, true, false, U16(t.rwnd), payload)
  }

  function SendAck(t: Tcb): Tcb {
    Emit(t, AckSegment(t, []))
  }

  // ---------- tests on an incoming segment ----------

  /** The last line of the test adds in 64 bits on the left and in 32 on the right. */
  predicate Acceptable(t: Tcb, p: Segment) {
    if SegLen(p) == 0 then
      if t.rwnd == 0 then p.seqno == t.rnxt
      else t.rnxt <= p.seqno < U32(t.rnxt + t.rwnd)
    else
      && t.rwnd > 0
      && (t.rnxt <= p.seqno < U32(t.rnxt + t.rwnd) ||
          t.rnxt <= p.seqno + SegLen(p) - 1 < U32(t.rnxt + t.rwnd))
  }

  predicate InsideWindow(t: Tcb, p: Segment) {
    t.una < p.ackno <= t.nxt
  }

  function UpdateWndAndUna(t: Tcb, p: Segment): Tcb {
    t.(una := p.ackno, swnd := p.win)
  }

  // ---------- send_all ----------

  function ToSend(t: Tcb, allowed: int): int {
    Min(allowed, Min(Min(TCP_MSS, S32(t.swnd)), |t.send|))
  }

  function SendOne(t: Tcb, n: nat): Tcb
    requires n <= |t.send|
  {
    Emit(t.(send := t.send[n..], nxt := U32(t.nxt + n), swnd := U32(t.swnd - n)),
         AckSegment(t, t.send[..n]))
  }

  /** send_all changes SND.NXT, SND.WND, the send buffer and the wire; the loop ends as the buffer shrinks. */
  function SendLoop(t: Tcb, allowed: int): (r: Tcb)
    ensures r == t.(send := r.send, nxt := r.nxt, swnd := r.swnd, out := r.out)
    decreases |t.send|
  {
    var n := ToSend(t, allowed);
    if |t.send| > 0 && n > 0 then SendLoop(SendOne(t, n), allowed) else t
  }

  function Allowed(t: Tcb): int {
    S32(t.una + t.swnd - t.nxt)
  }

  function SendAll(t: Tcb): Tcb {
    SendLoop(t, Allowed(t))
  }

  // ---------- use_data and what follows it ----------

  /** Receiving leaves the queue and the send side alone, but for SND.UNA and SND.WND. */
  predicate SameSendSide(t: Tcb, t': Tcb) {
    && t'.pending == t.pending && t'.send == t.send && t'.iss == t.iss && t'.nxt == t.nxt
    && t'.refused == t.refused
  }

  function OnFin(t: Tcb, p: Segment): Tcb {
    SendAck(t.(rnxt := p.seqno)).(recvClosed := true)
  }

  /** The rest of the handler of state h for p, after its payload has been used. */
  function AfterData(t: Tcb, h: State, p: Segment): (r: Tcb)
    ensures SameSendSide(t, r) && r.una == t.una && r.using == t.using && r.recv == t.recv
    ensures r.state == t.state || (r.state != CLOSED && r.state != LISTEN)
  {
    if !p.fin then t
    else
      match h
      case ESTABLISHED => OnFin(t, p).(state := CLOSE_WAIT)
      case FIN_WAIT_1 => OnFin(t, p).(state := if InsideWindow(OnFin(t, p), p) then TIME_WAIT else CLOSING)
      case FIN_WAIT_2 => OnFin(t, p).(state := TIME_WAIT)
      case CLOSE_WAIT => OnFin(t, p)
      case CLOSING => OnFin(t, p)
      case _ => t
  }

  /** The write of `len` bytes has returned. */
  function DataUsed(t: Tcb, h: State, p: Segment, len: int): (r: Tcb)
    ensures SameSendSide(t, r) && r.una == t.una && r.using == Idle && r.recv == t.recv
    ensures r.state == t.state || (r.state != CLOSED && r.state != LISTEN)
  {
    AfterData(SendAck(t.(rnxt := U32(t.rnxt + len), rwnd := U32(t.rwnd - len), using := Idle)), h, p)
  }

  /** Writes what fits of what is still to be written; the rest waits for the reader. */
  function WriteSome(t: Tcb): (r: Tcb)
    requires t.using.Using?
    ensures SameSendSide(t, r) && r.una == t.una
    ensures r.state == t.state || (r.state != CLOSED && r.state != LISTEN)
  {
    var Using(h, p, rest, len) := t.using;
    var n := Min(|rest|, if Available(t) > 0 then Available(t) else 0);
    var t' := t.(recv := t.recv + rest[..n], using := Using(h, p, rest[n..], len));
    if n == |rest| then DataUsed(t', h, p, len) else t'
  }

  /** The buffer takes at most its capacity of one write, and nothing once it is closed. */
  function UseData(t: Tcb, h: State, p: Segment): (r: Tcb)
    ensures SameSendSide(t, r) && r.una == t.una
    ensures r.state == t.state || (r.state != CLOSED && r.state != LISTEN)
  {
    if t.recvClosed then DataUsed(t, h, p, 0)
    else
      var len := Min(|p.payload|, TCP_BUFFER_SIZE);
      WriteSome(t.(using := Using(h, p, p.payload[..len], len)))
  }

  // ---------- the handlers of the synchronized states ----------

  predicate Receives(h: State) {
    h == ESTABLISHED || h == FIN_WAIT_1 || h == FIN_WAIT_2
  }

  predicate Synchronized(h: State) {
    Receives(h) || h == CLOSE_WAIT || h == CLOSING || h == LAST_ACK
  }

  predicate Heeded(h: State, p: Segment) {
    p.ack && (h == ESTABLISHED ==> !p.syn)
  }

  function OnAck(t: Tcb, h: State, p: Segment): Tcb {
    if !InsideWindow(t, p) then t
    else
      match h
      case FIN_WAIT_1 => UpdateWndAndUna(t, p).(state := FIN_WAIT_2)
      case CLOSING => UpdateWndAndUna(t, p).(state := TIME_WAIT)
      case LAST_ACK => t.(state := CLOSED)
      case _ => UpdateWndAndUna(t, p)
  }

  /** An acceptable segment in the handler of state h. */
  function OnSegment(t: Tcb, h: State, p: Segment): (r: Tcb)
    ensures SameSendSide(t, r) && (r.una == t.una || (r.una == p.ackno && InsideWindow(t, p)))
    ensures r.state == t.state || (r.state != LISTEN && (r.state == CLOSED ==> r.using == t.using))
  {
    if !Heeded(h, p) then t
    else
      var t1 := OnAck(t, h, p);
      if t1.state == CLOSED || h == LAST_ACK then t1
      else if Receives(h) && |p.payload| > 0 then UseData(t1, h, p)
      else AfterData(t1, h, p)
  }

  function Refuse(t: Tcb, p: Segment): Tcb {
    SendAck(t).(refused := t.refused + if |p.payload| > 0 then 1 else 0)
  }

  /** The loop of the handler of state h over the pending packets, up to a wait or its end. */
  function ArrivalLoop(t: Tcb, h: State): (r: Tcb)
    ensures t.refused <= r.refused
    decreases |t.pending|
  {
    if t.pending == [] || t.using.Using? || (Receives(h) && Available(t) == 0) || t.state == CLOSED then t
    else
      var p := t.pending[0];
      var t1 := t.(pending := t.pending[1..]);
      if !Acceptable(t1, p) then Refuse(t1, p)
      else ArrivalLoop(OnSegment(t1, h, p), h)
  }

  // ---------- the handlers before synchronization ----------

  function Connect(t: Tcb, iss: int): Tcb {
    var t1 := t.(iss := iss, una := iss, nxt := iss + 1, rwnd := Available(t));
    Emit(t1, Segment(iss, U32(iss + 1), true, false, false, U16(t1.rwnd), [])).(state := SYN_SENT)
  }

  function SynAck(t: Tcb): Segment {
    Segment(t.iss, t.rnxt, true, true, false, U16(t.rwnd), [])
  }

  function ListenArrival(t: Tcb, p: Segment, iss: int): Tcb {
    if !p.syn then t
    else
      var t1 := t.(rnxt := U32(p.seqno + 1), irs := p.seqno, iss := iss, rwnd := Available(t));
      Emit(t1, SynAck(t1)).(swnd := p.win, nxt := iss + 1, una := iss, state := SYN_RCVD)
  }

  function SynRcvdArrival(t: Tcb, p: Segment): Tcb {
    if !Acceptable(t, p) then t.(refused := t.refused + if |p.payload| > 0 then 1 else 0)
    else if p.ack && t.una <= p.ackno <= t.nxt then t.(una := t.nxt, swnd := p.win, state := ESTABLISHED)
    else SendAck(t).(swnd := p.win)
  }

  function SynSentArrival(t: Tcb, p: Segment): Tcb {
    if p.syn && (p.ack ==> t.una <= p.ackno <= t.nxt) then
      var t1 := t.(rnxt := U32(p.seqno + 1), irs := p.seqno);
      var t2 := if p.ack then UpdateWndAndUna(t1, p) else t1;
      if t2.una > t2.iss then SendAck(t2).(una := t2.nxt, state := ESTABLISHED)
      else Emit(t2, SynAck(t2)).(state := SYN_RCVD)
    else t
  }

  // ---------- events ----------

  /** What reaches a socket: the events of its TCP thread, and what others do to its buffers and queue. */
  datatype Event =
    | Connecting(iss: int)
    | Sending
    | Receiving
    | Closing
    | Arrival(iss: int)
    | Resuming
    | Delivery(p: Segment)
    | AppWrite(data: seq<byte>)
    | AppRead(n: nat)

  function Fin(t: Tcb): Segment {
    Segment(t.nxt, t.rnxt, false, false, true, U16(t.rwnd), [])
  }

  function Close(t: Tcb): Tcb {
    var t1 := SendAll(t);
    Emit(t1, Fin(t1)).(recvClosed := true, state := if t.state == ESTABLISHED then FIN_WAIT_1 else LAST_ACK)
  }

  /** PACKET_ARRIVAL, in every state.  Before synchronization it takes one packet off the queue. */
  function OnArrival(t: Tcb, iss: int): Tcb {
    if Synchronized(t.state) then ArrivalLoop(t, t.state)
    else if t.pending == [] then t
    else
      var p, t1 := t.pending[0], t.(pending := t.pending[1..]);
      match t.state
      case LISTEN => ListenArrival(t1, p, iss)
      case SYN_RCVD => SynRcvdArrival(t1, p)
      case SYN_SENT => SynSentArrival(t1, p)
      case _ => t
  }

  /** A suspended write goes on, and the handler's loop after it. */
  function Resume(t: Tcb): Tcb {
    if t.using.Idle? || t.recvClosed then t
    else ArrivalLoop(WriteSome(t), t.using.handler)
  }

  predicate MayWrite(t: Tcb, data: seq<byte>) {
    && (t.state == SYN_SENT || t.state == SYN_RCVD || t.state == ESTABLISHED || t.state == CLOSE_WAIT)
    && |t.send| + |data| <= TCP_BUFFER_SIZE
  }

  /** A suspended thread takes no other event; the application and the network go on. */
  function Step(t: Tcb, e: Event): Tcb {
    match e
    case Delivery(p) => t.(pending := t.pending + [p])
    case AppWrite(data) => if MayWrite(t, data) then t.(send := t.send + data) else t
    case AppRead(n) => if t.recvClosed then t else t.(recv := t.recv[Min(n, |t.recv|)..])
    case Resuming => Resume(t)
    case _ =>
      if t.using.Using? then t
      else
        match e
        case Connecting(iss) => if t.state == CLOSED then Connect(t, iss) else t
        case Sending => if t.state == ESTABLISHED then SendAll(t) else t
        case Receiving => if t.state == ESTABLISHED then t.(rwnd := U32(Available(t))) else t
        case Closing => if t.state == ESTABLISHED || t.state == CLOSE_WAIT then Close(t) else t
        case Arrival(iss) => OnArrival(t, iss)
  }
}
