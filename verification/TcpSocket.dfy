/**
 tcp_data as the code has it: fields updated in place by the handlers and their helpers.
 Each method is proved to take the block where the functions of module Tcp say; those functions
 are what the theorems about runs speak of.
 */
module TcpSocket {
  import opened Common
  import opened Tcp

  class TcpData {
    var state: State
    var iss: int
    var una: int
    var nxt: int
    var swnd: int
    var irs: int
    var rnxt: int
    var rwnd: int
    var send: seq<byte>
    var recv: seq<byte>
    var recvClosed: bool
    var pending: seq<Segment>
    var out: seq<Segment>
    var using: Using
    ghost var refused: nat

    ghost function View(): Tcb
      reads this
    {
      Tcb(state, iss, una, nxt, swnd, irs, rnxt, rwnd, send, recv, recvClosed, pending, out, using, refused)
    }

    predicate MayWriteNow(data: seq<byte>)
      reads this
      ensures MayWriteNow(data) == MayWrite(View(), data)
    {
      && (state == SYN_SENT || state == SYN_RCVD || state == ESTABLISHED || state == CLOSE_WAIT)
      && |send| + |data| <= TCP_BUFFER_SIZE
    }

    method SendPacket(p: Segment)
      modifies `out
      ensures View() == Emit(old(View()), p)
    {
      out := out + [p];
    }

    method SendACK()
      modifies `out
      ensures View() == SendAck(old(View()))
    {
      SendPacket(Segment(nxt, rnxt, false, true, false, U16(rwnd), []));
    }

    method UpdateWndAndUnaFrom(p: Segment)
      modifies `una, `swnd
      ensures View() == UpdateWndAndUna(old(View()), p)
    {
      una := p.ackno;
      swnd := p.win;
    }

    method AcceptabilityTest(p: Segment) returns (ok: bool)
      ensures ok == Acceptable(View(), p)
    {
      if SegLen(p) == 0 {
        if rwnd == 0 {
          return p.seqno == rnxt;
        } else {
          return rnxt <= p.seqno && p.seqno < U32(rnxt + rwnd);
        }
      } else if rwnd > 0 {
        var cond1 := rnxt <= p.seqno && p.seqno < U32(rnxt + rwnd);
        var cond2 := rnxt <= p.seqno + SegLen(p) - 1 && p.seqno + SegLen(p) - 1 < U32(rnxt + rwnd);
        return cond1 || cond2;
      }
      return false;
    }

    /** One pass of send_all: n bytes leave the send buffer in a segment. */
    method SendData(n: nat)
      requires n <= |send|
      modifies `send, `nxt, `swnd, `out
      ensures View() == SendOne(old(View()), n)
    {
      var p := Segment(nxt, rnxt, false, true, false, U16(rwnd), send[..n]);
      send := send[n..];
      nxt := U32(nxt + n);
      swnd := U32(swnd - n);
      SendPacket(p);
    }

    /** send_all.  num_allowed is computed before the loop and not again. */
    method SendAllData()
      modifies `send, `nxt, `swnd, `out
      ensures View() == SendAll(old(View()))
    {
      var numAllowed := S32(una + swnd - nxt);
      var toSend := Min(numAllowed, Min(Min(TCP_MSS, S32(swnd)), |send|));
      while |send| > 0 && toSend > 0
        invariant toSend == ToSend(View(), numAllowed)
        invariant SendLoop(View(), numAllowed) == SendLoop(old(View()), numAllowed)
        decreases |send|
      {
        SendData(toSend);
        toSend := Min(numAllowed, Min(Min(TCP_MSS, S32(swnd)), |send|));
      }
    }

    /** always_on_fb */
    method AlwaysOnFin(p: Segment)
      modifies `rnxt, `out, `recvClosed
      ensures View() == OnFin(old(View()), p)
    {
      rnxt := p.seqno;
      SendACK();
      recvClosed := true;
    }

    /** The handler of state h after use_data. */
    method FinishSegment(h: State, p: Segment)
      modifies `rnxt, `out, `recvClosed, `state
      ensures View() == AfterData(old(View()), h, p)
    {
      if !p.fin || !(Receives(h) || h == CLOSE_WAIT || h == CLOSING) {
        return;
      }
      AlwaysOnFin(p);
      if h == ESTABLISHED {
        state := CLOSE_WAIT;
      } else if h == FIN_WAIT_1 {
        state := if una < p.ackno && p.ackno <= nxt then TIME_WAIT else CLOSING;
      } else if h == FIN_WAIT_2 {
        state := TIME_WAIT;
      }
    }

    method CountWritten(len: int)
      modifies `rnxt, `rwnd, `using
      ensures View() == old(View()).(rnxt := U32(old(rnxt) + len), rwnd := U32(old(rwnd) - len), using := Idle)
    {
      rnxt := U32(rnxt + len);
      rwnd := U32(rwnd - len);
      using := Idle;
    }

    /** use_data from where circular_buffer_write has returned len. */
    method AfterWrite(h: State, p: Segment, len: int)
      modifies `rnxt, `rwnd, `using, `out, `recvClosed, `state
      ensures View() == DataUsed(old(View()), h, p, len)
    {
      CountWritten(len);
      SendACK();
      FinishSegment(h, p);
    }

    /** Copies bytes into the receive buffer while there is room; returns how many. */
    method Fill(rest: seq<byte>) returns (n: nat)
      modifies `recv
      ensures n == Min(|rest|, if Available(old(View())) > 0 then Available(old(View())) else 0)
      ensures recv == old(recv) + rest[..n]
    {
      n := 0;
      while n < |rest| && |recv| < TCP_BUFFER_SIZE
        invariant 0 <= n <= |rest| && recv == old(recv) + rest[..n]
        invariant n == 0 || |recv| <= TCP_BUFFER_SIZE
      {
        recv := recv + [rest[n]];
        n := n + 1;
      }
    }

    /** The write in progress goes on until it is done or the buffer is full. */
    method WriteOn()
      requires using.Using?
      modifies `recv, `rnxt, `rwnd, `using, `out, `recvClosed, `state
      ensures View() == WriteSome(old(View()))
    {
      var Using(h, p, rest, len) := using;
      var n := Fill(rest);
      using := Using(h, p, rest[n..], len);
      if n == |rest| {
        AfterWrite(h, p, len);
      }
    }

    method UseSegmentData(h: State, p: Segment)
      modifies `recv, `rnxt, `rwnd, `using, `out, `recvClosed, `state
      ensures View() == UseData(old(View()), h, p)
    {
      if recvClosed {
        AfterWrite(h, p, 0);
      } else {
        var len := if |p.payload| <= TCP_BUFFER_SIZE then |p.payload| else TCP_BUFFER_SIZE;
        using := Using(h, p, p.payload[..len], len);
        WriteOn();
      }
    }

    /** The ACK of an acceptable segment, in the handler of state h. */
    method TakeAck(h: State, p: Segment)
      modifies `una, `swnd, `state
      ensures View() == OnAck(old(View()), h, p)
    {
      if una < p.ackno && p.ackno <= nxt {
        if h == LAST_ACK {
          state := CLOSED;
        } else {
          UpdateWndAndUnaFrom(p);
          if h == FIN_WAIT_1 {
            state := FIN_WAIT_2;
          } else if h == CLOSING {
            state := TIME_WAIT;
          }
        }
      }
    }

    method TakeSegment(h: State, p: Segment)
      modifies `una, `swnd, `state, `recv, `rnxt, `rwnd, `using, `out, `recvClosed
      ensures View() == OnSegment(old(View()), h, p)
    {
      if p.ack && (h == ESTABLISHED ==> !p.syn) {
        TakeAck(h, p);
        if state == CLOSED || h == LAST_ACK {
        } else if Receives(h) && |p.payload| > 0 {
          UseSegmentData(h, p);
        } else {
          FinishSegment(h, p);
        }
      }
    }

    method FetchPending() returns (pack: Segment)
      requires pending != []
      modifies `pending
      ensures pack == old(pending[0]) && View() == old(View()).(pending := old(pending)[1..])
    {
      pack := pending[0];
      pending := pending[1..];
    }

    method RefuseSegment(pack: Segment)
      modifies `out, `refused
      ensures View() == Refuse(old(View()), pack)
    {
      SendACK();
      refused := refused + if |pack.payload| > 0 then 1 else 0;
    }

    /** The loop over pending packets in the handler of state h. */
    method PacketLoop(h: State)
      modifies this
      ensures View() == ArrivalLoop(old(View()), h)
    {
      while pending != [] && using.Idle? && !(Receives(h) && |recv| == TCP_BUFFER_SIZE) && state != CLOSED
        invariant ArrivalLoop(View(), h) == ArrivalLoop(old(View()), h)
        decreases |pending|
      {
        var pack := FetchPending();
        var ok := AcceptabilityTest(pack);
        if !ok {
          RefuseSegment(pack);
          return;
        }
        TakeSegment(h, pack);
      }
    }

    method ChooseIss(isn: int)
      modifies `iss, `rwnd
      ensures View() == old(View()).(iss := isn, rwnd := Available(old(View())))
    {
      iss := isn;
      rwnd := TCP_BUFFER_SIZE - |recv|;
    }

    method HandleConnect(isn: int)
      modifies `iss, `una, `nxt, `rwnd, `out, `state
      ensures View() == Connect(old(View()), isn)
      ensures state == SYN_SENT && una == isn && nxt == isn + 1 && rwnd == TCP_BUFFER_SIZE - |recv|
      ensures |out| == |old(out)| + 1 && out[|old(out)|].syn && out[|old(out)|].seqno == una
    {
      ChooseIss(isn);
      una := iss;
      nxt := iss + 1;
      SendPacket(Segment(iss, U32(iss + 1), true, false, false, U16(rwnd), []));
      state := SYN_SENT;
    }

    /** Receive-side values taken from a SYN. */
    method NoteSyn(pack: Segment)
      modifies `rnxt, `irs
      ensures View() == old(View()).(rnxt := U32(pack.seqno + 1), irs := pack.seqno)
    {
      rnxt := U32(pack.seqno + 1);
      irs := pack.seqno;
    }

    method SendSynAck()
      modifies `out
      ensures View() == Emit(old(View()), SynAck(old(View())))
    {
      SendPacket(Segment(iss, rnxt, true, true, false, U16(rwnd), []));
    }

    method AwaitAck(win: int)
      modifies `swnd, `nxt, `una, `state
      ensures View() == old(View()).(swnd := win, nxt := old(iss) + 1, una := old(iss), state := SYN_RCVD)
    {
      swnd := win;
      nxt := iss + 1;
      una := iss;
      state := SYN_RCVD;
    }

    method HandleListenArrival(pack: Segment, isn: int)
      modifies `rnxt, `irs, `iss, `rwnd, `out, `swnd, `nxt, `una, `state
      ensures View() == ListenArrival(old(View()), pack, isn)
      ensures pack.syn ==> state == SYN_RCVD && una == isn && nxt == isn + 1 && swnd == pack.win
      ensures pack.syn ==> |out| == |old(out)| + 1 && out[|old(out)|].syn && out[|old(out)|].ackno == rnxt
      ensures pack.syn ==> rnxt == U32(pack.seqno + 1)
    {
      if pack.syn {
        NoteSyn(pack);
        ChooseIss(isn);
        SendSynAck();
        AwaitAck(pack.win);
      }
    }

    method HandleSynRcvdArrival(pack: Segment)
      modifies `una, `swnd, `state, `out, `refused
      ensures View() == SynRcvdArrival(old(View()), pack)
      ensures state == ESTABLISHED && old(state) == SYN_RCVD ==> una == nxt && pack.ack && old(una) <= pack.ackno <= nxt
    {
      var ok := AcceptabilityTest(pack);
      if ok {
        if pack.ack && una <= pack.ackno && pack.ackno <= nxt {
          una := nxt;
          swnd := pack.win;
          state := ESTABLISHED;
        } else {
          SendACK();
          swnd := pack.win;
        }
      } else {
        refused := refused + if |pack.payload| > 0 then 1 else 0;
      }
    }

    method HandleSynSentArrival(pack: Segment)
      modifies `rnxt, `irs, `swnd, `una, `out, `state
      ensures View() == SynSentArrival(old(View()), pack)
      ensures state == ESTABLISHED && old(state) == SYN_SENT ==> una == nxt && pack.syn && rnxt == U32(pack.seqno + 1)
    {
      if ((pack.ack && una <= pack.ackno && pack.ackno <= nxt) || !pack.ack) && pack.syn {
        NoteSyn(pack);
        if pack.ack {
          swnd := pack.win;
          una := pack.ackno;
        }
        if una > iss {
          SendACK();
          una := nxt;
          state := ESTABLISHED;
        } else {
          SendSynAck();
          state := SYN_RCVD;
        }
      }
    }

    /** PACKET_ARRIVAL in any state. */
    method HandleArrival(isn: int)
      modifies this
      ensures View() == OnArrival(old(View()), isn)
    {
      if Synchronized(state) {
        PacketLoop(state);
      } else if pending != [] && (state == LISTEN || state == SYN_RCVD || state == SYN_SENT) {
        var pack := FetchPending();
        if state == LISTEN {
          HandleListenArrival(pack, isn);
        } else if state == SYN_RCVD {
          HandleSynRcvdArrival(pack);
        } else {
          HandleSynSentArrival(pack);
        }
      }
    }

    /** APPLICATION_CLOSE in ESTABLISHED and in CLOSE_WAIT. */
    method HandleClose()
      modifies `send, `nxt, `swnd, `out, `recvClosed, `state
      ensures View() == Close(old(View()))
      ensures out != [] && out[|out| - 1].fin && out[|out| - 1].seqno == nxt && recvClosed
    {
      SendAllData();
      SendPacket(Segment(nxt, rnxt, false, false, true, U16(rwnd), []));
      recvClosed := true;
      state := if state == ESTABLISHED then FIN_WAIT_1 else LAST_ACK;
    }

    method ResumeWrite()
      modifies this
      ensures View() == Resume(old(View()))
    {
      if using.Using? && !recvClosed {
        var h := using.handler;
        WriteOn();
        PacketLoop(h);
      }
    }

    /** One step of the socket: an event for its thread, or something done to its queue and buffers. */
    method Handle(e: Event)
      modifies this
      ensures View() == Step(old(View()), e)
    {
      match e
      case Delivery(p) => pending := pending + [p];
      case AppWrite(data) => if MayWriteNow(data) { send := send + data; }
      case AppRead(n) => if !recvClosed { recv := recv[Min(n, |recv|)..]; }
      case Resuming => ResumeWrite();
      case Connecting(isn) => if using.Idle? && state == CLOSED { HandleConnect(isn); }
      case Sending => if using.Idle? && state == ESTABLISHED { SendAllData(); }
      case Receiving => if using.Idle? && state == ESTABLISHED { rwnd := U32(TCP_BUFFER_SIZE - |recv|); }
      case Closing => if using.Idle? && (state == ESTABLISHED || state == CLOSE_WAIT) { HandleClose(); }
      case Arrival(isn) => if using.Idle? { HandleArrival(isn); }
    }
  }
}
