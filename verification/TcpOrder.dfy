/**
 Sequence-number order over whole runs of one socket, against any segments whatever: from the
 first SYN to the teardown, ISS <= SND.UNA <= SND.NXT, and neither of the two ever steps back.
 The teardown states are included with the behaviour the code gives them.
 */
module TcpOrder {
  import opened Runs
  import opened Tcp

  ghost predicate Ordered(t: Tcb) {
    t.iss <= t.una <= t.nxt
  }

  /** The next send_all cannot wrap SND.NXT round. */
  ghost predicate Fits(t: Tcb) {
    0 <= t.nxt && t.nxt + |t.send| < 0x1_0000_0000
  }

  ghost predicate Live(t: Tcb) {
    t.state != CLOSED && t.state != LISTEN
  }

  /** What every reachable state satisfies. */
  ghost predicate Sane(t: Tcb) {
    if Live(t) then Ordered(t) else t.using == Idle
  }

  ghost predicate Advances(t: Tcb, t': Tcb) {
    Ordered(t') && t'.iss == t.iss && t.una <= t'.una && t.nxt <= t'.nxt
  }

  lemma {:induction false} SendLoopAdvances(t: Tcb, allowed: int)
    requires Ordered(t) && Fits(t)
    ensures Advances(t, SendLoop(t, allowed)) && SendLoop(t, allowed).una == t.una
    decreases |t.send|
  {
    var n := ToSend(t, allowed);
    if |t.send| > 0 && n > 0 {
      SendLoopAdvances(SendOne(t, n), allowed);
    }
  }

  lemma {:induction false} ArrivalLoopAdvances(t: Tcb, h: State)
    requires Ordered(t)
    ensures Advances(t, ArrivalLoop(t, h))
    ensures Live(t) && !Live(ArrivalLoop(t, h)) ==> ArrivalLoop(t, h).using == Idle
    decreases |t.pending|
  {
    if t.pending == [] || t.using.Using? || (Receives(h) && Available(t) == 0) || t.state == CLOSED {
    } else {
      var p, t1 := t.pending[0], t.(pending := t.pending[1..]);
      if Acceptable(t1, p) {
        ArrivalLoopAdvances(OnSegment(t1, h, p), h);
      }
    }
  }

  /** One step of a live socket keeps the order and moves nothing back, unless it tears the socket down. */
  lemma StepAdvances(t: Tcb, e: Event)
    requires Fits(t) && Sane(t)
    ensures Sane(Step(t, e))
    ensures Live(t) && Live(Step(t, e)) ==> Advances(t, Step(t, e))
  {
    match e
    case Resuming =>
      if t.using.Using? && !t.recvClosed && Live(t) {
        ArrivalLoopAdvances(WriteSome(t), t.using.handler);
      }
    case Sending =>
      if Live(t) { SendLoopAdvances(t, Allowed(t)); }
    case Closing =>
      if Live(t) { SendLoopAdvances(t, Allowed(t)); }
    case Arrival(iss) =>
      if Synchronized(t.state) { ArrivalLoopAdvances(t, t.state); }
    case _ =>
  }

  ghost predicate Moves(t: Tcb, e: Event, t': Tcb) {
    t' == Step(t, e)
  }

  lemma {:induction false} RunSane(tr: seq<Tcb>, es: seq<Event>, j: nat)
    requires IsRun(tr, es, Moves) && !Live(tr[0]) && tr[0].using == Idle && j < |tr|
    requires forall k :: 0 <= k < |tr| ==> Fits(tr[k])
    ensures Sane(tr[j])
    decreases j
  {
    if j > 0 {
      RunSane(tr, es, j - 1);
      StepAdvances(tr[j - 1], es[j - 1]);
      assert Moves(tr[j - 1], es[j - 1], tr[j - 1 + 1]);
    }
  }

  /** RFC 793, section 3.3: while the socket lives, its send sequence variables only advance. */
  lemma {:induction false} RunAdvances(tr: seq<Tcb>, es: seq<Event>, i: nat, j: nat)
    requires IsRun(tr, es, Moves) && !Live(tr[0]) && tr[0].using == Idle && i <= j < |tr|
    requires forall k :: 0 <= k < |tr| ==> Fits(tr[k])
    requires forall k :: i <= k <= j ==> Live(tr[k])
    ensures Ordered(tr[i]) && Advances(tr[i], tr[j])
    decreases j
  {
    RunSane(tr, es, i);
    if i < j {
      RunAdvances(tr, es, i, j - 1);
      StepAdvances(tr[j - 1], es[j - 1]);
      assert Moves(tr[j - 1], es[j - 1], tr[j - 1 + 1]);
    }
  }
}
