/**
 When the TCP thread can be sent to handle an arrival with no packet in the queue.  The answer is
 given for every state: it depends on how many flag raises are still to come and whether one of them
 is needed for a packet that is there.
 */
module PacketArrival {
  import opened PacketQueue
  import opened Runs

  /** A step by which no packet comes nearer to the queue; application calls and the cleanup flag are allowed. */
  ghost predicate QuietMoves(s: State, e: Event, s': State) {
    Moves(s, e, s') && !e.Incoming? && !e.Enqueue?
  }

  /** PACKET_ARRIVAL is dispatched at the end of the run, and the queue is empty. */
  ghost predicate FindsNothing(tr: seq<State>, es: seq<Event>) {
    |tr| == |es| + 1 && es != [] && es[|es| - 1] == TakeArrival && tr[|es|].pending == []
  }

  function Announcers(es: seq<Enqueuer>): nat {
    if es == [] then 0 else Announcers(es[..|es| - 1]) + if es[|es| - 1].Raising? then 1 else 0
  }

  /** The flag is up, or the thread itself is about to raise it. */
  predicate FlagAhead(s: State) {
    s.netRecv || s.pc == Reraise || (s.pc == Check && s.pending != [])
  }

  /** How often PACKET_ARRIVAL can yet be dispatched before a packet is found left over. */
  function Chances(s: State): nat {
    (if FlagAhead(s) then 1 else 0) + Announcers(s.enqueuers)
  }

  /** One dispatch is spent on the packets there are, unless the handler is already at them. */
  function Need(s: State): nat {
    if s.pending != [] && s.pc != Arrival then 2 else 1
  }

  ghost predicate MayFindNothing(s: State) {
    s.pc != Gone && Chances(s) >= Need(s)
  }

  lemma {:induction false} AnnouncersChange(es: seq<Enqueuer>, i: nat)
    requires i < |es| && es[i].Raising?
    ensures Announcers(es[i := Through]) + 1 == Announcers(es)
  {
    var n := |es| - 1;
    if i < n {
      AnnouncersChange(es[..n], i);
      assert es[i := Through][..n] == es[..n][i := Through];
    } else {
      assert es[i := Through][..n] == es[..n];
    }
  }

  lemma {:induction false} SomeAnnouncer(es: seq<Enqueuer>) returns (i: nat)
    requires Announcers(es) > 0
    ensures i < |es| && es[i].Raising?
  {
    i := |es| - 1;
    if !es[i].Raising? {
      i := SomeAnnouncer(es[..i]);
    }
  }

  // ---------- only if ----------

  ghost predicate MayNot(s: State) {
    !MayFindNothing(s)
  }

  lemma QuietKeepsMayNot(s: State, e: Event, s': State)
    requires MayNot(s) && QuietMoves(s, e, s')
    ensures MayNot(s') && !(e == TakeArrival && s'.pending == [])
  {
    if e.Announce? {
      AnnouncersChange(s.enqueuers, e.i);
    }
  }

  lemma NeverIfMayNot(tr: seq<State>, es: seq<Event>)
    requires IsRun(tr, es, QuietMoves) && MayNot(tr[0])
    ensures !FindsNothing(tr, es)
  {
    if es != [] {
      var k := |es| - 1;
      forall s, e, s' | MayNot(s) && QuietMoves(s, e, s') ensures MayNot(s') { QuietKeepsMayNot(s, e, s'); }
      InvariantHolds(tr, es, QuietMoves, MayNot, k);
      assert QuietMoves(tr[k], es[k], tr[k + 1]);
      QuietKeepsMayNot(tr[k], es[k], tr[k + 1]);
    }
  }

  // ---------- if ----------

  /** How far the thread is from its next dispatch of PACKET_ARRIVAL, or from taking a packet. */
  function Distance(s: State): nat {
    if s.pc == Arrival && s.pending != [] then 0
    else
      1 + 2 * |s.apps| + (if s.netRecv then 0 else 1) +
      match s.pc
      case Asleep => 1
      case Serving(_) => 1
      case Reraise => 2
      case Check => 3
      case Arrival => 4
      case _ => 0
  }

  lemma FirstApp(apps: set<App>) returns (a: App)
    requires apps != {}
    ensures a in apps && forall b :: b in apps ==> Rank(a) <= Rank(b)
  {
    a :| a in apps;
    if CLOSE in apps {
      a := CLOSE;
    } else if CONNECT in apps {
      a := CONNECT;
    } else if RECV in apps {
      a := RECV;
    }
  }

  /** The step that leads on, where one is possible at all. */
  lemma Onward(s: State) returns (e: Event)
    requires MayFindNothing(s)
    ensures Enabled(s, e) && QuietMoves(s, e, Next(s, e))
    ensures (e == TakeArrival && s.pending == []) ||
            (MayFindNothing(Next(s, e)) && |Next(s, e).pending| <= |s.pending| &&
             (|Next(s, e).pending| < |s.pending| || Distance(Next(s, e)) < Distance(s)))
  {
    match s.pc
    case Asleep => e := WakeUp;
    case Serving(_) => e := Served;
    case Reraise => e := RaiseAgain;
    case Check => e := LookAgain;
    case Arrival => e := if s.pending != [] then Fetch else Handled;
    case Top =>
      if s.apps != {} {
        var a := FirstApp(s.apps);
        e := TakeApp(a);
      } else if s.netRecv {
        e := TakeArrival;
      } else {
        var i := SomeAnnouncer(s.enqueuers);
        AnnouncersChange(s.enqueuers, i);
        e := Announce(i);
      }
  }

  lemma Preceded(s: State, e: Event, tr: seq<State>, es: seq<Event>)
    requires IsRun(tr, es, QuietMoves) && QuietMoves(s, e, tr[0])
    ensures IsRun([s] + tr, [e] + es, QuietMoves)
  {
    var tr', es' := [s] + tr, [e] + es;
    forall i | 0 <= i < |es'| ensures QuietMoves(tr'[i], es'[i], tr'[i + 1]) {
      if i > 0 {
        var k := i - 1;
        assert QuietMoves(tr[k], es[k], tr[k + 1]);
      }
    }
  }

  lemma {:induction false} LeadsToNothing(s: State) returns (tr: seq<State>, es: seq<Event>)
    requires MayFindNothing(s)
    ensures IsRun(tr, es, QuietMoves) && tr[0] == s && FindsNothing(tr, es)
    decreases |s.pending|, Distance(s)
  {
    var e := Onward(s);
    if e == TakeArrival && s.pending == [] {
      tr, es := [s, Next(s, e)], [e];
    } else {
      var tr1, es1 := LeadsToNothing(Next(s, e));
      Preceded(s, e, tr1, es1);
      tr, es := [s] + tr1, [e] + es1;
    }
  }

  // ---------- exactly when ----------

  /**
   From any state, with no packet coming in or being appended: PACKET_ARRIVAL can be dispatched with
   an empty queue if and only if more raises of the flag are ahead than the packets there are can use up.
   */
  lemma ArrivalFindsNothingIff(s: State)
    ensures (exists tr, es :: IsRun(tr, es, QuietMoves) && tr[0] == s && FindsNothing(tr, es)) <==> MayFindNothing(s)
  {
    if MayFindNothing(s) {
      var tr, es := LeadsToNothing(s);
    } else {
      forall tr, es | IsRun(tr, es, QuietMoves) && tr[0] == s ensures !FindsNothing(tr, es) {
        NeverIfMayNot(tr, es);
      }
    }
  }

  lemma {:induction false} NoAnnouncers(es: seq<Enqueuer>)
    ensures Announcers(es) > 0 <==> exists i :: 0 <= i < |es| && es[i].Raising?
  {
    if es != [] {
      var n := |es| - 1;
      NoAnnouncers(es[..n]);
      if i :| 0 <= i < n && es[i].Raising? {
        assert es[..n][i].Raising?;
      }
    }
  }

  /**
   Before the thread's wait, with no call to serve and the queue empty, that is: the flag is up, or a
   thread has appended a packet, which is gone by now, and not yet raised it.
   */
  lemma BeforeTheWait(s: State)
    requires s.pc == Top && s.pending == [] && s.apps == {}
    ensures (exists tr, es :: IsRun(tr, es, QuietMoves) && tr[0] == s && FindsNothing(tr, es)) <==>
            s.netRecv || exists i :: 0 <= i < |s.enqueuers| && s.enqueuers[i].Raising?
  {
    ArrivalFindsNothingIff(s);
    NoAnnouncers(s.enqueuers);
  }
}
