/**
 Whose status a MODE of chirc changes.  A channel keeps the nick that a user joined with, a client the
 nick it has now, and MODE looks in both lists.
 */
module ChircNicks {
  import opened Common
  import opened Runs
  import opened ChircTables

  /** The member that the channel lists first under a nick. */
  function Named(us: seq<ChanUser>, nick: string): int
    requires Has(us, NickOf, nick)
  {
    us[First(us, NickOf, nick)].sock
  }

  /** On this channel, the record of one socket changes as it should and no other record changes. */
  ghost predicate ChangesOnly(t: Tables, t': Tables, chan: string, sock: int, c: Change) {
    forall s :: AtChannel(t'.channels, chan, s) ==
                if s == sock then Changed(AtChannel(t.channels, chan, s), c) else AtChannel(t.channels, chan, s)
  }

  ghost predicate NothingToChange(t: Tables, chan: string, sock: int, c: Change) {
    Changed(AtChannel(t.channels, chan, sock), c) == AtChannel(t.channels, chan, sock)
  }

  /**
   MODE changes the status of the member that the channel lists under the nick, and of nobody else, if
   and only if the nick is that member's among the clients too, or there is nothing to change, neither
   for the member listed nor for the client found.
   */
  lemma ModeChangesNamedIff(t: Tables, sock: int, chan: string, mode: string, member: string)
    requires Inv(t) && MayChange(t, sock, chan) && StatusChange(mode).Some?
    requires Has(UsersOf(t.channels, chan), NickOf, member)
    ensures
      var named, target, c :=
        Named(UsersOf(t.channels, chan), member), SockOfNick(t.clients, member), StatusChange(mode).value;
      ChangesOnly(t, Mode(t, sock, chan, Some(mode), Some(member)), chan, named, c) <==>
      target == named || (NothingToChange(t, chan, named, c) && NothingToChange(t, chan, target, c))
  {
    var named, target, c :=
      Named(UsersOf(t.channels, chan), member), SockOfNick(t.clients, member), StatusChange(mode).value;
    var t' := Mode(t, sock, chan, Some(mode), Some(member));
    SetStatusKeeps(t, target, chan, c);
    if ChangesOnly(t, t', chan, named, c) {
      assert AtChannel(t'.channels, chan, named) == Changed(AtChannel(t.channels, chan, named), c);
      assert target != named ==> AtChannel(t'.channels, chan, target) == AtChannel(t.channels, chan, target);
    }
  }

  /** NICK gives a client a nick exactly if no client has it, or it is empty, and changes no other client. */
  lemma NickTakenIff(t: Tables, sock: int, nick: string)
    requires Inv(t) && Registered(t, sock)
    ensures var t', taken := Nick(t, sock, nick), exists j :: 0 <= j < |t.clients| && t.clients[j].nick == nick;
      && t'.channels == t.channels && |t'.clients| == |t.clients|
      && forall j :: 0 <= j < |t.clients| ==>
           (t'.clients[j] ==
            if t.clients[j].sock == sock && (nick == "" || !taken) then t.clients[j].(nick := nick) else t.clients[j])
  {
    var i := First(t.clients, ClientSock, sock);
    forall j | 0 <= j < |t.clients| ensures t.clients[j].sock == sock <==> j == i {
      assert ClientSock(t.clients[j]) == t.clients[j].sock && ClientSock(t.clients[i]) == sock;
    }
    if j :| 0 <= j < |t.clients| && t.clients[j].nick == nick {
      assert ClientNick(t.clients[j]) == nick;
    }
    var k := First(t.clients, ClientNick, nick);
    assert k < |t.clients| ==> ClientNick(t.clients[k]) == t.clients[k].nick;
  }

  // ---------- a run in which it fails ----------

  const PLAIN := Flags(false, false)
  const COPER := Flags(true, false)

  function OneChannel(chan: string, users: seq<ChanUser>): seq<Channel> {
    [Channel(chan, false, false, users)]
  }

  function A(nick: string, chan: string): Client {
    Client(nick, 1, false, [ChanName(chan, COPER)])
  }

  function B(nick: string, chan: string): Client {
    Client(nick, 2, false, [ChanName(chan, PLAIN)])
  }

  function TwoUsers(chan: string): seq<ChanUser> {
    [ChanUser("b", 2, PLAIN), ChanUser("a", 1, COPER)]
  }

  lemma FirstJoins(chan: string)
    requires chan != ""
    ensures Do(Tables([Client("a", 1, false, [])], []), 1, JOIN(chan)) ==
            Tables([A("a", chan)], OneChannel(chan, [ChanUser("a", 1, COPER)]))
  {
    var chs, a, on := [NewChannel(chan)], ChanUser("a", 1, COPER), ChanName(chan, COPER);
    assert [NewChannel(chan)] + [] == chs && [a] + [] == [a] && [on] + [] == [on];
    assert chs[0 := chs[0].(users := [a])] == OneChannel(chan, [a]);
    var cls := [Client("a", 1, false, [])];
    assert cls[0 := cls[0].(chans := [on])] == [A("a", chan)];
  }

  lemma SecondJoins(chan: string)
    requires chan != ""
    ensures var one := OneChannel(chan, [ChanUser("a", 1, COPER)]);
      Do(Tables([Client("b", 2, false, []), A("a", chan)], one), 2, JOIN(chan)) ==
      Tables([B("b", chan), A("a", chan)], OneChannel(chan, TwoUsers(chan)))
  {
    var a, b, on := ChanUser("a", 1, COPER), ChanUser("b", 2, PLAIN), ChanName(chan, PLAIN);
    var chs, cls := OneChannel(chan, [a]), [Client("b", 2, false, []), A("a", chan)];
    assert [a][1..] == [] && [b] + [a] == TwoUsers(chan) && [on] + [] == [on];
    assert chs[0 := chs[0].(users := TwoUsers(chan))] == OneChannel(chan, TwoUsers(chan));
    assert cls[0 := cls[0].(chans := [on])] == [B("b", chan), A("a", chan)];
  }

  lemma BothRename(chan: string)
    ensures Do(Tables([B("b", chan), A("a", chan)], OneChannel(chan, TwoUsers(chan))), 2, NICK("x")) ==
            Tables([B("x", chan), A("a", chan)], OneChannel(chan, TwoUsers(chan)))
    ensures Do(Tables([B("x", chan), A("a", chan)], OneChannel(chan, TwoUsers(chan))), 1, NICK("b")) ==
            Tables([B("x", chan), A("b", chan)], OneChannel(chan, TwoUsers(chan)))
  {
    assert [B("b", chan), A("a", chan)][1..] == [A("a", chan)] && [A("a", chan)][1..] == [];
    assert [B("x", chan), A("a", chan)][1..] == [A("a", chan)];
  }

  lemma WrongMemberChanges(chan: string)
    ensures var t := Tables([B("x", chan), A("b", chan)], OneChannel(chan, TwoUsers(chan)));
      Do(t, 1, MODE(chan, Some("+v"), Some("b"))).channels ==
      OneChannel(chan, [ChanUser("b", 2, PLAIN), ChanUser("a", 1, Flags(true, true))])
  {
    var cls, us, chs := [B("x", chan), A("b", chan)], TwoUsers(chan), OneChannel(chan, TwoUsers(chan));
    assert cls[1..] == [A("b", chan)] && us[1..] == [ChanUser("a", 1, COPER)];
    assert First(cls[1..], ClientNick, "b") == 0 && First(cls, ClientNick, "b") == 1;
    assert First(cls[1..], ClientSock, 1) == 0 && First(cls, ClientSock, 1) == 1;
    assert First(us[1..], SockOf, 1) == 0 && First(us, SockOf, 1) == 1;
    var us' := ChangeUser(us, 1, MakeVoice);
    assert us' == [ChanUser("b", 2, PLAIN), ChanUser("a", 1, Flags(true, true))];
    assert chs[0 := chs[0].(users := us')] == OneChannel(chan, us');
  }

  function StaleRun(chan: string): seq<Tables> {
    var one, two := OneChannel(chan, [ChanUser("a", 1, COPER)]), OneChannel(chan, TwoUsers(chan));
    [Tables([], []), Tables([Client("a", 1, false, [])], []), Tables([A("a", chan)], one),
     Tables([Client("b", 2, false, []), A("a", chan)], one), Tables([B("b", chan), A("a", chan)], two),
     Tables([B("x", chan), A("a", chan)], two), Tables([B("x", chan), A("b", chan)], two),
     Do(Tables([B("x", chan), A("b", chan)], two), 1, MODE(chan, Some("+v"), Some("b")))]
  }

  function StaleCommands(chan: string): seq<Sent> {
    [Sent(1, LOGIN("a")), Sent(1, JOIN(chan)), Sent(2, LOGIN("b")), Sent(2, JOIN(chan)),
     Sent(2, NICK("x")), Sent(1, NICK("b")), Sent(1, MODE(chan, Some("+v"), Some("b")))]
  }

  lemma Logins(chan: string)
    ensures Do(Tables([], []), 1, LOGIN("a")) == Tables([Client("a", 1, false, [])], [])
    ensures var one := OneChannel(chan, [ChanUser("a", 1, COPER)]);
      Do(Tables([A("a", chan)], one), 2, LOGIN("b")) == Tables([Client("b", 2, false, []), A("a", chan)], one)
  {
  }

  lemma StaleRunIsRun(chan: string)
    requires chan != ""
    ensures IsRun(StaleRun(chan), StaleCommands(chan), Moves)
  {
    var tr, es := StaleRun(chan), StaleCommands(chan);
    Logins(chan);
    FirstJoins(chan);
    SecondJoins(chan);
    BothRename(chan);
    forall i | 0 <= i < 7 ensures Moves(tr[i], es[i], tr[i + 1]) {
      assert i == 0 || i == 1 || i == 2 || i == 3 || i == 4 || i == 5 || i == 6;
    }
  }

  lemma StaleStatus(chan: string)
    ensures Has(TwoUsers(chan), NickOf, "b") && Named(TwoUsers(chan), "b") == 2
    ensures var chs := OneChannel(chan, TwoUsers(chan));
      AtChannel(chs, chan, 2) == Some(PLAIN) && AtChannel(chs, chan, 1) == Some(COPER)
    ensures var chs := OneChannel(chan, [ChanUser("b", 2, PLAIN), ChanUser("a", 1, Flags(true, true))]);
      AtChannel(chs, chan, 2) == Some(PLAIN) && AtChannel(chs, chan, 1) == Some(Flags(true, true))
  {
    var b, a, a' := ChanUser("b", 2, PLAIN), ChanUser("a", 1, COPER), ChanUser("a", 1, Flags(true, true));
    assert [b] + [a] == TwoUsers(chan) && [b] + [a'] == [b, a'];
    UserConsEffect(b, [a], 1);
    UserConsEffect(b, [a'], 1);
  }

  /**
   Two clients join a channel, the second as "b"; it takes another nick, and the first then takes "b".
   MODE +v b finds the second among the users, the first among the clients, and gives the first a voice.
   */
  lemma StaleNick(chan: string)
    requires chan != ""
    ensures var tr, es := StaleRun(chan), StaleCommands(chan);
      && IsRun(tr, es, Moves) && tr[0] == Tables([], []) && es[6] == Sent(1, MODE(chan, Some("+v"), Some("b")))
      && Has(UsersOf(tr[6].channels, chan), NickOf, "b") && Named(UsersOf(tr[6].channels, chan), "b") == 2
      && AtChannel(tr[7].channels, chan, 2) == AtChannel(tr[6].channels, chan, 2) == Some(PLAIN)
      && AtChannel(tr[6].channels, chan, 1) == Some(COPER)
      && AtChannel(tr[7].channels, chan, 1) == Some(Flags(true, true))
  {
    StaleRunIsRun(chan);
    WrongMemberChanges(chan);
    StaleStatus(chan);
  }
}
