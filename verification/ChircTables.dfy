/**
 The membership tables of chirc: every client keeps the channels it is on, every channel keeps the
 users on it, and both copies carry the member's status.  Commands are functions on the two tables;
 what is proved is that the copies agree after every sequence of commands.
 */
module ChircTables {
  import opened Common
  import opened Runs

  datatype Flags = Flags(coper: bool, voice: bool)

  datatype ChanName = ChanName(name: string, flags: Flags)
  datatype ChanUser = ChanUser(nick: string, sock: int, flags: Flags)
  datatype Client = Client(nick: string, sock: int, oper: bool, chans: seq<ChanName>)
  datatype Channel = Channel(name: string, modMode: bool, topMode: bool, users: seq<ChanUser>)

  datatype Tables = Tables(clients: seq<Client>, channels: seq<Channel>)

  // ---------- lists searched by a key ----------

  predicate Has<T, K(==)>(s: seq<T>, key: T -> K, k: K) {
    First(s, key, k) < |s|
  }

  ghost predicate Distinct<T, K>(s: seq<T>, key: T -> K) {
    forall i, j :: 0 <= i < j < |s| ==> key(s[i]) != key(s[j])
  }

  /** The list without its first entry of key k. */
  function Without<T, K(==)>(s: seq<T>, key: T -> K, k: K): seq<T> {
    var i := First(s, key, k);
    if i < |s| then s[..i] + s[i + 1..] else s
  }

  function NameOf(c: ChanName): string { c.name }
  function SockOf(u: ChanUser): int { u.sock }
  function ClientSock(c: Client): int { c.sock }
  function ClientNick(c: Client): string { c.nick }
  function ChannelName(c: Channel): string { c.name }
  function NickOf(u: ChanUser): string { u.nick }

  // ---------- the two records of a membership ----------

  function NameFlags(cs: seq<ChanName>, name: string): Option<Flags> {
    var i := First(cs, NameOf, name);
    if i < |cs| then Some(cs[i].flags) else None
  }

  function UserFlags(us: seq<ChanUser>, sock: int): Option<Flags> {
    var i := First(us, SockOf, sock);
    if i < |us| then Some(us[i].flags) else None
  }

  /** get_channels_on_user, empty when there is no such client. */
  function ChansOf(cls: seq<Client>, sock: int): seq<ChanName> {
    var i := First(cls, ClientSock, sock);
    if i < |cls| then cls[i].chans else []
  }

  /** get_users_on_channel, empty when there is no such channel. */
  function UsersOf(chs: seq<Channel>, name: string): seq<ChanUser> {
    var i := First(chs, ChannelName, name);
    if i < |chs| then chs[i].users else []
  }

  /** Client sock's record of its membership on a channel. */
  function AtClient(cls: seq<Client>, sock: int, name: string): Option<Flags> {
    NameFlags(ChansOf(cls, sock), name)
  }

  /** The channel's record of the same membership. */
  function AtChannel(chs: seq<Channel>, name: string, sock: int): Option<Flags> {
    UserFlags(UsersOf(chs, name), sock)
  }

  /** No client twice, no named channel twice, and no entry twice in any of their lists. */
  ghost predicate NoDuplicates(t: Tables) {
    && Distinct(t.clients, ClientSock)
    && (forall i, j :: 0 <= i < j < |t.channels| ==> t.channels[i].name != t.channels[j].name || t.channels[i].name == "")
    && (forall i :: 0 <= i < |t.clients| ==> Distinct(t.clients[i].chans, NameOf))
    && (forall i :: 0 <= i < |t.channels| ==> Distinct(t.channels[i].users, SockOf))
  }

  /** A client is on a channel's list exactly if the channel is on its list, with the same status in both. */
  ghost predicate Agree(t: Tables) {
    forall sock, name :: AtClient(t.clients, sock, name) == AtChannel(t.channels, name, sock)
  }

  // ---------- edits of one table ----------

  /** A change to the channel list of one client. */
  function SetChans(cls: seq<Client>, sock: int, cs: seq<ChanName>): seq<Client> {
    var i := First(cls, ClientSock, sock);
    if i < |cls| then cls[i := cls[i].(chans := cs)] else cls
  }

  /** A change to the user list of one channel. */
  function SetUsers(chs: seq<Channel>, name: string, us: seq<ChanUser>): seq<Channel> {
    var i := First(chs, ChannelName, name);
    if i < |chs| then chs[i := chs[i].(users := us)] else chs
  }

  lemma SameKeysSameFirst<T, K>(s: seq<T>, t: seq<T>, key: T -> K, k: K)
    requires |s| == |t| && forall j :: 0 <= j < |s| ==> key(s[j]) == key(t[j])
    ensures First(s, key, k) == First(t, key, k)
  {
  }

  lemma SetChansEffect(cls: seq<Client>, sock: int, cs: seq<ChanName>, s: int)
    ensures ChansOf(SetChans(cls, sock, cs), s) ==
            if s == sock && Has(cls, ClientSock, sock) then cs else ChansOf(cls, s)
  {
    SameKeysSameFirst(cls, SetChans(cls, sock, cs), ClientSock, s);
  }

  lemma SetUsersEffect(chs: seq<Channel>, name: string, us: seq<ChanUser>, n: string)
    ensures UsersOf(SetUsers(chs, name, us), n) ==
            if n == name && Has(chs, ChannelName, name) then us else UsersOf(chs, n)
  {
    SameKeysSameFirst(chs, SetUsers(chs, name, us), ChannelName, n);
  }

  lemma NameConsEffect(c: ChanName, cs: seq<ChanName>, n: string)
    ensures NameFlags([c] + cs, n) == if n == c.name then Some(c.flags) else NameFlags(cs, n)
  {
    assert ([c] + cs)[1..] == cs;
  }

  lemma UserConsEffect(u: ChanUser, us: seq<ChanUser>, s: int)
    ensures UserFlags([u] + us, s) == if s == u.sock then Some(u.flags) else UserFlags(us, s)
  {
    assert ([u] + us)[1..] == us;
  }

  /** Taking out the first entry of a key moves the others up and leaves the rest of the order alone. */
  lemma WithoutEffect<T, K>(s: seq<T>, key: T -> K, k: K, k': K)
    requires Distinct(s, key)
    ensures Distinct(Without(s, key, k), key)
    ensures var w := Without(s, key, k);
            if k' == k then !Has(w, key, k')
            else Has(w, key, k') == Has(s, key, k') &&
                 (Has(s, key, k') ==> w[First(w, key, k')] == s[First(s, key, k')])
  {
    var i, w := First(s, key, k), Without(s, key, k);
    if i < |s| {
      assert forall j :: 0 <= j < |w| ==> w[j] == s[if j < i then j else j + 1];
      var i' := First(s, key, k');
      if k' != k && i' < |s| {
        assert w[if i' < i then i' else i' - 1] == s[i'];
      }
    }
  }

  // ---------- the functions of addremove.c and modes.c ----------

  predicate IsEmptyChannel(chs: seq<Channel>, name: string) {
    Has(chs, ChannelName, name) && UsersOf(chs, name) == []
  }

  predicate OnUser(cls: seq<Client>, sock: int, name: string) {
    name != "" && Has(ChansOf(cls, sock), NameOf, name)
  }

  function AddChanName(cls: seq<Client>, sock: int, name: string, coper: bool): seq<Client> {
    var cs := ChansOf(cls, sock);
    if name == "" || Has(cs, NameOf, name) then cls
    else SetChans(cls, sock, [ChanName(name, Flags(coper, false))] + cs)
  }

  function AddChanUser(chs: seq<Channel>, name: string, nick: string, sock: int): seq<Channel> {
    var us := UsersOf(chs, name);
    if name == "" || Has(us, SockOf, sock) then chs
    else SetUsers(chs, name, [ChanUser(nick, sock, Flags(us == [], false))] + us)
  }

  function RemoveChanUser(chs: seq<Channel>, name: string, sock: int): seq<Channel> {
    if name == "" then chs else SetUsers(chs, name, Without(UsersOf(chs, name), SockOf, sock))
  }

  function RemoveChanName(cls: seq<Client>, sock: int, name: string): seq<Client> {
    if name == "" then cls else SetChans(cls, sock, Without(ChansOf(cls, sock), NameOf, name))
  }

  datatype Change = MakeCopp | Decopp | MakeVoice | Devoice

  function Apply(c: Change, f: Flags): Flags {
    match c
    case MakeCopp => f.(coper := true)
    case Decopp => f.(coper := false)
    case MakeVoice => f.(voice := true)
    case Devoice => f.(voice := false)
  }

  function ChangeName(cs: seq<ChanName>, name: string, c: Change): seq<ChanName> {
    var i := First(cs, NameOf, name);
    if i < |cs| then cs[i := cs[i].(flags := Apply(c, cs[i].flags))] else cs
  }

  function ChangeUser(us: seq<ChanUser>, sock: int, c: Change): seq<ChanUser> {
    var i := First(us, SockOf, sock);
    if i < |us| then us[i := us[i].(flags := Apply(c, us[i].flags))] else us
  }

  /** make_copp, decopp, make_voice and devoice change the two records one after the other. */
  function SetStatus(t: Tables, sock: int, name: string, c: Change): Tables {
    Tables(SetChans(t.clients, sock, ChangeName(ChansOf(t.clients, sock), name, c)),
           SetUsers(t.channels, name, ChangeUser(UsersOf(t.channels, name), sock, c)))
  }

  // ---------- commands ----------

  function NewChannel(name: string): Channel {
    Channel(name, false, false, [])
  }

  function Join(t: Tables, sock: int, name: string): Tables
    requires Has(t.clients, ClientSock, sock)
  {
    if OnUser(t.clients, sock, name) then t
    else
      var chs := if name != "" && Has(t.channels, ChannelName, name) then t.channels
                 else [NewChannel(name)] + t.channels;
      Tables(AddChanName(t.clients, sock, name, IsEmptyChannel(chs, name)),
             AddChanUser(chs, name, t.clients[First(t.clients, ClientSock, sock)].nick, sock))
  }

  function Part(t: Tables, sock: int, name: string): Tables {
    if !OnUser(t.clients, sock, name) then t
    else
      var chs := RemoveChanUser(t.channels, name, sock);
      Tables(RemoveChanName(t.clients, sock, name),
             if IsEmptyChannel(chs, name) then Without(chs, ChannelName, name) else chs)
  }

  function RemoveFromAll(chs: seq<Channel>, cs: seq<ChanName>, sock: int): seq<Channel>
    decreases |cs|
  {
    if cs == [] then chs else RemoveFromAll(RemoveChanUser(chs, cs[0].name, sock), cs[1..], sock)
  }

  /** QUIT and a lost connection: off every channel's list, then the client goes, its own list with it. */
  function Leave(t: Tables, sock: int): Tables {
    Tables(Without(t.clients, ClientSock, sock),
           RemoveFromAll(t.channels, ChansOf(t.clients, sock), sock))
  }

  /** A coper of the channel, or an operator of the server. */
  predicate MayChange(t: Tables, sock: int, chan: string) {
    || AtClient(t.clients, sock, chan) == Some(Flags(true, true))
    || AtClient(t.clients, sock, chan) == Some(Flags(true, false))
    || (var i := First(t.clients, ClientSock, sock); i < |t.clients| && t.clients[i].oper)
  }

  function ChannelMode(ch: Channel, mode: string): Channel {
    if |mode| < 2 || (mode[0] != '+' && mode[0] != '-') then ch
    else if mode[1] == 'm' then ch.(modMode := mode[0] == '+')
    else if mode[1] == 't' then ch.(topMode := mode[0] == '+')
    else ch
  }

  function SetChannelMode(chs: seq<Channel>, name: string, mode: string): seq<Channel> {
    var i := First(chs, ChannelName, name);
    if i < |chs| then chs[i := ChannelMode(chs[i], mode)] else chs
  }

  function SockOfNick(cls: seq<Client>, nick: string): int {
    var i := First(cls, ClientNick, nick);
    if i < |cls| then cls[i].sock else -1
  }

  function StatusChange(mode: string): Option<Change> {
    if mode == "+o" then Some(MakeCopp)
    else if mode == "-o" then Some(Decopp)
    else if mode == "+v" then Some(MakeVoice)
    else if mode == "-v" then Some(Devoice)
    else None
  }

  /**
   MODE on a channel.  The member is looked up among the channel's users by the nick it joined with,
   and then among the clients by the nick it has now: after a NICK the two may be different people.
   */
  function Mode(t: Tables, sock: int, chan: string, mode: Option<string>, member: Option<string>): Tables {
    if mode.None? || !MayChange(t, sock, chan) then t
    else if member.None? then t.(channels := SetChannelMode(t.channels, chan, mode.value))
    else if !Has(UsersOf(t.channels, chan), NickOf, member.value) || StatusChange(mode.value).None? then t
    else SetStatus(t, SockOfNick(t.clients, member.value), chan, StatusChange(mode.value).value)
  }

  function Nick(t: Tables, sock: int, nick: string): Tables {
    var i := First(t.clients, ClientSock, sock);
    if i == |t.clients| || (nick != "" && Has(t.clients, ClientNick, nick)) then t
    else t.(clients := t.clients[i := t.clients[i].(nick := nick)])
  }

  function Oper(t: Tables, sock: int, oper: bool): Tables {
    var i := First(t.clients, ClientSock, sock);
    if i == |t.clients| then t else t.(clients := t.clients[i := t.clients[i].(oper := oper)])
  }

  function Login(t: Tables, sock: int, nick: string): Tables {
    if Has(t.clients, ClientSock, sock) then t else t.(clients := [Client(nick, sock, false, [])] + t.clients)
  }

  datatype Command =
    | LOGIN(nick: string)
    | NICK(nick: string)
    | OPER
    | DEOPER
    | JOIN(name: string)
    | PART(name: string)
    | MODE(name: string, mode: Option<string>, member: Option<string>)
    | QUIT

  predicate Registered(t: Tables, sock: int) {
    Has(t.clients, ClientSock, sock)
  }

  /** A command from a socket.  Only registered clients get beyond LOGIN; QUIT stands for any disconnection. */
  function Do(t: Tables, sock: int, cmd: Command): Tables {
    match cmd
    case LOGIN(nick) => Login(t, sock, nick)
    case NICK(nick) => Nick(t, sock, nick)
    case OPER => Oper(t, sock, true)
    case DEOPER => Oper(t, sock, false)
    case JOIN(name) => if Registered(t, sock) then Join(t, sock, name) else t
    case PART(name) => Part(t, sock, name)
    case MODE(name, mode, member) => Mode(t, sock, name, mode, member)
    case QUIT => Leave(t, sock)
  }

  // ---------- every edit of the pair of tables is an edit of one membership ----------

  /** All the invariant says, in terms of single memberships. */
  ghost predicate Inv(t: Tables) {
    && NoDuplicates(t) && Agree(t)
    && (forall sock :: AtClient(t.clients, sock, "") == None)
  }

  lemma SetChansKeepsDistinct(t: Tables, sock: int, cs: seq<ChanName>)
    requires NoDuplicates(t) && Distinct(cs, NameOf)
    ensures NoDuplicates(t.(clients := SetChans(t.clients, sock, cs)))
  {
  }

  lemma SetUsersKeepsDistinct(t: Tables, name: string, us: seq<ChanUser>)
    requires NoDuplicates(t) && Distinct(us, SockOf)
    ensures NoDuplicates(t.(channels := SetUsers(t.channels, name, us)))
  {
  }

  lemma ChansDistinct(t: Tables, sock: int)
    requires NoDuplicates(t)
    ensures Distinct(ChansOf(t.clients, sock), NameOf)
  {
  }

  lemma UsersDistinct(t: Tables, name: string)
    requires NoDuplicates(t)
    ensures Distinct(UsersOf(t.channels, name), SockOf)
  {
  }

  /** Removing a user takes away one membership of the channel table and nothing else. */
  lemma RemoveChanUserEffect(t: Tables, name: string, sock: int)
    requires NoDuplicates(t) && name != ""
    ensures var chs := RemoveChanUser(t.channels, name, sock);
            NoDuplicates(t.(channels := chs)) &&
            forall n, s :: AtChannel(chs, n, s) == if n == name && s == sock then None else AtChannel(t.channels, n, s)
  {
    var us := UsersOf(t.channels, name);
    UsersDistinct(t, name);
    var chs := RemoveChanUser(t.channels, name, sock);
    WithoutEffect(us, SockOf, sock, sock);
    SetUsersKeepsDistinct(t, name, Without(us, SockOf, sock));
    forall n, s ensures AtChannel(chs, n, s) == if n == name && s == sock then None else AtChannel(t.channels, n, s) {
      SetUsersEffect(t.channels, name, Without(us, SockOf, sock), n);
      WithoutEffect(us, SockOf, sock, s);
    }
  }

  lemma RemoveChanNameEffect(t: Tables, sock: int, name: string)
    requires NoDuplicates(t) && name != ""
    ensures var cls := RemoveChanName(t.clients, sock, name);
            NoDuplicates(t.(clients := cls)) &&
            forall s, n :: AtClient(cls, s, n) == if s == sock && n == name then None else AtClient(t.clients, s, n)
  {
    var cs := ChansOf(t.clients, sock);
    ChansDistinct(t, sock);
    var cls := RemoveChanName(t.clients, sock, name);
    WithoutEffect(cs, NameOf, name, name);
    SetChansKeepsDistinct(t, sock, Without(cs, NameOf, name));
    forall s, n ensures AtClient(cls, s, n) == if s == sock && n == name then None else AtClient(t.clients, s, n) {
      SetChansEffect(t.clients, sock, Without(cs, NameOf, name), s);
      WithoutEffect(cs, NameOf, name, n);
    }
  }

  lemma AddChanNameEffect(t: Tables, sock: int, name: string, coper: bool)
    requires NoDuplicates(t) && name != "" && Registered(t, sock)
    requires AtClient(t.clients, sock, name) == None
    ensures var cls := AddChanName(t.clients, sock, name, coper);
            NoDuplicates(t.(clients := cls)) &&
            forall s, n :: AtClient(cls, s, n) ==
              if s == sock && n == name then Some(Flags(coper, false)) else AtClient(t.clients, s, n)
  {
    var cs := ChansOf(t.clients, sock);
    var cs' := [ChanName(name, Flags(coper, false))] + cs;
    ChansDistinct(t, sock);
    assert First(cs, NameOf, name) == |cs|;
    SetChansKeepsDistinct(t, sock, cs');
    var cls := AddChanName(t.clients, sock, name, coper);
    forall s, n ensures AtClient(cls, s, n) ==
        if s == sock && n == name then Some(Flags(coper, false)) else AtClient(t.clients, s, n) {
      SetChansEffect(t.clients, sock, cs', s);
      NameConsEffect(cs'[0], cs, n);
    }
  }

  lemma AddChanUserEffect(t: Tables, name: string, nick: string, sock: int)
    requires NoDuplicates(t) && name != "" && Has(t.channels, ChannelName, name)
    requires AtChannel(t.channels, name, sock) == None
    ensures var chs := AddChanUser(t.channels, name, nick, sock);
            NoDuplicates(t.(channels := chs)) &&
            forall n, s :: AtChannel(chs, n, s) ==
              if n == name && s == sock then Some(Flags(UsersOf(t.channels, name) == [], false))
              else AtChannel(t.channels, n, s)
  {
    var us := UsersOf(t.channels, name);
    var us' := [ChanUser(nick, sock, Flags(us == [], false))] + us;
    UsersDistinct(t, name);
    assert First(us, SockOf, sock) == |us|;
    SetUsersKeepsDistinct(t, name, us');
    var chs := AddChanUser(t.channels, name, nick, sock);
    forall n, s ensures AtChannel(chs, n, s) ==
        if n == name && s == sock then Some(Flags(us == [], false)) else AtChannel(t.channels, n, s) {
      SetUsersEffect(t.channels, name, us', n);
      UserConsEffect(us'[0], us, s);
    }
  }

  lemma ChangeNameEffect(t: Tables, sock: int, name: string, c: Change)
    requires NoDuplicates(t)
    ensures var cls := SetChans(t.clients, sock, ChangeName(ChansOf(t.clients, sock), name, c));
            NoDuplicates(t.(clients := cls)) &&
            forall s, n :: AtClient(cls, s, n) ==
              if s == sock && n == name then Changed(AtClient(t.clients, s, n), c) else AtClient(t.clients, s, n)
  {
    var cs := ChansOf(t.clients, sock);
    var cs' := ChangeName(cs, name, c);
    ChansDistinct(t, sock);
    SetChansKeepsDistinct(t, sock, cs');
    var cls := SetChans(t.clients, sock, cs');
    forall s, n ensures AtClient(cls, s, n) ==
        if s == sock && n == name then Changed(AtClient(t.clients, s, n), c) else AtClient(t.clients, s, n) {
      SetChansEffect(t.clients, sock, cs', s);
      SameKeysSameFirst(cs, cs', NameOf, n);
    }
  }

  lemma ChangeUserEffect(t: Tables, name: string, sock: int, c: Change)
    requires NoDuplicates(t)
    ensures var chs := SetUsers(t.channels, name, ChangeUser(UsersOf(t.channels, name), sock, c));
            NoDuplicates(t.(channels := chs)) &&
            forall n, s :: AtChannel(chs, n, s) ==
              if n == name && s == sock then Changed(AtChannel(t.channels, n, s), c) else AtChannel(t.channels, n, s)
  {
    var us := UsersOf(t.channels, name);
    var us' := ChangeUser(us, sock, c);
    UsersDistinct(t, name);
    SetUsersKeepsDistinct(t, name, us');
    var chs := SetUsers(t.channels, name, us');
    forall n, s ensures AtChannel(chs, n, s) ==
        if n == name && s == sock then Changed(AtChannel(t.channels, n, s), c) else AtChannel(t.channels, n, s) {
      SetUsersEffect(t.channels, name, us', n);
      SameKeysSameFirst(us, us', SockOf, s);
    }
  }

  function Changed(f: Option<Flags>, c: Change): Option<Flags> {
    if f.Some? then Some(Apply(c, f.value)) else None
  }

  lemma SetStatusKeeps(t: Tables, sock: int, name: string, c: Change)
    requires Inv(t)
    ensures Inv(SetStatus(t, sock, name, c))
    ensures forall n, s :: AtChannel(SetStatus(t, sock, name, c).channels, n, s) ==
              if n == name && s == sock then Changed(AtChannel(t.channels, n, s), c) else AtChannel(t.channels, n, s)
  {
    ChangeNameEffect(t, sock, name, c);
    ChangeUserEffect(t, name, sock, c);
  }

  /** A channel without users may come or go: no membership changes. */
  lemma NewKeepsDistinct(t: Tables, name: string)
    requires NoDuplicates(t) && (name == "" || !Has(t.channels, ChannelName, name))
    ensures NoDuplicates(t.(channels := [NewChannel(name)] + t.channels))
  {
    var chs := [NewChannel(name)] + t.channels;
    assert forall j :: 0 < j < |chs| ==> chs[j] == t.channels[j - 1];
  }

  lemma NewChannelEffect(chs: seq<Channel>, name: string, n: string)
    requires UsersOf(chs, name) == []
    ensures UsersOf([NewChannel(name)] + chs, n) == UsersOf(chs, n)
  {
    assert ([NewChannel(name)] + chs)[1..] == chs;
  }

  lemma FirstUserIsMember(us: seq<ChanUser>)
    ensures us != [] ==> UserFlags(us, us[0].sock).Some?
  {
  }

  lemma DropKeepsDistinct(t: Tables, name: string)
    requires NoDuplicates(t)
    ensures NoDuplicates(t.(channels := Without(t.channels, ChannelName, name)))
  {
    var chs := Without(t.channels, ChannelName, name);
    var i := First(t.channels, ChannelName, name);
    assert forall j :: 0 <= j < |chs| ==> chs[j] == t.channels[if j < i then j else j + 1];
  }

  lemma DropChannelEffect(t: Tables, name: string, n: string)
    requires NoDuplicates(t) && name != "" && IsEmptyChannel(t.channels, name)
    ensures UsersOf(Without(t.channels, ChannelName, name), n) == UsersOf(t.channels, n)
  {
    if n == name {
      NoneLeft(t, name);
    } else {
      OthersStay(t.channels, name, n);
    }
  }

  lemma NoneLeft(t: Tables, name: string)
    requires NoDuplicates(t) && name != ""
    ensures !Has(Without(t.channels, ChannelName, name), ChannelName, name)
  {
    var i, chs := First(t.channels, ChannelName, name), Without(t.channels, ChannelName, name);
    if i < |t.channels| {
      assert forall j :: 0 <= j < |chs| ==> chs[j] == t.channels[if j < i then j else j + 1];
    }
  }

  /** A client is on the channel it has joined. */
  lemma JoinedIsOn(t: Tables, sock: int, name: string)
    requires Has(t.clients, ClientSock, sock) && name != ""
    ensures OnUser(Join(t, sock, name).clients, sock, name)
  {
    if !OnUser(t.clients, sock, name) {
      var chs := if Has(t.channels, ChannelName, name) then t.channels else [NewChannel(name)] + t.channels;
      var cs := [ChanName(name, Flags(IsEmptyChannel(chs, name), false))] + ChansOf(t.clients, sock);
      SetChansEffect(t.clients, sock, cs, sock);
      assert First(cs, NameOf, name) == 0;
    }
  }

  lemma FirstIs<T, K>(s: seq<T>, key: T -> K, k: K, r: nat)
    requires r <= |s| && (r < |s| ==> key(s[r]) == k) && forall j :: 0 <= j < r ==> key(s[j]) != k
    ensures First(s, key, k) == r
  {
  }

  lemma OthersStay(chs: seq<Channel>, name: string, n: string)
    requires n != name && Has(chs, ChannelName, name)
    ensures UsersOf(Without(chs, ChannelName, name), n) == UsersOf(chs, n)
  {
    var i, k, chs' := First(chs, ChannelName, name), First(chs, ChannelName, n), Without(chs, ChannelName, name);
    var k' := if k < i then k else k - 1;
    forall j | 0 <= j < k' ensures ChannelName(chs'[j]) != n {
      assert chs'[j] == chs[if j < i then j else j + 1];
    }
    assert k < |chs| ==> chs'[k'] == chs[k];
    FirstIs(chs', ChannelName, n, k');
  }

  lemma Both(t: Tables, cls: seq<Client>, chs: seq<Channel>)
    requires NoDuplicates(t.(clients := cls)) && NoDuplicates(t.(channels := chs))
    ensures NoDuplicates(Tables(cls, chs))
  {
  }

  /** The two halves of JOIN, on a channel that exists. */
  lemma JoinExisting(t: Tables, sock: int, name: string, nick: string, t': Tables)
    requires Inv(t) && Registered(t, sock) && name != "" && Has(t.channels, ChannelName, name)
    requires AtClient(t.clients, sock, name) == None
    requires t' == Tables(AddChanName(t.clients, sock, name, IsEmptyChannel(t.channels, name)),
                          AddChanUser(t.channels, name, nick, sock))
    ensures Inv(t')
    ensures forall n, s :: AtChannel(t'.channels, n, s) ==
              if n == name && s == sock then Some(Flags(UsersOf(t.channels, name) == [], false))
              else AtChannel(t.channels, n, s)
  {
    assert AtChannel(t.channels, name, sock) == None;
    AddChanNameEffect(t, sock, name, IsEmptyChannel(t.channels, name));
    AddChanUserEffect(t, name, nick, sock);
    Both(t, t'.clients, t'.channels);
  }

  lemma NewChannelKeeps(t: Tables, name: string)
    requires Inv(t) && (name == "" || !Has(t.channels, ChannelName, name))
    ensures Inv(t.(channels := [NewChannel(name)] + t.channels))
    ensures forall n :: UsersOf([NewChannel(name)] + t.channels, n) == UsersOf(t.channels, n)
  {
    if name == "" {
      var us := UsersOf(t.channels, "");
      FirstUserIsMember(us);
      forall s ensures UserFlags(us, s) == None {
        assert AtChannel(t.channels, "", s) == AtClient(t.clients, s, "");
      }
      assert us == [];
    }
    NewKeepsDistinct(t, name);
    forall n { NewChannelEffect(t.channels, name, n); }
  }

  lemma JoinNew(t: Tables, sock: int, name: string, nick: string, t': Tables)
    requires Inv(t) && Registered(t, sock) && (name == "" || !Has(t.channels, ChannelName, name))
    requires AtClient(t.clients, sock, name) == None
    requires t' == Tables(AddChanName(t.clients, sock, name, IsEmptyChannel([NewChannel(name)] + t.channels, name)),
                          AddChanUser([NewChannel(name)] + t.channels, name, nick, sock))
    ensures Inv(t')
    ensures forall n, s :: AtChannel(t'.channels, n, s) ==
              if n == name && s == sock && name != "" then Some(Flags(true, false)) else AtChannel(t.channels, n, s)
  {
    NewChannelKeeps(t, name);
    if name != "" {
      assert Has([NewChannel(name)] + t.channels, ChannelName, name);
      JoinExisting(t.(channels := [NewChannel(name)] + t.channels), sock, name, nick, t');
    }
  }

  lemma JoinKeeps(t: Tables, sock: int, name: string)
    requires Inv(t) && Registered(t, sock)
    ensures Inv(Join(t, sock, name))
    ensures !OnUser(t.clients, sock, name) && name != "" ==>
              AtChannel(Join(t, sock, name).channels, name, sock) == Some(Flags(UsersOf(t.channels, name) == [], false))
    ensures forall n, s :: n != name || s != sock ==>
              AtChannel(Join(t, sock, name).channels, n, s) == AtChannel(t.channels, n, s)
  {
    if !OnUser(t.clients, sock, name) {
      var nick := t.clients[First(t.clients, ClientSock, sock)].nick;
      assert AtClient(t.clients, sock, name) == None;
      if name != "" && Has(t.channels, ChannelName, name) {
        JoinExisting(t, sock, name, nick, Join(t, sock, name));
      } else {
        JoinNew(t, sock, name, nick, Join(t, sock, name));
      }
    }
  }

  lemma PartKeeps(t: Tables, sock: int, name: string)
    requires Inv(t)
    ensures Inv(Part(t, sock, name))
    ensures forall n, s :: AtChannel(Part(t, sock, name).channels, n, s) ==
              if n == name && s == sock then None else AtChannel(t.channels, n, s)
    ensures OnUser(t.clients, sock, name) ==>
              !IsEmptyChannel(Part(t, sock, name).channels, name)
  {
    if OnUser(t.clients, sock, name) {
      RemoveChanUserEffect(t, name, sock);
      var t1 := t.(channels := RemoveChanUser(t.channels, name, sock));
      RemoveChanNameEffect(t1, sock, name);
      if IsEmptyChannel(t1.channels, name) {
        DropKeepsDistinct(t1, name);
        NoneLeft(t1, name);
        forall n { DropChannelEffect(t1, name, n); }
      }
    } else {
      assert AtClient(t.clients, sock, name) == None;
    }
  }

  lemma {:induction false} RemoveFromAllEffect(t: Tables, cs: seq<ChanName>, sock: int)
    requires NoDuplicates(t) && NameFlags(cs, "") == None
    ensures var chs := RemoveFromAll(t.channels, cs, sock);
            NoDuplicates(t.(channels := chs)) &&
            forall n, s :: AtChannel(chs, n, s) ==
              if s == sock && NameFlags(cs, n).Some? then None else AtChannel(t.channels, n, s)
    decreases |cs|
  {
    if cs != [] {
      assert [cs[0]] + cs[1..] == cs;
      NameConsEffect(cs[0], cs[1..], "");
      RemoveChanUserEffect(t, cs[0].name, sock);
      RemoveFromAllEffect(t.(channels := RemoveChanUser(t.channels, cs[0].name, sock)), cs[1..], sock);
      forall n ensures NameFlags(cs, n).Some? <==> n == cs[0].name || NameFlags(cs[1..], n).Some? {
        NameConsEffect(cs[0], cs[1..], n);
      }
    }
  }

  /** After QUIT or a disconnection no table mentions the socket: its number may be given out again. */
  lemma LeaveKeeps(t: Tables, sock: int)
    requires Inv(t)
    ensures Inv(Leave(t, sock)) && !Registered(Leave(t, sock), sock)
    ensures forall n, s :: AtChannel(Leave(t, sock).channels, n, s) ==
              if s == sock then None else AtChannel(t.channels, n, s)
  {
    var cs := ChansOf(t.clients, sock);
    assert NameFlags(cs, "") == AtClient(t.clients, sock, "");
    RemoveFromAllEffect(t, cs, sock);
    var t' := Leave(t, sock);
    forall n, s ensures AtChannel(t'.channels, n, s) == if s == sock then None else AtChannel(t.channels, n, s) {
      assert AtChannel(t.channels, n, s) == AtClient(t.clients, s, n);
    }
    WithoutEffect(t.clients, ClientSock, sock, sock);
    forall s, n ensures AtClient(t'.clients, s, n) == if s == sock then None else AtClient(t.clients, s, n) {
      WithoutEffect(t.clients, ClientSock, sock, s);
    }
  }

  lemma OtherKeeps(t: Tables, t': Tables)
    requires Inv(t) && NoDuplicates(t')
    requires forall sock :: ChansOf(t'.clients, sock) == ChansOf(t.clients, sock)
    requires forall name :: UsersOf(t'.channels, name) == UsersOf(t.channels, name)
    ensures Inv(t')
  {
    forall sock, name ensures AtClient(t'.clients, sock, name) == AtChannel(t'.channels, name, sock) {
      assert AtClient(t.clients, sock, name) == AtChannel(t.channels, name, sock);
    }
    forall sock ensures AtClient(t'.clients, sock, "") == None {
      assert AtClient(t.clients, sock, "") == None;
    }
  }

  lemma ChannelModeEffect(chs: seq<Channel>, name: string, mode: string, n: string)
    ensures UsersOf(SetChannelMode(chs, name, mode), n) == UsersOf(chs, n)
  {
    SameKeysSameFirst(chs, SetChannelMode(chs, name, mode), ChannelName, n);
  }

  lemma ChannelModeKeeps(t: Tables, name: string, mode: string)
    requires Inv(t)
    ensures Inv(t.(channels := SetChannelMode(t.channels, name, mode)))
  {
    forall n { ChannelModeEffect(t.channels, name, mode, n); }
    OtherKeeps(t, t.(channels := SetChannelMode(t.channels, name, mode)));
  }

  lemma ModeKeeps(t: Tables, sock: int, chan: string, mode: Option<string>, member: Option<string>)
    requires Inv(t)
    ensures Inv(Mode(t, sock, chan, mode, member))
  {
    if mode.Some? && MayChange(t, sock, chan) {
      if member.None? {
        ChannelModeKeeps(t, chan, mode.value);
      } else if StatusChange(mode.value).Some? {
        SetStatusKeeps(t, SockOfNick(t.clients, member.value), chan, StatusChange(mode.value).value);
      }
    }
  }

  lemma ClientChangeKeeps(t: Tables, i: nat, c: Client)
    requires Inv(t) && i < |t.clients| && c.sock == t.clients[i].sock && c.chans == t.clients[i].chans
    ensures Inv(t.(clients := t.clients[i := c]))
  {
    var t' := t.(clients := t.clients[i := c]);
    forall s { SameKeysSameFirst(t.clients, t'.clients, ClientSock, s); }
    OtherKeeps(t, t');
  }

  lemma LoginKeeps(t: Tables, sock: int, nick: string)
    requires Inv(t)
    ensures Inv(Login(t, sock, nick))
  {
    if !Registered(t, sock) {
      var t' := Login(t, sock, nick);
      assert t'.clients[1..] == t.clients;
      assert forall j :: 0 < j < |t'.clients| ==> t'.clients[j] == t.clients[j - 1];
      OtherKeeps(t, t');
    }
  }

  /** Every command, from any socket, leaves the two copies in agreement and free of duplicates. */
  lemma CommandKeeps(t: Tables, sock: int, cmd: Command)
    requires Inv(t)
    ensures Inv(Do(t, sock, cmd))
  {
    var i := First(t.clients, ClientSock, sock);
    match cmd
    case LOGIN(nick) => LoginKeeps(t, sock, nick);
    case NICK(nick) => if i < |t.clients| { ClientChangeKeeps(t, i, t.clients[i].(nick := nick)); }
    case OPER => if i < |t.clients| { ClientChangeKeeps(t, i, t.clients[i].(oper := true)); }
    case DEOPER => if i < |t.clients| { ClientChangeKeeps(t, i, t.clients[i].(oper := false)); }
    case JOIN(name) => if i < |t.clients| { JoinKeeps(t, sock, name); }
    case PART(name) => PartKeeps(t, sock, name);
    case MODE(name, mode, member) => ModeKeeps(t, sock, name, mode, member);
    case QUIT => LeaveKeeps(t, sock);
  }

  /** Who parts from a channel is not on it any more; nobody else is affected. */
  lemma Parting(t: Tables, sock: int, name: string)
    requires Inv(t)
    ensures forall n, s :: AtChannel(Do(t, sock, PART(name)).channels, n, s) ==
              if n == name && s == sock then None else AtChannel(t.channels, n, s)
  {
    PartKeeps(t, sock, name);
  }

  /** Who quits is on no channel and no client; everybody else is what they were. */
  lemma Quitting(t: Tables, sock: int)
    requires Inv(t)
    ensures forall n, s :: AtChannel(Do(t, sock, QUIT).channels, n, s) ==
              if s == sock then None else AtChannel(t.channels, n, s)
    ensures forall s :: Registered(Do(t, sock, QUIT), s) <==> s != sock && Registered(t, s)
  {
    LeaveKeeps(t, sock);
    forall s { WithoutEffect(t.clients, ClientSock, sock, s); }
  }

  datatype Sent = Sent(sock: int, cmd: Command)

  ghost predicate Moves(t: Tables, e: Sent, t': Tables) {
    t' == Do(t, e.sock, e.cmd)
  }

  /**
   From a server with no client and no channel, whatever is sent: a channel is on a client's list if
   and only if the client is on the channel's, both copies carry the same status, and no list has
   an entry twice.
   */
  lemma CopiesAgree(tr: seq<Tables>, es: seq<Sent>, k: nat)
    requires IsRun(tr, es, Moves) && tr[0] == Tables([], []) && k < |tr|
    ensures Agree(tr[k]) && NoDuplicates(tr[k])
  {
    forall t, e, t' | Inv(t) && Moves(t, e, t') ensures Inv(t') { CommandKeeps(t, e.sock, e.cmd); }
    InvariantHolds(tr, es, Moves, Inv, k);
  }

  predicate IsCoper(f: Option<Flags>) {
    f.Some? && f.value.coper
  }

  /** An operator of the server. */
  ghost predicate IsOper(t: Tables, sock: int) {
    exists i :: 0 <= i < |t.clients| && t.clients[i].sock == sock && t.clients[i].oper
  }

  /** Whom the channel lists as its operator may give a MODE there, and an operator of the server; nobody else. */
  lemma MayChangeIff(t: Tables, sock: int, chan: string)
    requires Inv(t)
    ensures MayChange(t, sock, chan) <==> IsCoper(AtChannel(t.channels, chan, sock)) || IsOper(t, sock)
  {
    assert AtClient(t.clients, sock, chan) == AtChannel(t.channels, chan, sock);
    if i :| 0 <= i < |t.clients| && t.clients[i].sock == sock && t.clients[i].oper {
      assert ClientSock(t.clients[i]) == ClientSock(t.clients[First(t.clients, ClientSock, sock)]);
    }
  }

  /** A MODE of anybody else changes nothing. */
  lemma OthersChangeNothing(t: Tables, sock: int, chan: string, mode: Option<string>, member: Option<string>)
    requires Inv(t) && !IsCoper(AtChannel(t.channels, chan, sock)) && !IsOper(t, sock)
    ensures Mode(t, sock, chan, mode, member) == t
  {
    MayChangeIff(t, sock, chan);
  }

  lemma StatusMeans(mode: string, f: Flags)
    ensures var c := StatusChange(mode); (if c.Some? then Apply(c.value, f) else f) == Flags(
              if mode == "+o" then true else if mode == "-o" then false else f.coper,
              if mode == "+v" then true else if mode == "-v" then false else f.voice)
  {
  }

  lemma StatusKeeps(t: Tables, who: int, chan: string, c: Option<Change>, t': Tables)
    requires Inv(t) && t' == if c.Some? then SetStatus(t, who, chan, c.value) else t
    ensures forall n, s :: AtChannel(t'.channels, n, s) ==
              if n == chan && s == who && c.Some? then Changed(AtChannel(t.channels, n, s), c.value)
              else AtChannel(t.channels, n, s)
  {
    if c.Some? {
      SetStatusKeeps(t, who, chan, c.value);
    }
  }

  /** What the four modes of a member make of the two flags of the client found; no other mode or member changes. */
  lemma OperatorsChange(t: Tables, sock: int, chan: string, mode: string, member: string, who: int, f: Flags)
    requires Inv(t) && (IsCoper(AtChannel(t.channels, chan, sock)) || IsOper(t, sock))
    requires Has(UsersOf(t.channels, chan), NickOf, member) && SockOfNick(t.clients, member) == who
    requires AtChannel(t.channels, chan, who) == Some(f)
    ensures var chs := Mode(t, sock, chan, Some(mode), Some(member)).channels;
      && AtChannel(chs, chan, who) == Some(Flags(
           if mode == "+o" then true else if mode == "-o" then false else f.coper,
           if mode == "+v" then true else if mode == "-v" then false else f.voice))
      && forall n, s :: n != chan || s != who ==> AtChannel(chs, n, s) == AtChannel(t.channels, n, s)
  {
    MayChangeIff(t, sock, chan);
    StatusMeans(mode, f);
    StatusKeeps(t, who, chan, StatusChange(mode), Mode(t, sock, chan, Some(mode), Some(member)));
  }

  /** The modes of a channel: what a string begins with sets or clears one flag, and nothing else changes. */
  lemma ChannelModes(t: Tables, sock: int, chan: string, mode: string)
    requires Inv(t) && (IsCoper(AtChannel(t.channels, chan, sock)) || IsOper(t, sock))
    requires Has(t.channels, ChannelName, chan)
    ensures var i := First(t.channels, ChannelName, chan); var ch := t.channels[i];
      Mode(t, sock, chan, Some(mode), None) == t.(channels := t.channels[i := ch.(
        modMode := if "+m" <= mode then true else if "-m" <= mode then false else ch.modMode,
        topMode := if "+t" <= mode then true else if "-t" <= mode then false else ch.topMode)])
  {
    MayChangeIff(t, sock, chan);
  }

  /** A MODE for somebody who is not on the channel, or with another string than the four, changes nothing. */
  lemma NotOnChannel(t: Tables, sock: int, chan: string, mode: string, member: string)
    requires !Has(UsersOf(t.channels, chan), NickOf, member) ||
             (mode != "+o" && mode != "-o" && mode != "+v" && mode != "-v")
    ensures Mode(t, sock, chan, Some(mode), Some(member)) == t
  {
  }

  /** Nor does one for a nick that no client has any more. */
  lemma NoClientOfThatNick(t: Tables, sock: int, chan: string, mode: string, member: string)
    requires Inv(t) && !Has(t.clients, ClientNick, member)
    requires forall i :: 0 <= i < |t.clients| ==> t.clients[i].sock >= 0
    ensures Mode(t, sock, chan, Some(mode), Some(member)) == t
  {
    assert !Has(t.clients, ClientSock, -1);
    assert AtChannel(t.channels, chan, -1) == AtClient(t.clients, -1, chan) == None;
    var us := UsersOf(t.channels, chan);
    assert First(us, SockOf, -1) == |us|;
  }

  /** OPER makes a client an operator of the server, DEOPER takes that away, and neither changes anything else. */
  lemma OperSets(t: Tables, sock: int)
    requires Inv(t) && Registered(t, sock)
    ensures IsOper(Do(t, sock, OPER), sock) && !IsOper(Do(t, sock, DEOPER), sock)
    ensures forall s :: s != sock ==>
              (IsOper(Do(t, sock, OPER), s) <==> IsOper(t, s)) && (IsOper(Do(t, sock, DEOPER), s) <==> IsOper(t, s))
    ensures Do(t, sock, OPER).channels == t.channels && Do(t, sock, DEOPER).channels == t.channels
    ensures forall s :: ChansOf(Do(t, sock, OPER).clients, s) == ChansOf(t.clients, s)
  {
    OperOnly(t, sock, true);
    OperOnly(t, sock, false);
    var t' := Do(t, sock, OPER);
    forall s { SameKeysSameFirst(t.clients, t'.clients, ClientSock, s); }
  }

  /** A client's own flag is set; no other's changes. */
  lemma OperOnly(t: Tables, sock: int, oper: bool)
    requires Inv(t) && Registered(t, sock)
    ensures IsOper(Oper(t, sock, oper), sock) <==> oper
    ensures forall s :: s != sock ==> (IsOper(Oper(t, sock, oper), s) <==> IsOper(t, s))
  {
    var i, cls := First(t.clients, ClientSock, sock), Oper(t, sock, oper).clients;
    forall j | 0 <= j < |cls| ensures cls[j].sock == sock <==> j == i {
      assert ClientSock(t.clients[j]) == t.clients[j].sock && ClientSock(t.clients[i]) == sock;
    }
    assert cls[i].oper == oper;
    forall s | s != sock ensures IsOper(Oper(t, sock, oper), s) <==> IsOper(t, s) {
      if j :| 0 <= j < |t.clients| && t.clients[j].sock == s && t.clients[j].oper {
        assert cls[j].sock == s && cls[j].oper;
      }
    }
  }

  /**
   Nobody becomes operator of a channel but by joining it while it has no users, or by a MODE of
   somebody who is one already or is an operator of the server.
   */
  lemma CoperIsGranted(t: Tables, sock: int, cmd: Command, name: string, s: int)
    requires Inv(t)
    requires !IsCoper(AtChannel(t.channels, name, s))
    requires IsCoper(AtChannel(Do(t, sock, cmd).channels, name, s))
    ensures (cmd == JOIN(name) && s == sock && UsersOf(t.channels, name) == [])
         || (cmd.MODE? && cmd.name == name && (IsCoper(AtChannel(t.channels, name, sock)) || IsOper(t, sock)))
  {
    match cmd
    case JOIN(n) => if Registered(t, sock) { JoinKeeps(t, sock, n); }
    case PART(n) => PartKeeps(t, sock, n);
    case QUIT => LeaveKeeps(t, sock);
    case MODE(n, mode, member) =>
      MayChangeIff(t, sock, n);
      if n != name { ModeElsewhere(t, sock, n, mode, member, name); }
    case _ =>
  }

  lemma ModeElsewhere(t: Tables, sock: int, chan: string, mode: Option<string>, member: Option<string>, n: string)
    requires Inv(t) && n != chan
    ensures UsersOf(Mode(t, sock, chan, mode, member).channels, n) == UsersOf(t.channels, n)
  {
    if mode.Some? {
      ChannelModeEffect(t.channels, chan, mode.value, n);
      if member.Some? && StatusChange(mode.value).Some? {
        var who := SockOfNick(t.clients, member.value);
        SetUsersEffect(t.channels, chan, ChangeUser(UsersOf(t.channels, chan), who, StatusChange(mode.value).value), n);
      }
    }
  }
}
