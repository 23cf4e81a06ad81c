/** The chirc server: its two global lists, edited in place by the command handlers. */
module Chirc {
  import opened ChircTables
  import opened Common

  /** The walk along a list, up to the first entry of key k, that every function of get.c and is_already.c makes. */
  method Search<T, K(==)>(s: seq<T>, key: T -> K, k: K) returns (i: nat)
    ensures i == First(s, key, k)
  {
    i := 0;
    while i < |s| && key(s[i]) != k
      invariant i <= |s| && forall j :: 0 <= j < i ==> key(s[j]) != k
    {
      i := i + 1;
    }
  }

  /** The removals of addremove.c: the head is looked at by itself, then prev and cur walk on together. */
  method Unlink<T, K(==)>(s: seq<T>, key: T -> K, k: K) returns (r: seq<T>)
    ensures r == Without(s, key, k)
  {
    if |s| == 0 {
      return s;
    }
    if key(s[0]) == k {
      return s[1..];
    }
    var prev, cur := 0, 1;
    while cur < |s|
      invariant cur == prev + 1 && cur <= |s|
      invariant forall j :: 0 <= j < cur ==> key(s[j]) != k
    {
      if key(s[cur]) == k {
        return s[..prev + 1] + s[cur + 1..];
      }
      prev, cur := cur, cur + 1;
    }
    return s;
  }

  class Server {
    var clients: seq<Client>
    var channels: seq<Channel>

    ghost function View(): Tables
      reads this
    {
      Tables(clients, channels)
    }

    constructor ()
      ensures View() == Tables([], []) && Inv(View())
    {
      clients, channels := [], [];
    }

    method SetChansAt(i: nat, cs: seq<ChanName>)
      requires i < |clients|
      modifies `clients
      ensures clients == old(clients)[i := old(clients)[i].(chans := cs)]
    {
      clients := clients[i := clients[i].(chans := cs)];
    }

    method SetUsersAt(i: nat, us: seq<ChanUser>)
      requires i < |channels|
      modifies `channels
      ensures channels == old(channels)[i := old(channels)[i].(users := us)]
    {
      channels := channels[i := channels[i].(users := us)];
    }

    method GetChannelsOnUser(socket: int) returns (cs: seq<ChanName>)
      ensures cs == ChansOf(clients, socket)
    {
      var i := Search(clients, ClientSock, socket);
      cs := if i < |clients| then clients[i].chans else [];
    }

    method GetUsersOnChannel(name: string) returns (us: seq<ChanUser>)
      ensures us == UsersOf(channels, name)
    {
      var i := Search(channels, ChannelName, name);
      us := if i < |channels| then channels[i].users else [];
    }

    method IsChanOnUser(name: string, socket: int) returns (yes: bool)
      ensures yes == OnUser(clients, socket, name)
    {
      if name == "" {
        return false;
      }
      var cs := GetChannelsOnUser(socket);
      var j := Search(cs, NameOf, name);
      yes := j < |cs|;
    }

    method IsAlreadyChan(name: string) returns (yes: bool)
      ensures yes == (name != "" && Has(channels, ChannelName, name))
    {
      if name == "" {
        return false;
      }
      var i := Search(channels, ChannelName, name);
      yes := i < |channels|;
    }

    method IsEmpty(name: string) returns (yes: bool)
      ensures yes == IsEmptyChannel(channels, name)
    {
      var i := Search(channels, ChannelName, name);
      yes := i < |channels| && |channels[i].users| == 0;
    }

    method AddChannel(name: string)
      modifies `channels
      ensures channels == [NewChannel(name)] + old(channels)
    {
      channels := [Channel(name, false, false, [])] + channels;
    }

    method RemoveChannel(name: string)
      modifies `channels
      ensures channels == Without(old(channels), ChannelName, name)
    {
      channels := Unlink(channels, ChannelName, name);
    }

    method RemoveClient(socket: int)
      modifies `clients
      ensures clients == Without(old(clients), ClientSock, socket)
    {
      clients := Unlink(clients, ClientSock, socket);
    }

    method AddUser(name: string, nick: string, socket: int)
      modifies `channels
      ensures channels == AddChanUser(old(channels), name, nick, socket)
    {
      if name != "" {
        var i := Search(channels, ChannelName, name);
        if i < |channels| {
          var us := channels[i].users;
          var j := Search(us, SockOf, socket);
          if j == |us| {
            SetUsersAt(i, [ChanUser(nick, socket, Flags(|us| == 0, false))] + us);
          }
        }
      }
    }

    method AddName(socket: int, name: string)
      modifies `clients
      ensures clients == AddChanName(old(clients), socket, name, IsEmptyChannel(channels, name))
    {
      if name != "" {
        var i := Search(clients, ClientSock, socket);
        if i < |clients| {
          var cs := clients[i].chans;
          var j := Search(cs, NameOf, name);
          if j == |cs| {
            var empty := IsEmpty(name);
            SetChansAt(i, [ChanName(name, Flags(empty, false))] + cs);
          }
        }
      }
    }

    method RemoveUser(name: string, socket: int)
      modifies `channels
      ensures channels == RemoveChanUser(old(channels), name, socket)
    {
      if name != "" {
        var i := Search(channels, ChannelName, name);
        if i < |channels| {
          var us := Unlink(channels[i].users, SockOf, socket);
          SetUsersAt(i, us);
        }
      }
    }

    method RemoveName(socket: int, name: string)
      modifies `clients
      ensures clients == RemoveChanName(old(clients), socket, name)
    {
      if name != "" {
        var i := Search(clients, ClientSock, socket);
        if i < |clients| {
          var cs := Unlink(clients[i].chans, NameOf, name);
          SetChansAt(i, cs);
        }
      }
    }

    method ChangeNameStatus(socket: int, name: string, c: Change)
      modifies `clients
      ensures clients == SetChans(old(clients), socket, ChangeName(ChansOf(old(clients), socket), name, c))
    {
      var i := Search(clients, ClientSock, socket);
      if i < |clients| {
        var cs := clients[i].chans;
        var j := Search(cs, NameOf, name);
        if j < |cs| {
          cs := cs[j := cs[j].(flags := Apply(c, cs[j].flags))];
        }
        SetChansAt(i, cs);
      }
    }

    method ChangeUserStatus(name: string, socket: int, c: Change)
      modifies `channels
      ensures channels == SetUsers(old(channels), name, ChangeUser(UsersOf(old(channels), name), socket, c))
    {
      var i := Search(channels, ChannelName, name);
      if i < |channels| {
        var us := channels[i].users;
        var j := Search(us, SockOf, socket);
        if j < |us| {
          us := us[j := us[j].(flags := Apply(c, us[j].flags))];
        }
        SetUsersAt(i, us);
      }
    }

    /** make_copp, decopp, make_voice and devoice, which differ in the one field they set. */
    method ChangeStatus(socket: int, name: string, c: Change)
      modifies `clients, `channels
      ensures View() == SetStatus(old(View()), socket, name, c)
    {
      ChangeNameStatus(socket, name, c);
      ChangeUserStatus(name, socket, c);
    }

    method HandleJoin(socket: int, name: string)
      requires Has(clients, ClientSock, socket)
      modifies this
      ensures View() == Join(old(View()), socket, name)
      ensures name != "" ==> OnUser(clients, socket, name)
    {
      if name != "" { JoinedIsOn(View(), socket, name); }
      var on := IsChanOnUser(name, socket);
      if on {
        return;
      }
      var i := Search(clients, ClientSock, socket);
      var nick := clients[i].nick;
      var known := IsAlreadyChan(name);
      if !known {
        AddChannel(name);
      }
      AddName(socket, name);
      AddUser(name, nick, socket);
    }

    method HandlePart(socket: int, name: string)
      modifies this
      ensures View() == Part(old(View()), socket, name)
    {
      var on := IsChanOnUser(name, socket);
      if !on {
        return;
      }
      RemoveUser(name, socket);
      RemoveName(socket, name);
      var empty := IsEmpty(name);
      if empty {
        RemoveChannel(name);
      }
    }

    /** The loops of handle_QUIT and sock_is_gone over the client's channels. */
    method HandleQuit(socket: int)
      modifies this
      ensures View() == Leave(old(View()), socket)
    {
      var cs := GetChannelsOnUser(socket);
      var i := 0;
      while i < |cs|
        invariant 0 <= i <= |cs| && clients == old(clients)
        invariant RemoveFromAll(channels, cs[i..], socket) == RemoveFromAll(old(channels), cs, socket)
      {
        RemoveUser(cs[i].name, socket);
        assert cs[i..][1..] == cs[i + 1..];
        i := i + 1;
      }
      RemoveClient(socket);
    }

    method MayChangeModes(socket: int, chan: string) returns (yes: bool)
      ensures yes == MayChange(View(), socket, chan)
    {
      var cs := GetChannelsOnUser(socket);
      var j := Search(cs, NameOf, chan);
      var i := Search(clients, ClientSock, socket);
      yes := (j < |cs| && cs[j].flags.coper) || (i < |clients| && clients[i].oper);
    }

    method ApplyStatus(socket: int, chan: string, mode: string)
      modifies `clients, `channels
      ensures var c := StatusChange(mode);
              View() == if c.Some? then SetStatus(old(View()), socket, chan, c.value) else old(View())
    {
      if mode == "+o" {
        ChangeStatus(socket, chan, MakeCopp);
      } else if mode == "-o" {
        ChangeStatus(socket, chan, Decopp);
      } else if mode == "+v" {
        ChangeStatus(socket, chan, MakeVoice);
      } else if mode == "-v" {
        ChangeStatus(socket, chan, Devoice);
      }
    }

    method HandleMode(socket: int, chan: string, mode: Option<string>, member: Option<string>)
      modifies this
      ensures View() == Mode(old(View()), socket, chan, mode, member)
    {
      var may := MayChangeModes(socket, chan);
      if mode.None? || !may {
        return;
      }
      if member.None? {
        var i := Search(channels, ChannelName, chan);
        if i < |channels| {
          channels := channels[i := ChannelMode(channels[i], mode.value)];
        }
        return;
      }
      var us := GetUsersOnChannel(chan);
      var u := Search(us, NickOf, member.value);
      if u < |us| {
        var k := Search(clients, ClientNick, member.value);
        var socket' := if k < |clients| then clients[k].sock else -1;
        ApplyStatus(socket', chan, mode.value);
      }
    }

    method ChangeClient(socket: int, nick: Option<string>, oper: Option<bool>)
      modifies `clients
      ensures clients == var i := First(old(clients), ClientSock, socket);
                if i == |old(clients)| then old(clients)
                else old(clients)[i := old(clients)[i].(
                  nick := if nick.Some? then nick.value else old(clients)[i].nick,
                  oper := if oper.Some? then oper.value else old(clients)[i].oper)]
    {
      var i := Search(clients, ClientSock, socket);
      if i < |clients| {
        if nick.Some? {
          clients := clients[i := clients[i].(nick := nick.value)];
        }
        if oper.Some? {
          clients := clients[i := clients[i].(oper := oper.value)];
        }
      }
    }

    /** A command from a socket, or the end of its connection; the two copies agree afterwards. */
    method Handle(socket: int, cmd: Command)
      requires Inv(View())
      modifies this
      ensures View() == Do(old(View()), socket, cmd) && Inv(View())
    {
      CommandKeeps(View(), socket, cmd);
      var i := Search(clients, ClientSock, socket);
      match cmd
      case LOGIN(nick) =>
        if i == |clients| { clients := [Client(nick, socket, false, [])] + clients; }
      case NICK(nick) =>
        var taken := Search(clients, ClientNick, nick);
        if nick == "" || taken == |clients| { ChangeClient(socket, Some(nick), None); }
      case OPER => ChangeClient(socket, None, Some(true));
      case DEOPER => ChangeClient(socket, None, Some(false));
      case JOIN(name) => if i < |clients| { HandleJoin(socket, name); }
      case PART(name) => HandlePart(socket, name);
      case MODE(name, mode, member) => HandleMode(socket, name, mode, member);
      case QUIT => HandleQuit(socket);
    }
  }
}
