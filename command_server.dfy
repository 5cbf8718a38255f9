/** command/adminserver.go: the "server" menu, through which the owner lists, adds,
    removes and re-addresses the configured IRC servers. Each handler reads and writes
    the servers bucket and asks the pool to resynchronise after a successful write.

    The store is the CborCrud object for the servers bucket; the pool is passed as its
    state (IrcPool.PoolState), since the list only reads it. db.GetServerByAddress is
    not part of this model: its answer is a parameter, and the lemmas that need it to
    agree with the bucket say so with LookupAgrees. */
module AdminServerCmd {
  import opened Common
  import opened Db
  import opened Commands
  import opened CmdMenu
  import Ircf
  import opened IrcSession
  import IrcPool

  /** The handlers a node of the server menu can hold. */
  datatype ServerAction = ListServers | AddServer | RemoveServer | SetServerAddr

  /** The name the home server is stored under; the handlers refuse to touch it. */
  const HomeName := "home"

  /** The answer of db.GetServerByAddress: the name of a server with that address, no
      such server, or a store error. */
  type AddressLookup = Result<Option<string>, Error>

  /** A lookup that tells the truth about the bucket: a name it returns holds a server
      with the address, and "none" means no stored server has the address. */
  predicate LookupAgrees(b: Bucket<Server>, address: string, r: AddressLookup) {
    match r
    case Err(_) => true
    case Ok(None) =>
      b.Some? ==> forall k <- b.value :: b.value[k].Encoded? ==> b.value[k].value.address != address
    case Ok(Some(n)) =>
      b.Some? && n in b.value && b.value[n].Encoded? && b.value[n].value.address == address
  }

  /** No two stored servers share an address. */
  predicate UniqueAddresses(b: Bucket<Server>) {
    b.Some? ==>
      forall k1, k2 :: k1 in b.value && k2 in b.value && k1 != k2
        && b.value[k1].Encoded? && b.value[k2].Encoded?
        ==> b.value[k1].value.address != b.value[k2].value.address
  }

  // ---------------------------------------------------------------------------
  // add, remove, set addr: the bucket after the handler and what it did

  /** The reply for a failed address lookup, or for an address already taken. */
  function LookupRefusal(r: AddressLookup): (e: seq<Effect>)
    requires !(r.Ok? && r.value.None?)
  {
    if r.Err? then [Reply("failed to get server by address: " + ErrorText(r.error))]
    else [Reply("server with same address already exists: " + r.value.value)]
  }

  /** adminServerAdd with args = [name, address]. */
  function AddSpec(b: Bucket<Server>, args: seq<string>, lookup: AddressLookup): (Bucket<Server>, seq<Effect>)
    requires |args| >= 2
  {
    if args[0] == HomeName then (b, [Reply("cannot add home server")])
    else if !(lookup.Ok? && lookup.value.None?) then (b, LookupRefusal(lookup))
    else
      var (b', err) := AddIn(ServersBucket, b, args[0], Server(args[1], []));
      if err.Some? then (b', [Reply("failed to add: " + ErrorText(err.value))])
      else (b', [Reply("server added! will connect"), SyncPool])
  }

  /** adminServerRemove with args = [name]. */
  function RemoveSpec(b: Bucket<Server>, args: seq<string>): (Bucket<Server>, seq<Effect>)
    requires |args| >= 1
  {
    if args[0] == HomeName then (b, [Reply("cannot remove home server")])
    else
      var (b', err) := DeleteIn(ServersBucket, b, args[0]);
      if err.Some? then (b', [Reply("failed to remove: " + ErrorText(err.value))])
      else (b', [Reply("server removed! will disconnect"), SyncPool])
  }

  /** adminServerSetAddr with args = [name, address]. */
  function SetAddrSpec(b: Bucket<Server>, args: seq<string>, lookup: AddressLookup): (Bucket<Server>, seq<Effect>)
    requires |args| >= 2
  {
    if args[0] == HomeName then (b, [Reply("cannot update home server address")])
    else if !(lookup.Ok? && lookup.value.None?) then (b, LookupRefusal(lookup))
    else
      var got := GetIn(ServersBucket, b, args[0]);
      if got.Err? then (b, [Reply("failed to get: " + ErrorText(got.error))])
      else
        var (b', err) := PutIn(ServersBucket, b, args[0], got.value.(address := args[1]));
        if err.Some? then (b', [Reply("failed to update: " + ErrorText(err.value))])
        else (b', [Reply("server address updated! will reconnect"), SyncPool])
  }

  /** The home server can be neither added, removed nor re-addressed: each handler
      answers with its refusal and leaves the bucket alone. */
  lemma HomeIsProtected(b: Bucket<Server>, args: seq<string>, lookup: AddressLookup)
    requires |args| >= 2 && args[0] == HomeName
    ensures AddSpec(b, args, lookup) == (b, [Reply("cannot add home server")])
    ensures RemoveSpec(b, args) == (b, [Reply("cannot remove home server")])
    ensures SetAddrSpec(b, args, lookup) == (b, [Reply("cannot update home server address")])
  {
  }

  /** add writes exactly when the name is not home, the address is free and the name is
      not yet stored; it then stores the server with no channels and asks for a sync.
      Every other path is one reply and no write. */
  lemma AddCases(b: Bucket<Server>, args: seq<string>, lookup: AddressLookup)
    requires |args| >= 2
    ensures var (b', e) := AddSpec(b, args, lookup);
      && (SyncPool in e <==> args[0] != HomeName && lookup == Ok(None) && b.Some? && !Present(b.value, args[0]))
      && (SyncPool in e ==>
            b' == Some(b.value[args[0] := Encoded(Server(args[1], []))])
            && e == [Reply("server added! will connect"), SyncPool])
      && (SyncPool !in e ==> b' == b && |e| == 1)
  {
  }

  /** remove deletes exactly when the name is not home and is stored; it then asks for a
      sync. Every other path is one reply and no write. */
  lemma RemoveCases(b: Bucket<Server>, args: seq<string>)
    requires |args| >= 1
    ensures var (b', e) := RemoveSpec(b, args);
      && (SyncPool in e <==> args[0] != HomeName && b.Some? && Present(b.value, args[0]))
      && (SyncPool in e ==> b' == Some(b.value - {args[0]}) && e == [Reply("server removed! will disconnect"), SyncPool])
      && (SyncPool !in e ==> b' == b && |e| == 1)
  {
  }

  /** set addr writes exactly when the name is not home, the address is free and the
      stored record decodes; it replaces the address, keeps the channels, and asks for a
      sync. Every other path is one reply and no write. */
  lemma SetAddrCases(b: Bucket<Server>, args: seq<string>, lookup: AddressLookup)
    requires |args| >= 2
    ensures var (b', e) := SetAddrSpec(b, args, lookup);
      && (SyncPool in e <==> args[0] != HomeName && lookup == Ok(None) && GetIn(ServersBucket, b, args[0]).Ok?)
      && (SyncPool in e ==>
            var old_ := GetIn(ServersBucket, b, args[0]).value;
            b' == Some(b.value[args[0] := Encoded(Server(args[1], old_.channels))])
            && e == [Reply("server address updated! will reconnect"), SyncPool])
      && (SyncPool !in e ==> b' == b && |e| == 1)
  {
  }

  /** With a truthful address lookup, no handler lets two servers share an address. */
  lemma AddressesStayUnique(b: Bucket<Server>, args: seq<string>, lookup: AddressLookup)
    requires |args| >= 2 && UniqueAddresses(b) && LookupAgrees(b, args[1], lookup)
    ensures UniqueAddresses(AddSpec(b, args, lookup).0)
    ensures UniqueAddresses(RemoveSpec(b, args).0)
    ensures UniqueAddresses(SetAddrSpec(b, args, lookup).0)
  {
    AddCases(b, args, lookup);
    RemoveCases(b, args);
    SetAddrCases(b, args, lookup);
  }

  /** adminServerAdd */
  method AdminServerAdd(servers: CborCrud<Server>, args: seq<string>, lookup: AddressLookup)
    returns (effects: seq<Effect>)
    requires servers.bucket == ServersBucket && |args| >= 2
    modifies servers
    ensures (servers.data, effects) == AddSpec(old(servers.data), args, lookup)
  {
    if args[0] == HomeName {
      return [Reply("cannot add home server")];
    }
    if lookup.Err? {
      return [Reply("failed to get server by address: " + ErrorText(lookup.error))];
    }
    if lookup.value.Some? {
      return [Reply("server with same address already exists: " + lookup.value.value)];
    }
    var err := servers.Add(args[0], Server(args[1], []));
    if err.Some? {
      return [Reply("failed to add: " + ErrorText(err.value))];
    }
    return [Reply("server added! will connect"), SyncPool];
  }

  /** adminServerRemove */
  method AdminServerRemove(servers: CborCrud<Server>, args: seq<string>) returns (effects: seq<Effect>)
    requires servers.bucket == ServersBucket && |args| >= 1
    modifies servers
    ensures (servers.data, effects) == RemoveSpec(old(servers.data), args)
  {
    if args[0] == HomeName {
      return [Reply("cannot remove home server")];
    }
    var err := servers.Delete(args[0]);
    if err.Some? {
      return [Reply("failed to remove: " + ErrorText(err.value))];
    }
    return [Reply("server removed! will disconnect"), SyncPool];
  }

  /** adminServerSetAddr */
  method AdminServerSetAddr(servers: CborCrud<Server>, args: seq<string>, lookup: AddressLookup)
    returns (effects: seq<Effect>)
    requires servers.bucket == ServersBucket && |args| >= 2
    modifies servers
    ensures (servers.data, effects) == SetAddrSpec(old(servers.data), args, lookup)
  {
    if args[0] == HomeName {
      return [Reply("cannot update home server address")];
    }
    if lookup.Err? {
      return [Reply("failed to get server by address: " + ErrorText(lookup.error))];
    }
    if lookup.value.Some? {
      return [Reply("server with same address already exists: " + lookup.value.value)];
    }
    var got := servers.Get(args[0]);
    if got.Err? {
      return [Reply("failed to get: " + ErrorText(got.error))];
    }
    var server := got.value.(address := args[1]);
    var err := servers.Put(args[0], server);
    match err {
      case Some(e) => return [Reply("failed to update: " + ErrorText(e))];
      case None =>
    }
    return [Reply("server address updated! will reconnect"), SyncPool];
  }

  // ---------------------------------------------------------------------------
  // list

  /** A channel as the list shows it: white on yellow when the client is in it, white
      on black when it is only configured. */
  function ChannelMark(channel: string, current: seq<string>): string {
    MarkStyle(channel in current).Format(channel)
  }

  /** White on yellow for a joined channel, white on black otherwise. */
  function MarkStyle(joined: bool): (f: Ircf.Format)
    ensures f == Ircf.Fmt(false, 98, if joined then 43 else 40)
  {
    if joined then Ircf.Color(98, [43]) else Ircf.Color(98, [40])
  }

  /** The two channel styles give different text for the same channel, so the list
      shows membership exactly. */
  lemma ChannelMarkShowsMembership(channel: string, current: seq<string>)
    ensures ChannelMark(channel, current) == Ircf.Color(98, [43]).Format(channel) <==> channel in current
  {
    var joined := Ircf.Color(98, [43]);
    var configured := Ircf.Color(98, [40]);
    Ircf.PrefixLength(joined);
    Ircf.PrefixLength(configured);
    DecimalTwoDigits(98);
    DecimalTwoDigits(43);
    DecimalTwoDigits(40);
    assert Decimal(43)[1] == '3' && Decimal(40)[1] == '0' by {
      assert Decimal(43) == Decimal(4) + [DigitChar(3)];
      assert Decimal(40) == Decimal(4) + [DigitChar(0)];
    }
    assert joined.Prefix()[5] == '3';
    assert configured.Prefix()[5] == '0';
    assert joined.Format(channel)[5] != configured.Format(channel)[5];
  }

  /** The marked channels, in configured order. */
  function Marks(channels: seq<string>, current: seq<string>): (r: seq<string>)
    ensures |r| == |channels| && forall i :: 0 <= i < |r| ==> r[i] == ChannelMark(channels[i], current)
  {
    seq(|channels|, i requires 0 <= i < |channels| => ChannelMark(channels[i], current))
  }

  /** The list's format string filled in: the name and address in bold white, the
      state label, and on an indented second line the marked channels in bold. */
  function ServerLine(name: string, address: string, state: ConnState, marks: seq<string>): string {
    Ircf.BoldWhite.Format(name) + " addr=" + Ircf.BoldWhite.Format(address) + " state=" + FormattedState(state)
      + "\n  " + Ircf.Bold().Format(Join(marks, ", ")) + "\n"
  }

  /** The two lines the list shows for one server. */
  function ServerLines(name: string, server: Server, client: Session): string {
    ServerLine(name, server.address, client.state, Marks(server.channels, client.current))
  }

  /** Whether the pool has no client for this name: irc.GetClient returns nil, and the
      list's call on it panics. */
  predicate NoClient(clients: IrcPool.PoolState, name: string) {
    name !in clients || clients[name].None?
  }

  /** The text the list loop builds, visiting the entries from the last to the first,
      or the panic of the first visited entry without a client. */
  function ListBody(entries: seq<(string, Server)>, clients: IrcPool.PoolState): (r: Result<string, string>)
    ensures r.Err? ==> r.error == NilDereference
  {
    if entries == [] then Ok("")
    else
      match ListBody(entries[1..], clients)
      case Err(p) => Err(p)
      case Ok(rest) =>
        if NoClient(clients, entries[0].0) then Err(NilDereference)
        else Ok(rest + ServerLines(entries[0].0, entries[0].1, clients[entries[0].0].value))
  }

  /** What the list sends, or the panic it ends with. */
  function ListReply(entries: seq<(string, Server)>, clients: IrcPool.PoolState): Handled {
    match ListBody(entries, clients)
    case Err(p) => Handled([], Some(p))
    case Ok(body) => Replied(TrimSpace(body))
  }

  /** The list panics exactly when some listed server has no client; the reply is then
      never sent. */
  lemma {:induction false} ListPanicsOnMissingClient(entries: seq<(string, Server)>, clients: IrcPool.PoolState)
    ensures ListBody(entries, clients).Err? <==> exists e <- entries :: NoClient(clients, e.0)
  {
    if entries != [] {
      ListPanicsOnMissingClient(entries[1..], clients);
      assert forall e <- entries[1..] :: e in entries;
      assert forall e <- entries :: e == entries[0] || e in entries[1..];
    }
  }

  /** Joining pieces with ", " adds no line break. */
  lemma {:induction false} JoinAddsNoLineBreak(parts: seq<string>)
    requires forall p <- parts :: '\n' !in p
    ensures '\n' !in Join(parts, ", ")
  {
    if |parts| > 1 {
      JoinAddsNoLineBreak(parts[1..]);
      assert parts[0] in parts;
    } else if |parts| == 1 {
      assert parts[0] in parts;
    }
  }

  /** Two pieces without line breaks, set out as the list's two lines, hold two. */
  lemma TwoLines(head: string, tail: string)
    requires '\n' !in head && '\n' !in tail
    ensures Count(head + "\n  " + tail + "\n", '\n') == 2
  {
    CountAbsent(head, '\n');
    CountAbsent(tail, '\n');
    CountAppend(head, "\n  ", '\n');
    CountAppend(head + "\n  ", tail, '\n');
    CountAppend(head + "\n  " + tail, "\n", '\n');
  }

  /** No marked channel holds a line break when no channel does. */
  lemma MarksAddNoLineBreak(channels: seq<string>, current: seq<string>)
    requires forall c <- channels :: '\n' !in c
    ensures forall m <- Marks(channels, current) :: '\n' !in m
  {
    var marks := Marks(channels, current);
    forall i | 0 <= i < |marks| ensures '\n' !in marks[i] {
      assert channels[i] in channels;
      Ircf.FormatAddsNoLineBreak(MarkStyle(channels[i] in current), channels[i]);
    }
  }

  /** The first line of a server holds no line break. */
  lemma HeadHasNoLineBreak(name: string, address: string, state: ConnState)
    requires '\n' !in name && '\n' !in address
    ensures '\n' !in Ircf.BoldWhite.Format(name) + " addr=" + Ircf.BoldWhite.Format(address) + " state=" + FormattedState(state)
  {
    var n, a := Ircf.BoldWhite.Format(name), Ircf.BoldWhite.Format(address);
    Ircf.FormatAddsNoLineBreak(Ircf.BoldWhite, name);
    Ircf.FormatAddsNoLineBreak(Ircf.BoldWhite, address);
    LabelText(state);
    Ircf.FormatAddsNoLineBreak(Ircf.Fmt(true, 98, StateBackground(state)), StateName(state));
    NoLineBreakAppend(n, " addr=");
    NoLineBreakAppend(n + " addr=", a);
    NoLineBreakAppend(n + " addr=" + a, " state=");
    NoLineBreakAppend(n + " addr=" + a + " state=", FormattedState(state));
  }

  lemma NoLineBreakAppend(a: string, b: string)
    requires '\n' !in a && '\n' !in b
    ensures '\n' !in a + b
  {
  }

  /** A server, its address and channels free of line breaks, takes exactly two lines. */
  lemma ServerLinesCount(name: string, server: Server, client: Session)
    requires '\n' !in name && '\n' !in server.address && forall c <- server.channels :: '\n' !in c
    ensures Count(ServerLines(name, server, client), '\n') == 2
  {
    var marks := Marks(server.channels, client.current);
    MarksAddNoLineBreak(server.channels, client.current);
    JoinAddsNoLineBreak(marks);
    Ircf.FormatAddsNoLineBreak(Ircf.Bold(), Join(marks, ", "));
    HeadHasNoLineBreak(name, server.address, client.state);
    TwoLines(Ircf.BoldWhite.Format(name) + " addr=" + Ircf.BoldWhite.Format(server.address) + " state="
      + FormattedState(client.state), Ircf.Bold().Format(Join(marks, ", ")));
  }

  /** Names, addresses and channels without line breaks: the untrimmed list has two
      lines per server. */
  lemma {:induction false} ListLineCount(entries: seq<(string, Server)>, clients: IrcPool.PoolState)
    requires forall e <- entries :: '\n' !in e.0 && '\n' !in e.1.address && forall c <- e.1.channels :: '\n' !in c
    requires ListBody(entries, clients).Ok?
    ensures Count(ListBody(entries, clients).value, '\n') == 2 * |entries|
  {
    if entries != [] {
      assert forall e <- entries[1..] :: e in entries;
      ListLineCount(entries[1..], clients);
      assert entries[0] in entries;
      var rest := ListBody(entries[1..], clients).value;
      ServerLinesCount(entries[0].0, entries[0].1, clients[entries[0].0].value);
      CountAppend(rest, ServerLines(entries[0].0, entries[0].1, clients[entries[0].0].value), '\n');
    }
  }

  /** The marked channels of one server, written into a slice as the source does. */
  method MarkChannels(channels: seq<string>, current: seq<string>) returns (marks: seq<string>)
    ensures marks == Marks(channels, current)
  {
    var formatted := new string[|channels|];
    for i := 0 to |channels|
      invariant forall k :: 0 <= k < i ==> formatted[k] == ChannelMark(channels[k], current)
    {
      if channels[i] in current {
        formatted[i] := Ircf.Color(98, [43]).Format(channels[i]);
      } else {
        formatted[i] := Ircf.Color(98, [40]).Format(channels[i]);
      }
    }
    return formatted[..];
  }

  /** Both channel styles switch on with six characters: 0x03, "98", a comma and a
      two-digit background. */
  lemma MarkPrefixLength(joined: bool)
    ensures |MarkStyle(joined).Prefix()| == 6
  {
    Ircf.PrefixLength(MarkStyle(joined));
    DecimalTwoDigits(98);
    DecimalTwoDigits(43);
    DecimalTwoDigits(40);
  }

  /** The marks read back as the configured channels, in order, and they show exactly
      which of them the client is in: two clients get the same marks exactly when they
      agree on every configured channel. */
  lemma MarksShowMembership(channels: seq<string>, cur1: seq<string>, cur2: seq<string>)
    ensures forall i :: 0 <= i < |channels| ==>
      |Marks(channels, cur1)[i]| == |channels[i]| + 7 && Marks(channels, cur1)[i][6..|channels[i]| + 6] == channels[i]
    ensures Marks(channels, cur1) == Marks(channels, cur2) <==> forall c <- channels :: (c in cur1 <==> c in cur2)
  {
    var m1, m2 := Marks(channels, cur1), Marks(channels, cur2);
    forall i | 0 <= i < |channels|
      ensures |m1[i]| == |channels[i]| + 7 && m1[i][6..|channels[i]| + 6] == channels[i]
      ensures m1[i] == m2[i] <==> (channels[i] in cur1 <==> channels[i] in cur2)
    {
      MarkPrefixLength(channels[i] in cur1);
      ChannelMarkShowsMembership(channels[i], cur1);
      ChannelMarkShowsMembership(channels[i], cur2);
    }
    if forall c <- channels :: (c in cur1 <==> c in cur2) {
      forall i | 0 <= i < |channels| ensures m1[i] == m2[i] {
        assert channels[i] in channels;
      }
    }
    if m1 == m2 {
      forall c <- channels ensures c in cur1 <==> c in cur2 {
        var i :| 0 <= i < |channels| && channels[i] == c;
        assert m1[i] == m2[i];
      }
    }
  }

  /** The list loop over the entries GetAll returned, from the back. */
  method ListEntries(entries: seq<(string, Server)>, clients: IrcPool.PoolState) returns (h: Handled)
    ensures h == ListReply(entries, clients)
  {
    var out := "";
    var i := |entries|;
    while i > 0
      invariant 0 <= i <= |entries|
      invariant ListBody(entries[i..], clients) == Ok(out)
    {
      var (name, server) := entries[i - 1];
      if NoClient(clients, name) {
        assert ListBody(entries[i - 1..], clients).Err? by {
          assert entries[i - 1..][1..] == entries[i..];
        }
        ListPanicsOnMissingClient(entries[i - 1..], clients);
        assert entries[i - 1] in entries;
        ListPanicsOnMissingClient(entries, clients);
        return Handled([], Some(NilDereference));
      }
      var client := clients[name].value;
      var marks := MarkChannels(server.channels, client.current);
      out := out + ServerLine(name, server.address, client.state, marks);
      assert entries[i - 1..][1..] == entries[i..];
      i := i - 1;
    }
    assert entries[0..] == entries;
    return Replied(TrimSpace(out));
  }

  /** What the list answers for a bucket: a store that cannot list every server
      answers with the error; otherwise the reply is the list of the entries, in the
      order GetAll gave them. */
  ghost predicate ListAnswer(bucket: string, b: Bucket<Server>, clients: IrcPool.PoolState, h: Handled) {
    && (b.None? ==> h == Replied("failed to get all: " + ErrorText(BucketNotFound(bucket))))
    && (b.Some? && (exists k <- b.value :: !b.value[k].Encoded?) ==>
          h == Replied("failed to get all: " + ErrorText(DecodeFailed)))
    && (b.Some? && (forall k <- b.value :: b.value[k].Encoded?) ==>
          exists entries :: Listing(b.value, entries) && h == ListReply(entries, clients))
  }

  /** adminServerList */
  method AdminServerList(servers: CborCrud<Server>, clients: IrcPool.PoolState) returns (h: Handled)
    ensures ListAnswer(servers.bucket, servers.data, clients, h)
  {
    var all := servers.GetAll();
    if all.Err? {
      return Replied("failed to get all: " + ErrorText(all.error));
    }
    h := ListEntries(all.value, clients);
  }

  // ---------------------------------------------------------------------------
  // The menu

  /** adminServer: list, add <name> <address>, remove <name>, set addr <name> <address>. */
  const ServerMenu: Tree<ServerAction> := MenuT("server", [ListCommand, AddCommand, RemoveCommand, SetMenu])

  const ListCommand: Tree<ServerAction> := CommandT("list", 0, "", ListServers)
  const AddCommand: Tree<ServerAction> := CommandT("add", 2, "<name> <address>", AddServer)
  const RemoveCommand: Tree<ServerAction> := CommandT("remove", 1, "<name>", RemoveServer)
  const SetMenu: Tree<ServerAction> := MenuT("set", [AddrCommand])
  const AddrCommand: Tree<ServerAction> := CommandT("addr", 2, "<name> <address>", SetServerAddr)

  /** Builds the adminServer menu out of Nodes. */
  method BuildServerMenu() returns (m: Node<ServerAction>)
    ensures m.Valid() && m.Shape() == ServerMenu
  {
    var list := new Node.Command("list", 0, "", ListServers);
    var add := new Node.Command("add", 2, "<name> <address>", AddServer);
    var remove := new Node.Command("remove", 1, "<name>", RemoveServer);
    var setMenu := BuildSetMenu();
    m := new Node.Menu("server", [list, add, remove, setMenu]);
    assert ShapesOf([list, add, remove, setMenu]) == [list.Shape(), add.Shape(), remove.Shape(), setMenu.Shape()];
  }

  /** The "set" menu of adminServer, holding the addr command. */
  method BuildSetMenu() returns (m: Node<ServerAction>)
    ensures m.Valid() && m.Shape() == SetMenu
  {
    var addr := new Node.Command("addr", 2, "<name> <address>", SetServerAddr);
    m := new Node.Menu("set", [addr]);
    assert ShapesOf([addr]) == [addr.Shape()];
  }

  /** The handlers the server menu reaches get the arguments they index: add and set
      addr at least two, remove at least one. */
  lemma ServerMenuArity(args: seq<string>)
    ensures var o := Decide(ServerMenu, [], args);
      o.Invoke? ==>
        && ((o.handler == AddServer || o.handler == SetServerAddr) ==> |o.args| >= 2)
        && (o.handler == RemoveServer ==> |o.args| >= 1)
  {
    InvokedHasArity(ServerMenu, [], args, AddServer, 2);
    InvokedHasArity(ServerMenu, [], args, SetServerAddr, 2);
    InvokedHasArity(ServerMenu, [], args, RemoveServer, 1);
  }

  /** "list" runs the list handler whatever follows. */
  lemma ServerListRoute(args: seq<string>)
    requires |args| >= 1 && ToLower(args[0]) == "list"
    ensures Decide(ServerMenu, [], args) == Invoke(ListServers, args[1..])
  {
    ServerMenuEntry(0);
  }

  /** "add" hands the rest to the add command below "server". */
  lemma ServerAddRoute(args: seq<string>)
    requires |args| >= 1 && ToLower(args[0]) == "add"
    ensures Decide(ServerMenu, [], args) == Decide(AddCommand, ["server"], args[1..])
  {
    ServerMenuEntry(1);
    assert [] + ["server"] == ["server"];
  }

  /** The add command runs its handler on the name and the address. */
  lemma ServerAddInvokes(args: seq<string>)
    requires |args| >= 3 && ToLower(args[0]) == "add"
    ensures Decide(ServerMenu, [], args) == Invoke(AddServer, args[1..])
  {
    ServerMenuEntry(1);
  }

  /** "remove" hands the rest to the remove command below "server". */
  lemma ServerRemoveRoute(args: seq<string>)
    requires |args| >= 1 && ToLower(args[0]) == "remove"
    ensures Decide(ServerMenu, [], args) == Decide(RemoveCommand, ["server"], args[1..])
  {
    ServerMenuEntry(2);
    assert [] + ["server"] == ["server"];
  }

  /** The remove command runs its handler on the name. */
  lemma ServerRemoveInvokes(args: seq<string>)
    requires |args| >= 2 && ToLower(args[0]) == "remove"
    ensures Decide(ServerMenu, [], args) == Invoke(RemoveServer, args[1..])
  {
    ServerMenuEntry(2);
  }

  /** Without a name, remove prints "server remove <name>". */
  lemma RemoveUsage()
    ensures Decide(RemoveCommand, ["server"], []) == PrintUsage("server remove <name>")
  {
    assert CallStack("remove", ["server"]) == "server remove";
  }

  /** "set addr" hands the rest to the addr command below "server set". */
  lemma ServerSetAddrRoute(args: seq<string>)
    requires |args| >= 2 && ToLower(args[0]) == "set" && ToLower(args[1]) == "addr"
    ensures Decide(ServerMenu, [], args) == Decide(AddrCommand, ["server", "set"], args[2..])
  {
    ServerSetRoute(args);
    MenuPicksFirstMatch(SetMenu, ["server"], args[1..], 0);
    assert ["server"] + ["set"] == ["server", "set"];
    assert args[1..][1..] == args[2..];
  }

  /** "set" hands the rest to the set menu below "server". */
  lemma ServerSetRoute(args: seq<string>)
    requires |args| >= 1 && ToLower(args[0]) == "set"
    ensures Decide(ServerMenu, [], args) == Decide(SetMenu, ["server"], args[1..])
  {
    ServerMenuEntry(3);
    assert [] + ["server"] == ["server"];
  }

  /** Where each entry of the server menu sits. */
  lemma ServerMenuEntry(i: nat)
    requires i < 4
    ensures FirstMatch(Names(ServerMenu.children), ["list", "add", "remove", "set"][i]) == i
    ensures ServerMenu.children[i] == [ListCommand, AddCommand, RemoveCommand, SetMenu][i]
  {
    ServerMenuNames();
    var names := ["list", "add", "remove", "set"];
    assert names[i] !in names[..i];
  }

  /** The addr command runs its handler on the name and the address. */
  lemma ServerSetAddrInvokes(args: seq<string>)
    requires |args| >= 4 && ToLower(args[0]) == "set" && ToLower(args[1]) == "addr"
    ensures Decide(ServerMenu, [], args) == Invoke(SetServerAddr, args[2..])
  {
    ServerSetAddrRoute(args);
  }

  /** The menu's entries, in the order its usage lists them. */
  lemma ServerMenuNames()
    ensures Names(ServerMenu.children) == ["list", "add", "remove", "set"]
  {
  }

  /** A first argument that names no entry, or none at all, prints the menu's usage:
      "server <subcommand>" and, on the next line, its four entries. */
  lemma ServerMenuUsage(args: seq<string>)
    requires |args| == 0 || ToLower(args[0]) !in ["list", "add", "remove", "set"]
    ensures Decide(ServerMenu, [], args)
      == PrintUsage(Join(["server"], " ") + " <subcommand>\n  " + Join(["list", "add", "remove", "set"], ", "))
  {
    ServerMenuNames();
    MenuUsage(ServerMenu, [], args);
    assert [] + ["server"] == ["server"];
  }

  /** What the server command does with its arguments (the first is "server"), as the
      bucket before and after and the handler's outcome: the usage reply, the list, or
      the add, remove or set addr handler run on the arguments the menu hands on. */
  ghost predicate ServerHandled(before: Bucket<Server>, after: Bucket<Server>, h: Handled, where: string,
                                args: seq<string>, lookup: AddressLookup, clients: IrcPool.PoolState)
    requires |args| >= 1
  {
    match Decide(ServerMenu, [], args[1..])
    case PrintUsage(text) => h == Replied(UsageReply(where, text)) && after == before
    case Invoke(action, a) =>
      match action
      case ListServers => after == before && ListAnswer(ServersBucket, before, clients, h)
      case AddServer =>
        |a| >= 2 && after == AddSpec(before, a, lookup).0 && h == Handled(AddSpec(before, a, lookup).1, None)
      case RemoveServer =>
        |a| >= 1 && after == RemoveSpec(before, a).0 && h == Handled(RemoveSpec(before, a).1, None)
      case SetServerAddr =>
        |a| >= 2 && after == SetAddrSpec(before, a, lookup).0 && h == Handled(SetAddrSpec(before, a, lookup).1, None)
  }

  /** The run of the server command: the menu on the arguments after "server", with the
      usage printer of cmdmenuUsage, and the handler the menu picks. */
  method HandleAdminServer(menu: Node<ServerAction>, servers: CborCrud<Server>, clients: IrcPool.PoolState,
                           where: string, args: seq<string>, lookup: AddressLookup)
    returns (h: Handled)
    requires menu.Valid() && menu.Shape() == ServerMenu
    requires servers.bucket == ServersBucket && servers !in menu.Repr
    requires |args| >= 1
    modifies menu.Repr, servers
    ensures ServerHandled(old(servers.data), servers.data, h, where, args, lookup, clients)
  {
    ServerMenuArity(args[1..]);
    var o := menu.Run(args[1..], []);
    match o
    case PrintUsage(text) =>
      return Replied(UsageReply(where, text));
    case Invoke(action, a) =>
      match action
      case ListServers =>
        h := AdminServerList(servers, clients);
      case AddServer =>
        var e := AdminServerAdd(servers, a, lookup);
        return Handled(e, None);
      case RemoveServer =>
        var e := AdminServerRemove(servers, a);
        return Handled(e, None);
      case SetServerAddr =>
        var e := AdminServerSetAddr(servers, a, lookup);
        return Handled(e, None);
  }
}
