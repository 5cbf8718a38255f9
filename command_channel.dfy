/** command/adminchannel.go: the "channel" menu, through which the owner adds channels
    to and removes them from a configured server's channel list, lists the servers, and
    asks the originating client to rejoin its channels. The command that would reach
    this menu is defined but not registered, so Run never dispatches to it. */
module AdminChannelCmd {
  import opened Common
  import opened Db
  import opened Commands
  import opened CmdMenu
  import AdminServerCmd
  import IrcPool

  /** The handlers a node of the channel menu can hold; list is the server list. */
  datatype ChannelAction = ListChannels | AddChannel | RemoveChannel | ResyncChannelsAction

  /** A channel name as the handlers store it: with a leading "#", added when missing. */
  function Normalize(channel: string): (r: string)
    ensures HasPrefix(r, "#")
    ensures |channel| <= |r| <= |channel| + 1 && r[|r| - |channel|..] == channel
  {
    if HasPrefix(channel, "#") then channel else "#" + channel
  }

  /** Normalising twice is normalising once, and a name that already starts with "#"
      is kept as it is. */
  lemma NormalizeIdempotent(channel: string)
    ensures Normalize(Normalize(channel)) == Normalize(channel)
    ensures HasPrefix(channel, "#") <==> Normalize(channel) == channel
  {
  }

  /** No channel appears twice in the list. */
  predicate NoDuplicates(channels: seq<string>) {
    forall i, j :: 0 <= i < j < |channels| ==> channels[i] != channels[j]
  }

  /** adminChannelAdd with args = [server name, channel]. */
  function AddSpec(b: Bucket<Server>, args: seq<string>): (Bucket<Server>, seq<Effect>)
    requires |args| >= 2
  {
    var channel := Normalize(args[1]);
    var got := GetIn(ServersBucket, b, args[0]);
    if got.Err? then (b, [Reply("failed to get: " + ErrorText(got.error))])
    else if channel in got.value.channels then (b, [Reply("already in channel")])
    else
      var (b', err) := PutIn(ServersBucket, b, args[0], got.value.(channels := got.value.channels + [channel]));
      if err.Some? then (b', [Reply("failed to put: " + ErrorText(err.value))])
      else (b', [Reply("added channel! will join"), SyncPool])
  }

  /** adminChannelRemove with args = [server name, channel]. */
  function RemoveSpec(b: Bucket<Server>, args: seq<string>): (Bucket<Server>, seq<Effect>)
    requires |args| >= 2
  {
    var channel := Normalize(args[1]);
    var got := GetIn(ServersBucket, b, args[0]);
    if got.Err? then (b, [Reply("failed to get: " + ErrorText(got.error))])
    else if channel !in got.value.channels then (b, [Reply("not in channel")])
    else
      var (b', err) := PutIn(ServersBucket, b, args[0], got.value.(channels := RemoveFirst(got.value.channels, channel)));
      if err.Some? then (b', [Reply("failed to put: " + ErrorText(err.value))])
      else (b', [Reply("removed channel! will leave"), SyncPool])
  }

  /** adminChannelSync: the originating client rejoins its channels, then says so. */
  const SyncEffects: seq<Effect> := [ResyncChannels, Reply("will resync channels")]

  /** add: a store error or a channel already listed is one reply and no write;
      otherwise the normalised channel goes at the end of the list, the rest of the
      record and every other server stay as they were, and the pool is synced. */
  lemma AddCases(b: Bucket<Server>, args: seq<string>)
    requires |args| >= 2
    ensures var got := GetIn(ServersBucket, b, args[0]);
      var channel := Normalize(args[1]);
      var (b', e) := AddSpec(b, args);
      && (got.Err? ==> b' == b && e == [Reply("failed to get: " + ErrorText(got.error))])
      && (got.Ok? && channel in got.value.channels ==> b' == b && e == [Reply("already in channel")])
      && (got.Ok? && channel !in got.value.channels ==>
            && b' == Some(b.value[args[0] := Encoded(Server(got.value.address, got.value.channels + [channel]))])
            && e == [Reply("added channel! will join"), SyncPool])
  {
  }

  /** remove: a store error or a channel not listed is one reply and no write;
      otherwise the first occurrence of the normalised channel leaves the list, the
      rest keeps its order, and the pool is synced. */
  lemma RemoveCases(b: Bucket<Server>, args: seq<string>)
    requires |args| >= 2
    ensures var got := GetIn(ServersBucket, b, args[0]);
      var channel := Normalize(args[1]);
      var (b', e) := RemoveSpec(b, args);
      && (got.Err? ==> b' == b && e == [Reply("failed to get: " + ErrorText(got.error))])
      && (got.Ok? && channel !in got.value.channels ==> b' == b && e == [Reply("not in channel")])
      && (got.Ok? && channel in got.value.channels ==>
            var i := IndexOf(got.value.channels, channel);
            && b' == Some(b.value[args[0] := Encoded(Server(got.value.address,
                 got.value.channels[..i] + got.value.channels[i + 1..]))])
            && e == [Reply("removed channel! will leave"), SyncPool])
  {
  }

  /** Neither handler asks for a sync unless it wrote the record. */
  lemma SyncOnlyAfterWrite(b: Bucket<Server>, args: seq<string>)
    requires |args| >= 2
    ensures SyncPool in AddSpec(b, args).1 ==> GetIn(ServersBucket, b, args[0]).Ok? && AddSpec(b, args).0 != b
    ensures SyncPool in RemoveSpec(b, args).1 ==> GetIn(ServersBucket, b, args[0]).Ok? && RemoveSpec(b, args).0 != b
  {
    var got := GetIn(ServersBucket, b, args[0]);
    var channel := Normalize(args[1]);
    if SyncPool in AddSpec(b, args).1 {
      var added := got.value.channels + [channel];
      assert |added| != |got.value.channels|;
      assert AddSpec(b, args).0.value[args[0]] != b.value[args[0]];
    }
    if SyncPool in RemoveSpec(b, args).1 {
      var removed := RemoveFirst(got.value.channels, channel);
      assert |removed| != |got.value.channels|;
      assert RemoveSpec(b, args).0.value[args[0]] != b.value[args[0]];
    }
  }

  /** A list without repeats keeps none after an add, and the added channel is then in
      it exactly once; after a remove the channel is gone and everything else stays. */
  lemma ChannelListsStayDistinct(channels: seq<string>, channel: string)
    requires NoDuplicates(channels)
    ensures channel !in channels ==> NoDuplicates(channels + [channel])
    ensures channel in channels ==> NoDuplicates(RemoveFirst(channels, channel))
    ensures channel in channels ==>
      forall x :: x in RemoveFirst(channels, channel) <==> x in channels && x != channel
  {
    if channel in channels {
      var i := IndexOf(channels, channel);
      RemoveFirstSplits(channels, channel, i);
      DeleteAtKeepsDistinct(channels, i);
      DeleteAtMembers(channels, i);
    }
  }

  /** Deleting one position of a list without repeats leaves a list without repeats. */
  lemma DeleteAtKeepsDistinct(channels: seq<string>, i: nat)
    requires NoDuplicates(channels) && i < |channels|
    ensures NoDuplicates(channels[..i] + channels[i + 1..])
  {
    var r := channels[..i] + channels[i + 1..];
    forall p, q | 0 <= p < q < |r| ensures r[p] != r[q] {
      var p' := if p < i then p else p + 1;
      var q' := if q < i then q else q + 1;
      assert r[p] == channels[p'] && r[q] == channels[q'];
    }
  }

  /** Deleting the only copy of an element of a list without repeats removes exactly
      that element. */
  lemma DeleteAtMembers(channels: seq<string>, i: nat)
    requires NoDuplicates(channels) && i < |channels|
    ensures forall x :: x in channels[..i] + channels[i + 1..] <==> x in channels && x != channels[i]
  {
    var r := channels[..i] + channels[i + 1..];
    forall x ensures x in r <==> x in channels && x != channels[i] {
      if x in r {
        var k :| 0 <= k < |r| && r[k] == x;
        var k' := if k < i then k else k + 1;
        assert channels[k'] == x;
      }
      if x in channels && x != channels[i] {
        var k :| 0 <= k < |channels| && channels[k] == x;
        assert k != i;
        assert r[if k < i then k else k - 1] == x;
      }
    }
  }

  /** Removing a channel right after adding it gives the server its old list back. */
  lemma RemoveUndoesAdd(b: Bucket<Server>, args: seq<string>)
    requires |args| >= 2
    requires GetIn(ServersBucket, b, args[0]).Ok? && Normalize(args[1]) !in GetIn(ServersBucket, b, args[0]).value.channels
    ensures RemoveSpec(AddSpec(b, args).0, args).0 == b
  {
    var old_ := GetIn(ServersBucket, b, args[0]).value;
    var channel := Normalize(args[1]);
    var added := old_.channels + [channel];
    var b1 := AddSpec(b, args).0;
    assert GetIn(ServersBucket, b1, args[0]) == Ok(old_.(channels := added));
    RemoveFirstSplits(added, channel, |old_.channels|);
    assert added[..|old_.channels|] == old_.channels;
    assert RemoveFirst(added, channel) == old_.channels;
    assert channel in added;
    var b2 := RemoveSpec(b1, args).0;
    assert b2 == Some(b1.value[args[0] := Encoded(old_.(channels := RemoveFirst(added, channel)))]);
    assert old_.(channels := old_.channels) == old_;
    assert b1.value[args[0] := Encoded(old_)] == b.value[args[0] := Encoded(old_)];
    assert b.value[args[0] := Encoded(old_)] == b.value;
  }

  /** adminChannelAdd */
  method AdminChannelAdd(servers: CborCrud<Server>, args: seq<string>) returns (effects: seq<Effect>)
    requires servers.bucket == ServersBucket && |args| >= 2
    modifies servers
    ensures (servers.data, effects) == AddSpec(old(servers.data), args)
  {
    var channel := args[1];
    if !HasPrefix(channel, "#") {
      channel := "#" + channel;
    }
    var got := servers.Get(args[0]);
    if got.Err? {
      return [Reply("failed to get: " + ErrorText(got.error))];
    }
    var server := got.value;
    if channel in server.channels {
      return [Reply("already in channel")];
    }
    server := server.(channels := server.channels + [channel]);
    var err := servers.Put(args[0], server);
    match err {
      case Some(e) => return [Reply("failed to put: " + ErrorText(e))];
      case None =>
    }
    return [Reply("added channel! will join"), SyncPool];
  }

  /** adminChannelRemove */
  method AdminChannelRemove(servers: CborCrud<Server>, args: seq<string>) returns (effects: seq<Effect>)
    requires servers.bucket == ServersBucket && |args| >= 2
    modifies servers
    ensures (servers.data, effects) == RemoveSpec(old(servers.data), args)
  {
    var channel := args[1];
    if !HasPrefix(channel, "#") {
      channel := "#" + channel;
    }
    var got := servers.Get(args[0]);
    if got.Err? {
      return [Reply("failed to get: " + ErrorText(got.error))];
    }
    var server := got.value;
    var i := IndexOf(server.channels, channel);
    if i == -1 {
      return [Reply("not in channel")];
    }
    server := server.(channels := server.channels[..i] + server.channels[i + 1..]);
    var err := servers.Put(args[0], server);
    match err {
      case Some(e) => return [Reply("failed to put: " + ErrorText(e))];
      case None =>
    }
    return [Reply("removed channel! will leave"), SyncPool];
  }

  // ---------------------------------------------------------------------------
  // The menu

  /** adminChannel: list, add <server name> <channel name>, remove <server name>
      <channel name>, sync. */
  const ChannelMenu: Tree<ChannelAction> :=
    MenuT("channel", [ListCommand, AddCommand, RemoveCommand, SyncCommand])

  const ListCommand: Tree<ChannelAction> := CommandT("list", 0, "", ListChannels)
  const AddCommand: Tree<ChannelAction> := CommandT("add", 2, "<server name> <channel name>", AddChannel)
  const RemoveCommand: Tree<ChannelAction> := CommandT("remove", 2, "<server name> <channel name>", RemoveChannel)
  const SyncCommand: Tree<ChannelAction> := CommandT("sync", 0, "", ResyncChannelsAction)

  /** Builds the adminChannel menu out of Nodes. */
  method BuildChannelMenu() returns (m: Node<ChannelAction>)
    ensures m.Valid() && m.Shape() == ChannelMenu
  {
    var list := new Node.Command("list", 0, "", ListChannels);
    var add := new Node.Command("add", 2, "<server name> <channel name>", AddChannel);
    var remove := new Node.Command("remove", 2, "<server name> <channel name>", RemoveChannel);
    var sync := new Node.Command("sync", 0, "", ResyncChannelsAction);
    m := new Node.Menu("channel", [list, add, remove, sync]);
    assert ShapesOf([list, add, remove, sync]) == [list.Shape(), add.Shape(), remove.Shape(), sync.Shape()];
  }

  /** add and remove are only run with a server name and a channel. */
  lemma ChannelMenuArity(args: seq<string>)
    ensures var o := Decide(ChannelMenu, [], args);
      o.Invoke? && (o.handler == AddChannel || o.handler == RemoveChannel) ==> |o.args| >= 2
  {
    InvokedHasArity(ChannelMenu, [], args, AddChannel, 2);
    InvokedHasArity(ChannelMenu, [], args, RemoveChannel, 2);
  }

  /** "add" with a server name and a channel runs the add handler on them. */
  lemma ChannelAddInvokes(args: seq<string>)
    requires |args| >= 3 && ToLower(args[0]) == "add"
    ensures Decide(ChannelMenu, [], args) == Invoke(AddChannel, args[1..])
  {
    MenuPicksFirstMatch(ChannelMenu, [], args, 1);
  }

  /** "remove" with a server name and a channel runs the remove handler on them. */
  lemma ChannelRemoveInvokes(args: seq<string>)
    requires |args| >= 3 && ToLower(args[0]) == "remove"
    ensures Decide(ChannelMenu, [], args) == Invoke(RemoveChannel, args[1..])
  {
    MenuPicksFirstMatch(ChannelMenu, [], args, 2);
  }

  /** "list" runs the server list and "sync" the rejoin, whatever follows. */
  lemma ChannelListAndSyncInvoke(args: seq<string>)
    requires |args| >= 1
    ensures ToLower(args[0]) == "list" ==> Decide(ChannelMenu, [], args) == Invoke(ListChannels, args[1..])
    ensures ToLower(args[0]) == "sync" ==> Decide(ChannelMenu, [], args) == Invoke(ResyncChannelsAction, args[1..])
  {
    if ToLower(args[0]) == "list" {
      MenuPicksFirstMatch(ChannelMenu, [], args, 0);
    }
    if ToLower(args[0]) == "sync" {
      MenuPicksFirstMatch(ChannelMenu, [], args, 3);
    }
  }

  /** handleAdminChannel: the menu on the arguments after "channel", with the usage
      printer of cmdmenuUsage, and the handler the menu picks. */
  method HandleAdminChannel(menu: Node<ChannelAction>, servers: CborCrud<Server>, clients: IrcPool.PoolState,
                            where: string, args: seq<string>)
    returns (h: Handled)
    requires menu.Valid() && menu.Shape() == ChannelMenu
    requires servers.bucket == ServersBucket && servers !in menu.Repr
    requires |args| >= 1
    modifies menu.Repr, servers
    ensures var o := Decide(ChannelMenu, [], args[1..]);
      && (o.PrintUsage? ==> h == Replied(UsageReply(where, o.text)) && servers.data == old(servers.data))
      && (o.Invoke? && o.handler == AddChannel ==>
            |o.args| >= 2
            && servers.data == AddSpec(old(servers.data), o.args).0
            && h == Handled(AddSpec(old(servers.data), o.args).1, None))
      && (o.Invoke? && o.handler == RemoveChannel ==>
            |o.args| >= 2
            && servers.data == RemoveSpec(old(servers.data), o.args).0
            && h == Handled(RemoveSpec(old(servers.data), o.args).1, None))
      && (o.Invoke? && o.handler == ResyncChannelsAction ==> h == Handled(SyncEffects, None) && servers.data == old(servers.data))
      && (o.Invoke? && o.handler == ListChannels ==>
            servers.data == old(servers.data) && AdminServerCmd.ListAnswer(ServersBucket, old(servers.data), clients, h))
  {
    ChannelMenuArity(args[1..]);
    var o := menu.Run(args[1..], []);
    match o
    case PrintUsage(text) =>
      return Replied(UsageReply(where, text));
    case Invoke(action, a) =>
      match action
      case ListChannels =>
        h := AdminServerCmd.AdminServerList(servers, clients);
      case AddChannel =>
        var e := AdminChannelAdd(servers, a);
        return Handled(e, None);
      case RemoveChannel =>
        var e := AdminChannelRemove(servers, a);
        return Handled(e, None);
      case ResyncChannelsAction =>
        return Handled(SyncEffects, None);
  }
}
