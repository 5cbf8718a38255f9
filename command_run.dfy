/** command/command.go, Run: the dispatcher every incoming chat line goes through. It
    filters channel lines without the prefix, tokenises, finds the registered command,
    checks the sender's permission and runs the handler under a deferred recover that
    turns a panic into a reply. */
module CommandRun {
  import opened Common
  import Env
  import opened Commands
  import opened CmdMenu
  import opened Db
  import opened IrcSession
  import IrcPool
  import GeneralHelp
  import AdminServerCmd
  import AdminTestCmd

  /** What the deferred recover makes of a handler's outcome: a handler that returned
      normally is passed through; one that panicked keeps the effects it performed
      before the panic, followed by the panic reply. Run itself never panics. */
  function Recovered(h: Handled): (r: Handled)
    ensures r.panicked == None
    ensures h.panicked == None ==> r == h
    ensures h.panicked.Some? ==> |r.effects| == |h.effects| + 1
    ensures h.panicked.Some? ==> r.effects[..|h.effects|] == h.effects
    ensures h.panicked.Some? ==> r.effects[|h.effects|] == Reply(PanicText(h.panicked.value))
  {
    match h.panicked
    case None => h
    case Some(v) => Handled(h.effects + [Reply(PanicText(v))], None)
  }

  /** The info reply: the build's commit and Go version, then the credits, trimmed. */
  function InfoText(commit: string, runtimeVersion: string): string {
    TrimSpace("hi im mikogo (commit=" + commit + " go=" + Env.GetGoVersion(runtimeVersion) + ")\n"
              + "made by: https://maki.cafe\n"
              + "named by: https://micae.la\n"
              + "https://github.com/makinori/mikogo\n")
  }

  /** The lookup loop of Run: the index of the first command with this name, or -1. */
  method FindRegistered(cmds: seq<Info>, name: string) returns (found: int)
    ensures found == FindCommand(cmds, name)
  {
    found := -1;
    for i := 0 to |cmds|
      invariant found == -1
      invariant forall k :: 0 <= k < i ==> cmds[k].name != name
    {
      if cmds[i].name == name {
        found := i;
        break;
      }
    }
  }

  /** Run. The line came from the client whose session is self (its address is the
      request's); the store's servers bucket, the pool's clients and the answer of the
      by-address lookup are what the server command works on; commit and
      runtimeVersion are what the info command reports. */
  method Run(env: Env.Settings, req: Request, self: Session,
             menu: Node<AdminServerCmd.ServerAction>, servers: CborCrud<Server>,
             clients: IrcPool.PoolState, lookup: AdminServerCmd.AddressLookup,
             commit: string, runtimeVersion: string)
    returns (h: Handled)
    requires self.address == req.address
    requires menu.Valid() && menu.Shape() == AdminServerCmd.ServerMenu
    requires servers.bucket == ServersBucket && servers !in menu.Repr
    modifies menu.Repr, servers
    ensures h.panicked == None
    ensures RouteOf(env, req) == Ignored ==> h == Handled([], None)
    ensures RouteOf(env, req) == Unknown ==> h == Replied(UnknownText(req.where))
    ensures RouteOf(env, req) == Denied ==>
      h == Handled([Reply(RefusalText), Incident(RefusalIncident(req))], None)
    ensures RouteOf(env, req) == Dispatch(0, Tokens(req.text)) ==>
      h == Replied(TrimSpace(GeneralHelp.HelpBody(env, req.address, req.sender)))
    ensures RouteOf(env, req) == Dispatch(1, Tokens(req.text)) ==>
      h == Replied(InfoText(commit, runtimeVersion))
    ensures RouteOf(env, req) == Dispatch(2, Tokens(req.text)) ==>
      exists hh :: AdminServerCmd.ServerHandled(old(servers.data), servers.data, hh, req.where,
                                                Tokens(req.text), lookup, clients)
                   && h == Recovered(hh)
    ensures RouteOf(env, req) == Dispatch(3, Tokens(req.text)) ==>
      h == Recovered(AdminTestCmd.HandleTest(self, req.where, Tokens(req.text)))
    ensures RouteOf(env, req) != Dispatch(2, Tokens(req.text)) ==> servers.data == old(servers.data)
  {
    if HasPrefix(req.where, "#") && !HasPrefix(req.text, CommandPrefix) {
      return Handled([], None);
    }
    // Tokens is never empty, so the source's empty-list branch has no counterpart.
    var args := Tokens(req.text);
    var name := ToLower(args[0]);
    var found := FindRegistered(Registry, name);
    if found == -1 {
      return Replied(UnknownText(req.where));
    }
    if CanSenderRun(env, req.address, req.sender, Registry[found]) {
      if found == 0 {
        h := GeneralHelp.HandleGeneralHelp(env, req.address, req.sender);
      } else if found == 1 {
        h := Replied(InfoText(commit, runtimeVersion));
      } else if found == 2 {
        var hh := AdminServerCmd.HandleAdminServer(menu, servers, clients, req.where, args, lookup);
        h := Recovered(hh);
      } else {
        h := Recovered(AdminTestCmd.HandleTest(self, req.where, args));
      }
    } else {
      h := Handled([Reply(RefusalText), Incident(RefusalIncident(req))], None);
    }
  }

  /** m/test commandpanic from the owner at home: the command's panic is answered with
      the panic reply and nothing else. */
  lemma CommandPanicIsAnswered(self: Session, where: string, args: seq<string>)
    requires |args| >= 2 && args[1] == "commandpanic"
    ensures Recovered(AdminTestCmd.HandleTest(self, where, args)) == Replied("command panicked: test panic")
  {
    assert args[1] != "ping" && args[1] != "msgsize" && args[1] != "clientpanic";
    assert AdminTestCmd.HandleTest(self, where, args) == Handled([], Some("test panic"));
    assert PanicText("test panic") == "command panicked: test panic";
  }

  /** A server list that reaches a server without a client is answered with the nil
      dereference panic reply instead of the list. */
  lemma ListPanicIsAnswered(entries: seq<(string, Server)>, clients: IrcPool.PoolState)
    requires exists e <- entries :: AdminServerCmd.NoClient(clients, e.0)
    ensures Recovered(AdminServerCmd.ListReply(entries, clients)) == Replied(PanicText(NilDereference))
  {
    AdminServerCmd.ListPanicsOnMissingClient(entries, clients);
  }
}
