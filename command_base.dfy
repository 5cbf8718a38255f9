/** command/command.go and command/cmdmenu.go: which commands exist, who may run them,
    how a chat line becomes a command name and arguments, and the fixed replies of the
    dispatcher. A handler's effects on the world are listed as values, in the order the
    handler performs them. */
module Commands {
  import opened Common
  import Env

  /** The prefix a channel message needs before it is read as a command. */
  const CommandPrefix := "m/"

  /** A registered command: its name, its category and its help line. */
  datatype Info = Info(name: string, category: string, description: string)

  const Help := Info("help", "general", "show all commands")
  const About := Info("info", "general", "about me")
  const AdminServer := Info("server", "admin", "manage servers")
  const AdminTest := Info("test", "admin", "various test functions")

  /** The commands slice after init: help, info, server, test, in that order. */
  const Registry: seq<Info> := [Help, About, AdminServer, AdminTest]

  /** ownerOnlyCategories */
  const OwnerOnlyCategories: seq<string> := ["admin", "testing"]

  /** An incoming chat line: the address of the server it came from (msg.Client.Address),
      its sender, where to answer (the channel, or the sender for a private message), and
      its text. */
  datatype Request = Request(address: string, sender: string, where: string, text: string)

  /** What a handler does, in order. Reply is msg.Client.Send(msg.Where, text); WriteRaw
      a frame written straight to the originating client's connection; MarkPanicOnNextPing
      sets that client's PanicOnNextPing; ResyncChannels calls its SyncChannels; SyncPool
      is irc.Sync(); Incident is irc.ReportIncident(text). */
  datatype Effect =
    | Reply(text: string)
    | WriteRaw(frame: string)
    | MarkPanicOnNextPing
    | ResyncChannels
    | SyncPool
    | Incident(text: string)

  /** The effects a handler performed, and the value it panicked with, if it did. */
  datatype Handled = Handled(effects: seq<Effect>, panicked: Option<string>)

  /** A reply-only outcome. */
  function Replied(text: string): Handled {
    Handled([Reply(text)], None)
  }

  /** The panic value of a method called through a nil pointer. */
  const NilDereference := "runtime error: invalid memory address or nil pointer dereference"

  /** canSenderRunCommand: the owner on the home server may run anything; everybody else
      only commands outside the owner-only categories. */
  predicate CanSenderRun(env: Env.Settings, address: string, sender: string, c: Info) {
    (address == env.homeServer && sender == env.owner) || c.category !in OwnerOnlyCategories
  }

  /** Who may run which registered command: the owner, writing from the home server,
      every one; anybody else (including the owner elsewhere) exactly help and info. */
  lemma RegistryPermissions(env: Env.Settings, address: string, sender: string)
    ensures address == env.homeServer && sender == env.owner ==>
      forall c <- Registry :: CanSenderRun(env, address, sender, c)
    ensures !(address == env.homeServer && sender == env.owner) ==>
      forall i :: 0 <= i < |Registry| ==> (CanSenderRun(env, address, sender, Registry[i]) <==> i < 2)
  {
  }

  // ---------------------------------------------------------------------------
  // Tokenising

  /** The characters regexp's \s matches: tab, newline, form feed, carriage return,
      space. */
  predicate IsPerlSpace(c: char) {
    c == '\t' || c == '\n' || c == '\U{000C}' || c == '\r' || c == ' '
  }

  /** The position of the first \s character, or |s|. */
  function FirstSpace(s: string): (i: nat)
    ensures i <= |s|
    ensures forall k :: 0 <= k < i ==> !IsPerlSpace(s[k])
    ensures i < |s| ==> IsPerlSpace(s[i])
  {
    if s == [] || IsPerlSpace(s[0]) then 0
    else
      var j := FirstSpace(s[1..]);
      assert forall k :: 1 <= k < |s| ==> s[k] == s[1..][k - 1];
      j + 1
  }

  /** The position just past the run of \s characters that starts at i. */
  function RunEnd(s: string, i: nat): (j: nat)
    requires i <= |s|
    ensures i <= j <= |s|
    ensures forall k :: i <= k < j ==> IsPerlSpace(s[k])
    ensures j < |s| ==> !IsPerlSpace(s[j])
    decreases |s| - i
  {
    if i < |s| && IsPerlSpace(s[i]) then RunEnd(s, i + 1) else i
  }

  /** regexp.MustCompile(`\s+`).Split(s, -1): the pieces between maximal runs of \s.
      The empty string gives one empty piece. */
  function SplitSpaces(s: string): (parts: seq<string>)
    ensures |parts| >= 1
    decreases |s|
  {
    var i := FirstSpace(s);
    if i == |s| then [s]
    else [s[..i]] + SplitSpaces(s[RunEnd(s, i)..])
  }

  /** The characters of s that are not \s, in order. */
  function WithoutSpaces(s: string): (r: string)
  {
    if s == [] then []
    else (if IsPerlSpace(s[0]) then [] else [s[0]]) + WithoutSpaces(s[1..])
  }

  lemma {:induction false} WithoutSpacesAppend(a: string, b: string)
    ensures WithoutSpaces(a + b) == WithoutSpaces(a) + WithoutSpaces(b)
  {
    if a == [] {
      assert a + b == b;
    } else {
      assert (a + b)[0] == a[0] && (a + b)[1..] == a[1..] + b;
      WithoutSpacesAppend(a[1..], b);
    }
  }

  lemma {:induction false} WithoutSpacesOfSpaces(s: string)
    requires forall c <- s :: IsPerlSpace(c)
    ensures WithoutSpaces(s) == []
  {
    if s != [] {
      WithoutSpacesOfSpaces(s[1..]);
    }
  }

  lemma {:induction false} WithoutSpacesOfWord(s: string)
    requires forall c <- s :: !IsPerlSpace(c)
    ensures WithoutSpaces(s) == s
  {
    if s != [] {
      WithoutSpacesOfWord(s[1..]);
    }
  }

  /** The concatenation of a list of strings. */
  function Concat(parts: seq<string>): string {
    if parts == [] then "" else parts[0] + Concat(parts[1..])
  }

  /** Splitting loses exactly the white space: no piece holds a \s character, and the
      pieces put back together are the text with its white space taken out. */
  lemma SplitSpacesLosesOnlySpaces(s: string)
    ensures forall p <- SplitSpaces(s) :: forall c <- p :: !IsPerlSpace(c)
    ensures Concat(SplitSpaces(s)) == WithoutSpaces(s)
  {
    SplitPiecesHaveNoSpaces(s);
    SplitConcat(s);
  }

  lemma {:induction false} SplitPiecesHaveNoSpaces(s: string)
    ensures forall p <- SplitSpaces(s) :: forall c <- p :: !IsPerlSpace(c)
    decreases |s|
  {
    var i := FirstSpace(s);
    if i == |s| {
      assert SplitSpaces(s) == [s];
    } else {
      var rest := s[RunEnd(s, i)..];
      SplitPiecesHaveNoSpaces(rest);
      assert SplitSpaces(s) == [s[..i]] + SplitSpaces(rest);
    }
  }

  lemma {:induction false} SplitConcat(s: string)
    ensures Concat(SplitSpaces(s)) == WithoutSpaces(s)
    decreases |s|
  {
    var i := FirstSpace(s);
    if i == |s| {
      assert s[..i] == s;
      WithoutSpacesOfWord(s);
    } else {
      var j := RunEnd(s, i);
      SplitConcat(s[j..]);
      var parts := SplitSpaces(s);
      assert parts[0] == s[..i] && parts[1..] == SplitSpaces(s[j..]);
      WithoutSpacesOfSlice(s, 0, i, false);
      WithoutSpacesOfSlice(s, i, j, true);
      WithoutSpacesAroundRun(s, i, j);
    }
  }

  /** A word, then a run of white space, then the rest: only the run is lost. */
  lemma {:induction false} WithoutSpacesAroundRun(s: string, i: nat, j: nat)
    requires i <= j <= |s|
    requires WithoutSpaces(s[..i]) == s[..i] && WithoutSpaces(s[i..j]) == []
    ensures WithoutSpaces(s) == s[..i] + WithoutSpaces(s[j..])
  {
    var word, run, rest := s[..i], s[i..j], s[j..];
    calc {
      WithoutSpaces(s);
      { assert s == s[..j] + rest; }
      WithoutSpaces(s[..j] + rest);
      { WithoutSpacesAppend(s[..j], rest); }
      WithoutSpaces(s[..j]) + WithoutSpaces(rest);
      { assert s[..j] == word + run; WithoutSpacesAppend(word, run); }
      WithoutSpaces(word) + WithoutSpaces(run) + WithoutSpaces(rest);
      word + WithoutSpaces(rest);
    }
  }

  /** A slice that is all white space loses everything; one with none loses nothing. */
  lemma WithoutSpacesOfSlice(s: string, i: nat, j: nat, spaces: bool)
    requires i <= j <= |s|
    requires forall k :: i <= k < j ==> IsPerlSpace(s[k]) == spaces
    ensures WithoutSpaces(s[i..j]) == if spaces then [] else s[i..j]
  {
    var t := s[i..j];
    forall c | c in t ensures IsPerlSpace(c) == spaces {
      var k :| 0 <= k < |t| && t[k] == c;
      assert s[i + k] == c;
    }
    if spaces {
      WithoutSpacesOfSpaces(t);
    } else {
      WithoutSpacesOfWord(t);
    }
  }

  /** A text with no white space at either end splits into non-empty pieces only. */
  lemma {:induction false} SplitSpacesOfTrimmed(s: string)
    requires s != [] && !IsPerlSpace(s[0]) && !IsPerlSpace(s[|s| - 1])
    ensures forall p <- SplitSpaces(s) :: p != []
    decreases |s|
  {
    var i := FirstSpace(s);
    if i < |s| {
      var j := RunEnd(s, i);
      assert j < |s|;
      SplitSpacesOfTrimmed(s[j..]);
      assert SplitSpaces(s) == [s[..i]] + SplitSpaces(s[j..]);
    }
  }

  /** The argument list Run builds: the white-space split of the trimmed text, with one
      leading "m/" taken off the first piece. */
  function Tokens(text: string): (args: seq<string>)
    ensures |args| >= 1
  {
    var args := SplitSpaces(TrimSpace(text));
    args[0 := TrimPrefix(args[0], CommandPrefix)]
  }

  /** The argument list is never empty, and for a text with anything but white space in
      it, no argument after the first is empty and none holds white space. */
  lemma TokensShape(text: string)
    ensures |Tokens(text)| >= 1
    ensures forall i :: 0 <= i < |Tokens(text)| ==> forall c <- Tokens(text)[i] :: !IsPerlSpace(c)
    ensures TrimSpace(text) != [] ==> forall i :: 1 <= i < |Tokens(text)| ==> Tokens(text)[i] != []
  {
    var t := TrimSpace(text);
    var parts := SplitSpaces(t);
    SplitSpacesLosesOnlySpaces(t);
    assert parts[0] in parts;
    forall i | 0 <= i < |Tokens(text)| ensures forall c <- Tokens(text)[i] :: !IsPerlSpace(c) {
      assert parts[i] in parts;
      if i == 0 {
        var r := TrimPrefix(parts[0], CommandPrefix);
        assert r == parts[0] || r == parts[0][|CommandPrefix|..];
        assert forall c <- r :: c in parts[0];
      }
    }
    if t != [] {
      SplitSpacesOfTrimmed(t);
      forall i | 1 <= i < |Tokens(text)| ensures Tokens(text)[i] != [] {
        assert parts[i] in parts;
      }
    }
  }

  // ---------------------------------------------------------------------------
  // Routing

  /** The index of the first registered command with this name, or -1. */
  function FindCommand(cmds: seq<Info>, name: string): (i: int)
    ensures -1 <= i < |cmds|
    ensures i == -1 <==> forall c <- cmds :: c.name != name
    ensures 0 <= i ==> cmds[i].name == name && forall k :: 0 <= k < i ==> cmds[k].name != name
  {
    if cmds == [] then -1
    else if cmds[0].name == name then 0
    else
      var j := FindCommand(cmds[1..], name);
      assert forall k :: 1 <= k < |cmds| ==> cmds[k] == cmds[1..][k - 1];
      if j == -1 then -1 else j + 1
  }

  /** Where Run sends a line: nowhere, to the unknown-command reply, to the refusal, or
      to the handler of a registered command with the argument list. */
  datatype Route = Ignored | Unknown | Denied | Dispatch(index: nat, args: seq<string>)

  /** The routing part of Run. */
  function RouteOf(env: Env.Settings, req: Request): (r: Route)
    ensures r.Dispatch? ==> r.index < |Registry|
  {
    if HasPrefix(req.where, "#") && !HasPrefix(req.text, CommandPrefix) then Ignored
    else
      var args := Tokens(req.text);
      if |args| == 0 then Unknown
      else
        var i := FindCommand(Registry, ToLower(args[0]));
        if i == -1 then Unknown
        else if CanSenderRun(env, req.address, req.sender, Registry[i]) then Dispatch(i, args)
        else Denied
  }

  /** A channel line is only read when its raw text starts with "m/"; private lines
      need no prefix. */
  lemma ChannelNeedsPrefix(env: Env.Settings, req: Request)
    ensures RouteOf(env, req) == Ignored <==> HasPrefix(req.where, "#") && !HasPrefix(req.text, CommandPrefix)
  {
  }

  /** The handler of the first command named like the lower-cased first argument is
      run, with the whole argument list (the command's name first), exactly when the
      sender may run it; an unregistered name gets the unknown reply. */
  lemma RouteDispatch(env: Env.Settings, req: Request)
    requires RouteOf(env, req) != Ignored
    ensures var args := Tokens(req.text);
      var i := FindCommand(Registry, ToLower(args[0]));
      && (RouteOf(env, req) == Unknown <==> i == -1)
      && (RouteOf(env, req).Dispatch? <==> i >= 0 && CanSenderRun(env, req.address, req.sender, Registry[i]))
      && (RouteOf(env, req).Dispatch? ==> RouteOf(env, req) == Dispatch(i, args))
      && (RouteOf(env, req) == Denied <==> i >= 0 && !CanSenderRun(env, req.address, req.sender, Registry[i]))
    ensures var name := ToLower(Tokens(req.text)[0]);
      && (RouteOf(env, req) == Unknown <==> forall c <- Registry :: c.name != name)
      && (RouteOf(env, req).Dispatch? ==>
            var d := RouteOf(env, req);
            && Registry[d.index].name == name
            && (forall k :: 0 <= k < d.index ==> Registry[k].name != name)
            && CanSenderRun(env, req.address, req.sender, Registry[d.index])
            && d.args == Tokens(req.text))
  {
  }

  /** sendUnknownCommand's text: it points at m/help in a channel and at help in a
      private conversation. */
  function UnknownText(where: string): (t: string)
    ensures t == "unknown command. type " + (if HasPrefix(where, "#") then "m/help" else "help")
  {
    if HasPrefix(where, "#") then "unknown command. type " + CommandPrefix + "help"
    else "unknown command. type help"
  }

  /** A word without \s splits into itself. */
  lemma SplitSpacesOfWord(s: string)
    requires forall c <- s :: !IsPerlSpace(c)
    ensures SplitSpaces(s) == [s]
  {
    assert forall k :: 0 <= k < |s| ==> !IsPerlSpace(s[k]);
  }

  /** "help" and "m/help" both tokenise to the single argument "help". */
  lemma TokensOfHelp(text: string)
    requires text == "help" || text == CommandPrefix + "help"
    ensures Tokens(text) == ["help"]
  {
    assert TrimLeft(text) == text && TrimRight(text) == text;
    assert TrimSpace(text) == text;
    SplitSpacesOfWord(text);
    assert TrimPrefix(text, CommandPrefix) == "help";
  }

  /** The argument list ["help"] runs help, for anybody. */
  lemma HelpArgsRoute(env: Env.Settings, req: Request)
    requires Tokens(req.text) == ["help"]
    requires HasPrefix(req.where, "#") ==> HasPrefix(req.text, CommandPrefix)
    ensures RouteOf(env, req) == Dispatch(0, ["help"])
  {
    FindHelp();
    assert Registry[0].category == "general";
  }

  /** "help", lower-cased, names the first registered command. */
  lemma FindHelp()
    ensures FindCommand(Registry, ToLower("help")) == 0
  {
    assert ToLower("help") == "help";
    assert Registry[0].name == "help";
  }

  /** The unknown reply's advice works: the text it tells the user to type, typed
      where the reply went and by anybody, runs help with no further arguments. */
  lemma UnknownHintRunsHelp(env: Env.Settings, address: string, sender: string, where: string)
    ensures HasPrefix(UnknownText(where), "unknown command. type ")
    ensures RouteOf(env, Request(address, sender, where, UnknownText(where)[22..])) == Dispatch(0, ["help"])
  {
    var hint := UnknownText(where)[22..];
    assert hint == if HasPrefix(where, "#") then CommandPrefix + "help" else "help";
    TokensOfHelp(hint);
    HelpArgsRoute(env, Request(address, sender, where, hint));
  }

  const RefusalText := "sorry you can't run that command :("

  /** The incident reported for a refused command. */
  function RefusalIncident(req: Request): string {
    "\"" + req.sender + "\" tried to run \"" + req.text + "\" on \"" + req.address + "\""
  }

  /** The reply Run's deferred recover sends for a panic value. */
  function PanicText(value: string): string {
    "command panicked: " + value
  }

  /** cmdmenuUsage: the usage printer handed to a menu. It prefixes "m/" in a channel. */
  function UsageReply(where: string, usage: string): (r: string)
  {
    "usage: " + (if HasPrefix(where, "#") then CommandPrefix + usage else usage)
  }

  /** Every usage reply starts with "usage: "; in a channel the usage text follows
      "m/", elsewhere it follows directly. */
  lemma UsageReplyShape(where: string, usage: string)
    ensures HasPrefix(UsageReply(where, usage), "usage: ")
    ensures HasPrefix(where, "#") ==> UsageReply(where, usage)[7..] == "m/" + usage
    ensures !HasPrefix(where, "#") ==> UsageReply(where, usage)[7..] == usage
  {
  }
}
