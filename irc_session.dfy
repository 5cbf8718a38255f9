/** irc/client.go, as values: the state of one server connection and a function for
    every operation of Client, giving the state after it. The class in IrcClient
    performs these operations step by step and is proved to agree with them; the
    properties of the bot's per-server behaviour are lemmas here.

    The TLS socket is the pair connOpen (Conn is not nil) and wire (every frame
    written to it, oldest first). A frame written while Conn is nil is dropped.
    Goroutines started (the client loop, the message handler) and incidents
    reported are recorded in events. */
module IrcSession {
  import opened Common
  import Ircf

  /** ConnState */
  datatype ConnState = Connecting | Connected | Disconnected

  /** Message: a PRIVMSG handed to the command layer (the Client field is the
      connection the message arrived on). */
  datatype Message = Message(sender: string, where: string, text: string)

  datatype Event =
    | LoopStarted                  // go c.loop()
    | Dispatched(msg: Message)     // go GlobalHandleMessage(...)
    | IncidentReported(text: string)

  /** The capture groups of RE_PRIVMSG, RE_KICK and RE_WHOIS_REPLY. */
  datatype PrivmsgParts = PrivmsgParts(sender: string, target: string, text: string)
  datatype KickParts = KickParts(sender: string, channel: string, reason: string)
  datatype WhoisParts = WhoisParts(nick: string, user: string, host: string)

  /** One line read from the server: its text and what each of the three regular
      expressions captures from it (None when it does not match). */
  datatype Inbound = Inbound(
    raw: string,
    privmsg: Option<PrivmsgParts>,
    kick: Option<KickParts>,
    whois: Option<WhoisParts>)

  /** The outcome of one reader.ReadString: a line, an error to skip, or the end of
      the connection (io.EOF or net.ErrClosed). */
  datatype ReadResult = Line(line: Inbound) | ReadFailed | Closed

  /** One Client. nick is env.NICK. */
  datatype Session = Session(
    nick: string,
    address: string,
    active: bool,
    connOpen: bool,
    state: ConnState,
    user: string,
    host: string,
    panicOnNextPing: bool,
    current: seq<string>,
    target: seq<string>,
    wire: seq<string>,
    events: seq<Event>)

  // ---------------------------------------------------------------------------
  // Construction and labels

  /** newClient: the zero Client with an address; ConnState's zero is Connecting. */
  function NewSession(nick: string, address: string): (s: Session)
    ensures !s.active && !s.connOpen && s.state == Connecting
    ensures s.user == "" && s.host == "" && !s.panicOnNextPing
    ensures s.current == [] && s.target == [] && s.wire == [] && s.events == []
    ensures s.nick == nick && s.address == address
  {
    Session(nick, address, false, false, Connecting, "", "", false, [], [], [], [])
  }

  /** FormattedState: the state's name, bold white on red, yellow or black. */
  function FormattedState(state: ConnState): (text: string)
  {
    match state
    case Connecting => Ircf.Bold().Color(98, [41]).Format("connecting")
    case Connected => Ircf.Bold().Color(98, [43]).Format("connected")
    case Disconnected => Ircf.Bold().Color(98, [40]).Format("disconnected")
  }

  /** Each label is the state's name in bold, colour 98, on its own background, so
      the three labels differ. */
  lemma FormattedStateParts(state: ConnState)
    ensures FormattedState(state) == Ircf.Fmt(true, 98, StateBackground(state)).Format(StateName(state))
    ensures forall other: ConnState :: other != state ==> FormattedState(other) != FormattedState(state)
  {
    forall other: ConnState | other != state
      ensures FormattedState(other) != FormattedState(state)
    {
      LabelText(state);
      LabelText(other);
    }
  }

  lemma LabelText(state: ConnState)
    ensures FormattedState(state) == Ircf.Fmt(true, 98, StateBackground(state)).Format(StateName(state))
    ensures |FormattedState(state)| == 8 + |StateName(state)|
    ensures FormattedState(state)[7..|FormattedState(state)| - 1] == StateName(state)
  {
    var f := Ircf.Fmt(true, 98, StateBackground(state));
    Ircf.PrefixLength(f);
    DecimalTwoDigits(98);
    DecimalTwoDigits(StateBackground(state));
  }

  function StateName(state: ConnState): string {
    match state
    case Connecting => "connecting"
    case Connected => "connected"
    case Disconnected => "disconnected"
  }

  function StateBackground(state: ConnState): uint8 {
    match state
    case Connecting => 41
    case Connected => 43
    case Disconnected => 40
  }

  // ---------------------------------------------------------------------------
  // Writing to the socket

  /** The wire after writing frames: appended while Conn is open, dropped otherwise. */
  function Emit(s: Session, frames: seq<string>): (wire: seq<string>)
  {
    if s.connOpen then s.wire + frames else s.wire
  }

  /** MakePrivmsg: ":NICK!user@host PRIVMSG to :msg\r\n", whatever its length. */
  function Privmsg(nick: string, user: string, host: string, to: string, msg: string): (out: string)
  {
    ":" + nick + "!" + user + "@" + host + " PRIVMSG " + to + " :" + msg + "\r\n"
  }

  /** The framed message is 16 bytes longer than its five parts together; nothing is
      cut, even past the 512-byte line limit of section 2.3 of RFC 2812. */
  lemma PrivmsgLength(nick: string, user: string, host: string, to: string, msg: string)
    ensures ByteLen(Privmsg(nick, user, host, to, msg))
      == 16 + ByteLen(nick) + ByteLen(user) + ByteLen(host) + ByteLen(to) + ByteLen(msg)
  {
    var a1 := ":" + nick;
    ByteLenAppend(":", nick);
    var a2 := a1 + "!";
    ByteLenAppend(a1, "!");
    var a3 := a2 + user;
    ByteLenAppend(a2, user);
    var a4 := a3 + "@";
    ByteLenAppend(a3, "@");
    var a5 := a4 + host;
    ByteLenAppend(a4, host);
    var a6 := a5 + " PRIVMSG ";
    ByteLenAppend(a5, " PRIVMSG ");
    var a7 := a6 + to;
    ByteLenAppend(a6, to);
    var a8 := a7 + " :";
    ByteLenAppend(a7, " :");
    var a9 := a8 + msg;
    ByteLenAppend(a8, msg);
    ByteLenAppend(a9, "\r\n");
    PunctuationLengths();
    assert Privmsg(nick, user, host, to, msg) == a9 + "\r\n";
  }

  lemma PunctuationLengths()
    ensures ByteLen(":") == 1 && ByteLen("!") == 1 && ByteLen("@") == 1
    ensures ByteLen(" PRIVMSG ") == 9 && ByteLen(" :") == 2 && ByteLen("\r\n") == 2
  {
    ByteLenAscii(":");
    ByteLenAscii("!");
    ByteLenAscii("@");
    ByteLenAscii(" PRIVMSG ");
    ByteLenAscii(" :");
    ByteLenAscii("\r\n");
  }

  /** The text of a framed message is what follows the first " :" after the target,
      up to the final CR LF: a message without line breaks comes back intact. */
  lemma PrivmsgCarriesText(nick: string, user: string, host: string, to: string, msg: string)
    ensures var out := Privmsg(nick, user, host, to, msg);
      |out| == |msg| + |nick| + |user| + |host| + |to| + 16
      && out[|out| - 2 - |msg|..|out| - 2] == msg
      && out[|out| - 2..] == "\r\n"
      && HasPrefix(out, ":" + nick + "!")
  {
    var out := Privmsg(nick, user, host, to, msg);
    var head := ":" + nick + "!" + user + "@" + host + " PRIVMSG " + to + " :";
    assert out == head + msg + "\r\n";
    assert out[|out| - 2 - |msg|..|out| - 2] == msg;
    assert (":" + nick + "!") + (user + "@" + host + " PRIVMSG " + to + " :" + msg + "\r\n") == out;
  }

  /** "<cmd><name>\r\n" for every name, in order. */
  function Frames(cmd: string, names: seq<string>): (frames: seq<string>)
    ensures |frames| == |names|
  {
    if names == [] then []
    else Frames(cmd, names[..|names| - 1]) + [cmd + names[|names| - 1] + "\r\n"]
  }

  lemma FramesSnoc(cmd: string, names: seq<string>, x: string)
    ensures Frames(cmd, names + [x]) == Frames(cmd, names) + [cmd + x + "\r\n"]
  {
    assert (names + [x])[..|names|] == names;
  }

  lemma EmitSnoc(s: Session, frames: seq<string>, f: string)
    ensures Emit(s, frames + [f]) == if s.connOpen then Emit(s, frames) + [f] else Emit(s, frames)
  {
  }

  lemma {:induction false} FramesAt(cmd: string, names: seq<string>, i: nat)
    requires i < |names|
    ensures Frames(cmd, names)[i] == cmd + names[i] + "\r\n"
  {
    if i < |names| - 1 {
      FramesAt(cmd, names[..|names| - 1], i);
    }
  }

  // ---------------------------------------------------------------------------
  // SyncChannels

  /** The channels the first loop of SyncChannels joins and appends, target by target:
      a target is skipped when it is already current (including one joined earlier in
      the same pass) or does not start with '#'. */
  function Joined(cur: seq<string>, target: seq<string>): (added: seq<string>)
  {
    if target == [] then []
    else
      var prev := Joined(cur, target[..|target| - 1]);
      var x := target[|target| - 1];
      if x in cur + prev || !HasPrefix(x, "#") then prev else prev + [x]
  }

  /** The entries of xs that are in target, in order (the compaction loop). */
  function Kept(xs: seq<string>, target: seq<string>): (r: seq<string>)
    ensures |r| <= |xs|
  {
    if xs == [] then []
    else
      var x := xs[|xs| - 1];
      Kept(xs[..|xs| - 1], target) + (if x in target then [x] else [])
  }

  /** The entries of xs that are not in target, in order (the channels parted). */
  function Dropped(xs: seq<string>, target: seq<string>): (r: seq<string>)
  {
    if xs == [] then []
    else
      var x := xs[|xs| - 1];
      Dropped(xs[..|xs| - 1], target) + (if x in target then [] else [x])
  }

  /** SyncChannels: nothing unless active and connected; otherwise join the missing
      '#' targets, then part every current channel not in the target list. */
  function SyncSpec(s: Session): (r: Session)
  {
    if !s.active || s.state != Connected then s
    else
      var c1 := s.current + Joined(s.current, s.target);
      s.(current := Kept(c1, s.target),
         wire := Emit(s, Frames("JOIN ", Joined(s.current, s.target)) + Frames("PART ", Dropped(c1, s.target))))
  }

  /** SyncChannels as its two loops run it: the join pass, then the part pass on the
      list the join pass left. */
  lemma SyncInTwoPasses(s: Session, s1: Session, s2: Session)
    requires s.active && s.state == Connected
    requires s1 == s.(current := s.current + Joined(s.current, s.target),
                      wire := Emit(s, Frames("JOIN ", Joined(s.current, s.target))))
    requires s2 == s1.(current := Kept(s1.current, s.target),
                       wire := Emit(s1, Frames("PART ", Dropped(s1.current, s.target))))
    ensures s2 == SyncSpec(s)
  {
  }

  /** One more entry of xs, as the compaction loop takes it. */
  lemma FilterSnoc(xs: seq<string>, j: nat, target: seq<string>)
    requires j < |xs|
    ensures Kept(xs[..j + 1], target) == Kept(xs[..j], target) + (if xs[j] in target then [xs[j]] else [])
    ensures Dropped(xs[..j + 1], target) == Dropped(xs[..j], target) + (if xs[j] in target then [] else [xs[j]])
  {
    assert xs[..j + 1][..j] == xs[..j];
  }

  lemma {:induction false} KeptAppend(a: seq<string>, b: seq<string>, target: seq<string>)
    ensures Kept(a + b, target) == Kept(a, target) + Kept(b, target)
    decreases |b|
  {
    if b == [] {
      assert a + b == a;
    } else {
      assert (a + b)[..|a + b| - 1] == a + b[..|b| - 1];
      KeptAppend(a, b[..|b| - 1], target);
    }
  }

  lemma {:induction false} DroppedAppend(a: seq<string>, b: seq<string>, target: seq<string>)
    ensures Dropped(a + b, target) == Dropped(a, target) + Dropped(b, target)
    decreases |b|
  {
    if b == [] {
      assert a + b == a;
    } else {
      assert (a + b)[..|a + b| - 1] == a + b[..|b| - 1];
      DroppedAppend(a, b[..|b| - 1], target);
    }
  }

  lemma {:induction false} KeptMember(xs: seq<string>, target: seq<string>, x: string)
    ensures x in Kept(xs, target) <==> x in xs && x in target
  {
    if xs != [] {
      KeptMember(xs[..|xs| - 1], target, x);
      assert xs == xs[..|xs| - 1] + [xs[|xs| - 1]];
    }
  }

  lemma {:induction false} KeptAll(xs: seq<string>, target: seq<string>)
    requires forall x <- xs :: x in target
    ensures Kept(xs, target) == xs
    ensures Dropped(xs, target) == []
  {
    if xs != [] {
      KeptAll(xs[..|xs| - 1], target);
      assert xs == xs[..|xs| - 1] + [xs[|xs| - 1]];
    }
  }

  lemma {:induction false} JoinedMember(cur: seq<string>, target: seq<string>, x: string)
    ensures x in Joined(cur, target) <==> x in target && HasPrefix(x, "#") && x !in cur
  {
    if target != [] {
      var t' := target[..|target| - 1];
      JoinedMember(cur, t', x);
      assert target == t' + [target[|target| - 1]];
    }
  }

  lemma {:induction false} JoinedNone(cur: seq<string>, target: seq<string>)
    requires forall x <- target :: x in cur || !HasPrefix(x, "#")
    ensures Joined(cur, target) == []
  {
    if target != [] {
      var t' := target[..|target| - 1];
      assert forall x <- t' :: x in target;
      JoinedNone(cur, t');
      assert target[|target| - 1] in target;
    }
  }

  /** After SyncChannels, the current list is the old current channels that are still
      targeted, in their old order, followed by the '#' targets that were not current,
      in target order; a JOIN goes out for each of the latter and a PART for each old
      channel no longer targeted. */
  lemma SyncResult(s: Session)
    requires s.active && s.state == Connected
    ensures SyncSpec(s).current == Kept(s.current, s.target) + Joined(s.current, s.target)
    ensures SyncSpec(s).wire == Emit(s, Frames("JOIN ", Joined(s.current, s.target)) + Frames("PART ", Dropped(s.current, s.target)))
  {
    var j := Joined(s.current, s.target);
    forall x <- j ensures x in s.target {
      JoinedMember(s.current, s.target, x);
    }
    KeptAppend(s.current, j, s.target);
    DroppedAppend(s.current, j, s.target);
    KeptAll(j, s.target);
    assert Dropped(s.current, s.target) + [] == Dropped(s.current, s.target);
  }

  /** A channel is current after SyncChannels exactly when it is targeted and was
      either current already or starts with '#': names without '#' are never joined. */
  lemma SyncMembership(s: Session, x: string)
    requires s.active && s.state == Connected
    ensures x in SyncSpec(s).current <==> x in s.target && (x in s.current || HasPrefix(x, "#"))
  {
    SyncResult(s);
    KeptMember(s.current, s.target, x);
    JoinedMember(s.current, s.target, x);
  }

  /** SyncChannels changes nothing but the current list and the wire, and nothing at
      all unless the client is active and connected. */
  lemma SyncFrame(s: Session)
    ensures SyncSpec(s).(current := s.current, wire := s.wire) == s
    ensures !s.active || s.state != Connected ==> SyncSpec(s) == s
  {
  }

  /** A second SyncChannels with the same target list writes nothing and changes
      nothing. */
  lemma SyncIdempotent(s: Session)
    ensures SyncSpec(SyncSpec(s)) == SyncSpec(s)
  {
    if s.active && s.state == Connected {
      var s1 := SyncSpec(s);
      SyncResult(s);
      forall x <- s.target
        ensures x in s1.current || !HasPrefix(x, "#")
      {
        SyncMembership(s, x);
      }
      JoinedNone(s1.current, s.target);
      assert s1.current + [] == s1.current;
      forall x <- s1.current
        ensures x in s.target
      {
        SyncMembership(s, x);
      }
      KeptAll(s1.current, s.target);
      assert Emit(s1, [] + []) == s1.wire;
    }
  }

  // ---------------------------------------------------------------------------
  // Send and writeBatch

  /** The frames of writeBatch: the batch opening, one tagged PRIVMSG per line, and
      the batch closing, all with the same three-digit id. */
  function BatchFrames(s: Session, to: string, lines: seq<string>, id: string): (frames: seq<string>)
    ensures |frames| == |lines| + 2
  {
    ["BATCH +" + id + " draft/multiline " + to + "\r\n"]
    + BatchBodies(s, to, lines, id)
    + ["BATCH -" + id + "\r\n"]
  }

  function BatchBodies(s: Session, to: string, lines: seq<string>, id: string): (bodies: seq<string>)
    ensures |bodies| == |lines|
    ensures forall i :: 0 <= i < |lines| ==>
      bodies[i] == "@batch=" + id + " " + Privmsg(s.nick, s.user, s.host, to, lines[i])
  {
    if lines == [] then []
    else
      BatchBodies(s, to, lines[..|lines| - 1], id)
      + ["@batch=" + id + " " + Privmsg(s.nick, s.user, s.host, to, lines[|lines| - 1])]
  }

  /** One more line of a batch, as writeBatch's loop writes it. */
  lemma BatchStep(s: Session, to: string, lines: seq<string>, i: nat, id: string, opening: string)
    requires i < |lines|
    ensures Emit(s, [opening] + BatchBodies(s, to, lines[..i + 1], id))
      == Emit(s, [opening] + BatchBodies(s, to, lines[..i], id)
           + ["@batch=" + id + " " + Privmsg(s.nick, s.user, s.host, to, lines[i])])
  {
    assert lines[..i + 1][..i] == lines[..i];
  }

  /** The frames Send writes. batchId is the value of rand.Intn(1000). */
  function SendFrames(s: Session, to: string, msg: string, batchId: nat): seq<string>
  {
    var lines := Split(msg, '\n');
    if |lines| == 1 then [Privmsg(s.nick, s.user, s.host, to, msg)]
    else BatchFrames(s, to, lines, ZeroPad(batchId, 3))
  }

  /** Send: writes the frames; nothing else changes. */
  function SendSpec(s: Session, to: string, msg: string, batchId: nat): (r: Session)
  {
    s.(wire := Emit(s, SendFrames(s, to, msg, batchId)))
  }

  /** A message without a line break is one PRIVMSG frame. */
  lemma SendSingleLine(s: Session, to: string, msg: string, batchId: nat)
    requires '\n' !in msg
    ensures SendFrames(s, to, msg, batchId) == [Privmsg(s.nick, s.user, s.host, to, msg)]
  {
    SplitCount(msg, '\n');
    CountAbsent(msg, '\n');
  }

  /** A message with k line breaks is k + 3 frames: BATCH +id, one tagged PRIVMSG per
      line, BATCH -id, with one zero-padded three-digit id; the lines joined with
      line breaks give back the message. */
  lemma SendBatch(s: Session, to: string, msg: string, batchId: nat)
    requires '\n' in msg && batchId < 1000
    ensures var frames := SendFrames(s, to, msg, batchId);
      var lines := Split(msg, '\n');
      var id := ZeroPad(batchId, 3);
      |id| == 3 && DigitsValue(id) == batchId
      && |frames| == Count(msg, '\n') + 3
      && frames[0] == "BATCH +" + id + " draft/multiline " + to + "\r\n"
      && frames[|frames| - 1] == "BATCH -" + id + "\r\n"
      && (forall i :: 1 <= i <= |lines| ==>
            frames[i] == "@batch=" + id + " " + Privmsg(s.nick, s.user, s.host, to, lines[i - 1]))
      && Join(lines, "\n") == msg
  {
    SplitCount(msg, '\n');
    SplitJoin(msg, '\n');
    CountPositive(msg, '\n');
    ZeroPadRoundTrip(batchId, 3);
    Decimal3(batchId);
    var lines := Split(msg, '\n');
    var id := ZeroPad(batchId, 3);
    assert SendFrames(s, to, msg, batchId) == BatchFrames(s, to, lines, id);
    BatchFramesLayout(s, to, lines, id);
  }

  /** Where each frame of a batch sits. */
  lemma BatchFramesLayout(s: Session, to: string, lines: seq<string>, id: string)
    ensures var frames := BatchFrames(s, to, lines, id);
      && frames[0] == "BATCH +" + id + " draft/multiline " + to + "\r\n"
      && frames[|frames| - 1] == "BATCH -" + id + "\r\n"
      && (forall i :: 1 <= i <= |lines| ==>
            frames[i] == "@batch=" + id + " " + Privmsg(s.nick, s.user, s.host, to, lines[i - 1]))
  {
    var frames := BatchFrames(s, to, lines, id);
    var bodies := BatchBodies(s, to, lines, id);
    forall i | 1 <= i <= |lines|
      ensures frames[i] == "@batch=" + id + " " + Privmsg(s.nick, s.user, s.host, to, lines[i - 1])
    {
      assert frames[i] == bodies[i - 1];
    }
  }

  lemma {:induction false} CountPositive(s: string, c: char)
    requires c in s
    ensures Count(s, c) > 0
  {
    if s[0] != c {
      assert c in s[1..] by {
        var i :| 0 <= i < |s| && s[i] == c;
        assert s[1..][i - 1] == c;
      }
      CountPositive(s[1..], c);
    }
  }

  lemma Decimal3(n: nat)
    requires n < 1000
    ensures |Decimal(n)| <= 3
  {
    if n >= 10 {
      assert Decimal(n) == Decimal(n / 10) + [DigitChar(n % 10)];
      if n >= 100 {
        assert Decimal(n / 10) == Decimal(n / 100) + [DigitChar((n / 10) % 10)];
      }
    }
  }

  // ---------------------------------------------------------------------------
  // handleKick and handleMessage

  /** The incident handleKick reports: each part in bold white. */
  function KickIncident(address: string, k: KickParts): string {
    "kicked from " + Ircf.BoldWhite.Format(k.channel)
    + " by " + Ircf.BoldWhite.Format(k.sender)
    + " on " + Ircf.BoldWhite.Format(address)
    + " for " + Ircf.BoldWhite.Format(k.reason)
  }

  /** handleKick: report an incident, then remove the first occurrence of the channel
      from the current list. */
  function KickSpec(s: Session, k: KickParts): (r: Session)
  {
    s.(current := RemoveFirst(s.current, k.channel),
       events := s.events + [IncidentReported(KickIncident(s.address, k))])
  }

  /** The incident is reported whether or not the channel was current; only the first
      occurrence of the channel leaves the list, the rest keep their order; and a
      channel that was not current leaves the list as it was. */
  lemma KickRemovesFirst(s: Session, k: KickParts)
    ensures KickSpec(s, k).events == s.events + [IncidentReported(KickIncident(s.address, k))]
    ensures k.channel !in s.current ==> KickSpec(s, k) == s.(events := KickSpec(s, k).events)
    ensures k.channel in s.current ==>
      var i := IndexOf(s.current, k.channel);
      KickSpec(s, k).current == s.current[..i] + s.current[i + 1..]
      && multiset(KickSpec(s, k).current) == multiset(s.current) - multiset{k.channel}
  {
    if k.channel in s.current {
      RemoveFirstSplits(s.current, k.channel, IndexOf(s.current, k.channel));
    }
  }

  /** The 001 RPL_WELCOME test. */
  predicate IsWelcome(nick: string, line: Inbound) {
    ContainsSubstring(line.raw, " 001 " + nick + " ")
  }

  /** The 311 RPL_WHOISUSER test, before the regular expression. */
  predicate MentionsWhois(nick: string, line: Inbound) {
    ContainsSubstring(line.raw, " 311 " + nick + " " + nick)
  }

  /** handleMessage */
  function HandleMessageSpec(s: Session, line: Inbound): (r: Session)
  {
    if line.privmsg.Some? then
      var p := line.privmsg.value;
      var where := if HasPrefix(p.target, "#") then p.target else p.sender;
      s.(events := s.events + [Dispatched(Message(p.sender, where, p.text))])
    else if s.state == Connecting && IsWelcome(s.nick, line) then
      SyncSpec(s.(state := Connected))
    else if line.kick.Some? then
      KickSpec(s, line.kick.value)
    else if s.user == "" && s.host == "" && MentionsWhois(s.nick, line) then
      if line.whois.None? || line.whois.value.nick != s.nick then s
      else s.(user := line.whois.value.user, host := line.whois.value.host)
    else s
  }

  /** A PRIVMSG is tried first and only dispatched: whatever else the line contains,
      the state is untouched; a message not sent to a '#' channel is answered where it
      came from, the sender. */
  lemma PrivmsgFirst(s: Session, line: Inbound)
    requires line.privmsg.Some?
    ensures var p := line.privmsg.value;
      HandleMessageSpec(s, line) == s.(events := s.events + [Dispatched(Message(p.sender,
        if HasPrefix(p.target, "#") then p.target else p.sender, p.text))])
    ensures !HasPrefix(line.privmsg.value.target, "#") ==>
      HandleMessageSpec(s, line).events[|s.events|].msg.where == line.privmsg.value.sender
  {
  }

  /** The welcome changes the state only while connecting: it sets Connected and
      synchronises the channels. */
  lemma WelcomeOnlyWhileConnecting(s: Session, line: Inbound)
    requires line.privmsg.None? && IsWelcome(s.nick, line)
    ensures s.state == Connecting ==> HandleMessageSpec(s, line) == SyncSpec(s.(state := Connected))
    ensures s.state != Connecting ==> HandleMessageSpec(s, line).state == s.state
  {
  }

  /** Only handleMessage's welcome branch changes the connection state. */
  lemma HandleMessageState(s: Session, line: Inbound)
    ensures HandleMessageSpec(s, line).state == s.state
      || (s.state == Connecting && HandleMessageSpec(s, line).state == Connected)
    ensures HandleMessageSpec(s, line).(state := s.state, user := s.user, host := s.host,
      current := s.current, wire := s.wire, events := s.events) == s
  {
  }

  /** The mask is learnt at most once: once user or host is set, no line changes them. */
  lemma MaskSetOnce(s: Session, line: Inbound)
    requires s.user != "" || s.host != ""
    ensures HandleMessageSpec(s, line).user == s.user
    ensures HandleMessageSpec(s, line).host == s.host
  {
  }

  /** The mask is taken from a 311 reply about the bot's own nick only. */
  lemma MaskFromOwnWhois(s: Session, line: Inbound)
    requires HandleMessageSpec(s, line).user != s.user || HandleMessageSpec(s, line).host != s.host
    ensures line.privmsg.None? && line.kick.None? && line.whois.Some?
    ensures line.whois.value.nick == s.nick && MentionsWhois(s.nick, line)
    ensures HandleMessageSpec(s, line).user == line.whois.value.user
    ensures HandleMessageSpec(s, line).host == line.whois.value.host
  {
  }

  // ---------------------------------------------------------------------------
  // connect, the read loop and the lifecycle

  /** The read loop: lines are handled in order, failed reads are skipped, and the end
      of the connection sets Disconnected and drops Conn. */
  function ReadLoop(s: Session, input: seq<ReadResult>): (r: Session)
    decreases |input|
  {
    if input == [] then s
    else match input[0]
      case Line(l) => ReadLoop(HandleMessageSpec(s, l), input[1..])
      case ReadFailed => ReadLoop(s, input[1..])
      case Closed => s.(state := Disconnected, connOpen := false)
  }

  /** The five handshake frames: NICK, USER, bot modes +b and +B, and a WHOIS of the
      bot itself to learn the mask. */
  function Handshake(nick: string): (frames: seq<string>)
    ensures |frames| == 5
  {
    ["NICK " + nick + "\r\n",
     "USER " + nick + " 0 * :" + nick + "\r\n",
     "MODE " + nick + " +b\r\n",
     "MODE " + nick + " +B\r\n",
     "WHOIS " + nick + "\r\n"]
  }

  /** connect: close the old Conn, set Connecting, dial (dialed tells whether it
      succeeded); on success send the handshake and run the read loop. */
  function ConnectSpec(s: Session, dialed: bool, input: seq<ReadResult>): (r: Session)
  {
    var s1 := s.(connOpen := false, state := Connecting);
    if !dialed then s1
    else ReadLoop(s1.(connOpen := true, wire := s.wire + Handshake(s.nick)), input)
  }

  /** A failed dial leaves the client connecting with no Conn, changing nothing else. */
  lemma ConnectDialFailed(s: Session, input: seq<ReadResult>)
    ensures ConnectSpec(s, false, input) == s.(connOpen := false, state := Connecting)
  {
  }

  /** A successful dial sends exactly the handshake before reading. */
  lemma ConnectHandshake(s: Session)
    ensures ConnectSpec(s, true, []).wire == s.wire + Handshake(s.nick)
    ensures ConnectSpec(s, true, []).state == Connecting && ConnectSpec(s, true, []).connOpen
  {
  }

  /** Only the end of the connection leaves the loop: a run of lines and failed input
      ending in Closed ends Disconnected with no Conn. */
  lemma {:induction false} ReadLoopEndsDisconnected(s: Session, input: seq<ReadResult>)
    requires |input| > 0 && input[|input| - 1] == Closed
    ensures !ReadLoop(s, input).connOpen && ReadLoop(s, input).state == Disconnected
    decreases |input|
  {
    if input[0] != Closed {
      var s' := if input[0].Line? then HandleMessageSpec(s, input[0].line) else s;
      ReadLoopEndsDisconnected(s', input[1..]);
    }
  }

  /** connect never clears the current channels, the mask or the target list. */
  lemma {:induction false} ReadLoopKeepsChannelsWithoutLines(s: Session, input: seq<ReadResult>)
    requires forall r <- input :: !r.Line?
    ensures ReadLoop(s, input).current == s.current
    ensures ReadLoop(s, input).user == s.user && ReadLoop(s, input).host == s.host
    decreases |input|
  {
    if input != [] && input[0] != Closed {
      assert forall r <- input[1..] :: r in input;
      ReadLoopKeepsChannelsWithoutLines(s, input[1..]);
    }
  }

  /** After a reconnect, the channels joined on the previous connection are still in
      the current list, so the welcome of the new connection does not join them
      again: SyncChannels writes no JOIN for them. */
  lemma ReconnectSkipsOldChannels(s: Session, welcome: Inbound, x: string)
    requires s.active && welcome.privmsg.None? && IsWelcome(s.nick, welcome)
    requires x in s.current
    ensures var r := ConnectSpec(s, true, [Line(welcome)]);
      r.current == Kept(s.current, s.target) + Joined(s.current, s.target)
      && x !in Joined(s.current, s.target)
      && r.wire == s.wire + Handshake(s.nick)
        + Frames("JOIN ", Joined(s.current, s.target)) + Frames("PART ", Dropped(s.current, s.target))
  {
    var s2 := WelcomeOnConnect(s, welcome);
    SyncResult(s2);
    JoinedMember(s.current, s.target, x);
  }

  /** A dial answered by the welcome alone: the handshake is written and the channels
      are synchronised on the connected session. */
  lemma WelcomeOnConnect(s: Session, welcome: Inbound) returns (s2: Session)
    requires welcome.privmsg.None? && IsWelcome(s.nick, welcome)
    ensures s2 == s.(connOpen := true, state := Connected, wire := s.wire + Handshake(s.nick))
    ensures ConnectSpec(s, true, [Line(welcome)]) == SyncSpec(s2)
  {
    var s1 := s.(connOpen := true, state := Connecting, wire := s.wire + Handshake(s.nick));
    s2 := s1.(state := Connected);
    assert [Line(welcome)][1..] == [];
    assert ReadLoop(s1, [Line(welcome)]) == HandleMessageSpec(s1, welcome);
  }

  /** init: refuse an active client; otherwise set active and start the loop. */
  function InitSpec(s: Session): (r: (Session, bool))
  {
    if s.active then (s, false)
    else (s.(active := true, events := s.events + [LoopStarted]), true)
  }

  /** delete: clear active and drop Conn. */
  function DeleteSpec(s: Session): (r: Session)
  {
    s.(active := false, connOpen := false)
  }

  /** reconnect: start an inactive client; for an active one only drop Conn, which ends
      the read loop. */
  function ReconnectSpec(s: Session): (r: Session)
  {
    if !s.active then InitSpec(s).0 else s.(connOpen := false)
  }

  /** recoverAndRestart: after a panic, clear PanicOnNextPing and reconnect. */
  function RecoverSpec(s: Session, panicked: bool): (r: Session)
  {
    if !panicked then s else ReconnectSpec(s.(panicOnNextPing := false))
  }

  /** ping: nothing unless active and connected; with PanicOnNextPing set it panics
      (and recovers); otherwise it writes PING. */
  function PingSpec(s: Session): (r: Session)
  {
    if !s.active || s.state != Connected then s
    else if s.panicOnNextPing then RecoverSpec(s, true)
    else s.(wire := Emit(s, ["PING hi\r\n"]))
  }

  /** init on an active client returns false and changes nothing; otherwise it sets
      active, starts one loop and returns true. */
  lemma InitOnce(s: Session)
    ensures InitSpec(s).1 <==> !s.active
    ensures s.active ==> InitSpec(s).0 == s
    ensures !s.active ==> InitSpec(s).0.active && InitSpec(s).0.events == s.events + [LoopStarted]
    ensures !InitSpec(InitSpec(s).0).1
  {
  }

  /** delete clears active and drops Conn and nothing else. */
  lemma DeleteStops(s: Session)
    ensures !DeleteSpec(s).active && !DeleteSpec(s).connOpen
    ensures DeleteSpec(s).(active := s.active, connOpen := s.connOpen) == s
    ensures PingSpec(DeleteSpec(s)) == DeleteSpec(s)
    ensures SyncSpec(DeleteSpec(s)) == DeleteSpec(s)
  {
  }

  /** reconnect on an inactive client is init; on an active client it only drops Conn,
      and never starts a second loop. */
  lemma ReconnectCases(s: Session)
    ensures !s.active ==> ReconnectSpec(s) == InitSpec(s).0
    ensures s.active ==> ReconnectSpec(s) == s.(connOpen := false)
    ensures |ReconnectSpec(s).events| <= |s.events| + 1
  {
  }

  /** A ping on a client flagged to panic clears the flag and reconnects instead of
      writing; the next ping then writes normally. */
  lemma PingPanicRestarts(s: Session)
    requires s.active && s.state == Connected && s.panicOnNextPing
    ensures PingSpec(s) == s.(panicOnNextPing := false, connOpen := false)
    ensures !PingSpec(s).panicOnNextPing
  {
  }

  /** A ping on an inactive or unconnected client changes nothing; a normal ping adds
      exactly one PING frame. */
  lemma PingCases(s: Session)
    ensures !s.active || s.state != Connected ==> PingSpec(s) == s
    ensures s.active && s.state == Connected && !s.panicOnNextPing ==>
      PingSpec(s) == s.(wire := Emit(s, ["PING hi\r\n"]))
  {
  }

  /** A new client does nothing until init: with no connection, a send writes nothing,
      and ping and channel sync are no-ops; init then starts exactly one loop, and a
      second init is refused. */
  lemma NewSessionWaitsForInit(nick: string, address: string, to: string, msg: string, batchId: nat)
    ensures var s := NewSession(nick, address);
      && SendSpec(s, to, msg, batchId) == s
      && PingSpec(s) == s
      && SyncSpec(s) == s
      && InitSpec(s) == (s.(active := true, events := [LoopStarted]), true)
      && !InitSpec(InitSpec(s).0).1
  {
    var s := NewSession(nick, address);
    assert s.events + [LoopStarted] == [LoopStarted];
  }

  /** The client loop: while active, connect; each attempt is whether the dial works
      and what the connection then reads. The ten-second pause is not modelled. */
  function LoopSpec(s: Session, attempts: seq<(bool, seq<ReadResult>)>): (r: Session)
    decreases |attempts|
  {
    if !s.active || attempts == [] then s
    else LoopSpec(ConnectSpec(s, attempts[0].0, attempts[0].1), attempts[1..])
  }

  /** Nothing in the read loop changes whether the client is active, so the loop runs
      every attempt of an active client and none of an inactive one. */
  lemma {:induction false} ReadLoopKeepsActive(s: Session, input: seq<ReadResult>)
    ensures ReadLoop(s, input).active == s.active
    ensures ReadLoop(s, input).target == s.target
    decreases |input|
  {
    if input != [] && input[0].Line? {
      var l := input[0].line;
      ReadLoopKeepsActive(HandleMessageSpec(s, l), input[1..]);
    } else if input != [] && input[0] == ReadFailed {
      ReadLoopKeepsActive(s, input[1..]);
    }
  }
}
