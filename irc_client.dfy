/** irc/client.go: Client, the connection to one IRC server. Every method updates the
    fields in place as the source does and is proved to leave the client in the state
    the matching function of IrcSession describes. */
module IrcClient {
  import opened Common
  import opened IrcSession

  class Client {
    /** env.NICK, read once at start-up. */
    const nick: string
    var address: string
    var active: bool
    /** Conn != nil */
    var connOpen: bool
    var state: ConnState
    var user: string
    var host: string
    var panicOnNextPing: bool
    var current: seq<string>
    var target: seq<string>
    /** The frames written to Conn, oldest first. */
    var wire: seq<string>
    /** Goroutines started and incidents reported, oldest first. */
    var events: seq<Event>

    /** The client's fields as one value. */
    function Snapshot(): Session
      reads this
    {
      Session(nick, address, active, connOpen, state, user, host, panicOnNextPing,
        current, target, wire, events)
    }

    /** newClient */
    constructor(nick: string, address: string)
      ensures Snapshot() == NewSession(nick, address)
    {
      this.nick := nick;
      this.address := address;
      active := false;
      connOpen := false;
      state := Connecting;
      user := "";
      host := "";
      panicOnNextPing := false;
      current := [];
      target := [];
      wire := [];
      events := [];
    }

    /** CurrentChannels: a copy of the current list. */
    method CurrentChannels() returns (r: seq<string>)
      ensures r == current
    {
      r := current;
    }

    /** setTargetChannels: replaces the target list and nothing else. */
    method SetTargetChannels(t: seq<string>)
      modifies this
      ensures Snapshot() == old(Snapshot()).(target := t)
    {
      target := t;
    }

    /** FormattedState */
    function FormattedStateText(): string
      reads this
    {
      FormattedState(state)
    }

    /** MakePrivmsg */
    function MakePrivmsg(to: string, msg: string): string
      reads this
    {
      Privmsg(nick, user, host, to, msg)
    }

    /** fmt.Fprintf(c.Conn, ...): one frame, dropped when Conn is nil. */
    method Write(frame: string)
      modifies this`wire
      ensures wire == if connOpen then old(wire) + [frame] else old(wire)
    {
      if connOpen {
        wire := wire + [frame];
      }
    }

    /** SyncChannels: the join pass appends to the current list; the part pass
        compacts it in place with a write index. */
    method SyncChannels()
      modifies this
      ensures Snapshot() == SyncSpec(old(Snapshot()))
    {
      if !active || state != Connected {
        return;
      }
      ghost var s0 := Snapshot();
      JoinPass();
      ghost var s1 := Snapshot();
      PartPass();
      SyncInTwoPasses(s0, s1, Snapshot());
    }

    /** The first loop of SyncChannels. */
    method JoinPass()
      modifies this`current, this`wire
      ensures current == old(current) + Joined(old(current), target)
      ensures wire == Emit(old(Snapshot()), Frames("JOIN ", Joined(old(current), target)))
    {
      ghost var s0 := Snapshot();
      for k := 0 to |target|
        invariant current == s0.current + Joined(s0.current, s0.target[..k])
        invariant wire == Emit(s0, Frames("JOIN ", Joined(s0.current, s0.target[..k])))
      {
        var name := target[k];
        ghost var before := Joined(s0.current, s0.target[..k]);
        assert s0.target[..k + 1][..k] == s0.target[..k];
        assert Joined(s0.current, s0.target[..k + 1])
          == if name in s0.current + before || !HasPrefix(name, "#") then before else before + [name];
        if name in current {
          continue;
        }
        if !HasPrefix(name, "#") {
          continue;
        }
        FramesSnoc("JOIN ", before, name);
        EmitSnoc(s0, Frames("JOIN ", before), "JOIN " + name + "\r\n");
        Write("JOIN " + name + "\r\n");
        current := current + [name];
      }
      assert target[..|target|] == target;
    }

    /** The second loop of SyncChannels: keeps the targeted channels in place, in
        order, and parts the others. */
    method PartPass()
      modifies this`current, this`wire
      ensures current == Kept(old(current), target)
      ensures wire == Emit(old(Snapshot()), Frames("PART ", Dropped(old(current), target)))
    {
      ghost var s0 := Snapshot();
      var c1 := current;
      var t := target;
      var arr := new string[|c1|](j requires 0 <= j < |c1| => c1[j]);
      var i := 0;
      for j := 0 to arr.Length
        invariant 0 <= i <= j
        invariant arr[..i] == Kept(c1[..j], t)
        invariant forall m :: j <= m < arr.Length ==> arr[m] == c1[m]
        invariant wire == Emit(s0, Frames("PART ", Dropped(c1[..j], t)))
      {
        i := PartStep(s0, c1, t, arr, i, j);
      }
      assert c1[..arr.Length] == c1;
      current := arr[..i];
    }

    /** One turn of the second loop: the channel at the read index j is copied to the
        write index i when targeted, and parted otherwise. */
    method PartStep(ghost s0: Session, c1: seq<string>, t: seq<string>, arr: array<string>, i: nat, j: nat)
      returns (i': nat)
      requires arr.Length == |c1| && i <= j < |c1|
      requires arr[..i] == Kept(c1[..j], t)
      requires forall m :: j <= m < arr.Length ==> arr[m] == c1[m]
      requires s0.connOpen == connOpen
      requires wire == Emit(s0, Frames("PART ", Dropped(c1[..j], t)))
      modifies arr, this`wire
      ensures i' <= j + 1
      ensures arr[..i'] == Kept(c1[..j + 1], t)
      ensures forall m :: j + 1 <= m < arr.Length ==> arr[m] == c1[m]
      ensures wire == Emit(s0, Frames("PART ", Dropped(c1[..j + 1], t)))
    {
      var name := arr[j];
      ghost var parted := Dropped(c1[..j], t);
      FilterSnoc(c1, j, t);
      if name in t {
        arr[i] := name;
        assert arr[..i + 1] == old(arr[..i]) + [name];
        assert parted + [] == parted;
        return i + 1;
      }
      FramesSnoc("PART ", parted, name);
      EmitSnoc(s0, Frames("PART ", parted), "PART " + name + "\r\n");
      Write("PART " + name + "\r\n");
      return i;
    }

    /** writeBatch, with the batch id already formatted. */
    method WriteBatch(to: string, lines: seq<string>, id: string)
      modifies this`wire
      ensures wire == Emit(old(Snapshot()), BatchFrames(old(Snapshot()), to, lines, id))
    {
      ghost var s0 := Snapshot();
      var opening := "BATCH +" + id + " draft/multiline " + to + "\r\n";
      Write(opening);
      assert [opening] + BatchBodies(s0, to, lines[..0], id) == [opening];
      for i := 0 to |lines|
        invariant wire == Emit(s0, [opening] + BatchBodies(s0, to, lines[..i], id))
      {
        var body := "@batch=" + id + " " + MakePrivmsg(to, lines[i]);
        BatchStep(s0, to, lines, i, id, opening);
        EmitSnoc(s0, [opening] + BatchBodies(s0, to, lines[..i], id), body);
        Write(body);
      }
      assert lines[..|lines|] == lines;
      var closing := "BATCH -" + id + "\r\n";
      assert BatchFrames(s0, to, lines, id) == [opening] + BatchBodies(s0, to, lines, id) + [closing];
      EmitSnoc(s0, [opening] + BatchBodies(s0, to, lines, id), closing);
      Write(closing);
    }

    /** Send: one frame for a one-line message, a batch otherwise. batchId is the
        value of rand.Intn(1000). */
    method Send(to: string, msg: string, batchId: nat)
      modifies this
      ensures Snapshot() == SendSpec(old(Snapshot()), to, msg, batchId)
    {
      var lines := Split(msg, '\n');
      if |lines| == 1 {
        Write(MakePrivmsg(to, msg));
        return;
      }
      WriteBatch(to, lines, ZeroPad(batchId, 3));
    }

    /** handleKick */
    method HandleKick(k: KickParts)
      modifies this
      ensures Snapshot() == KickSpec(old(Snapshot()), k)
    {
      events := events + [IncidentReported(KickIncident(address, k))];
      var i := IndexOf(current, k.channel);
      if i == -1 {
        return;
      }
      current := current[..i] + current[i + 1..];
    }

    /** handleMessage */
    method HandleMessage(line: Inbound)
      modifies this
      ensures Snapshot() == HandleMessageSpec(old(Snapshot()), line)
    {
      if line.privmsg.Some? {
        var p := line.privmsg.value;
        var where := p.target;
        if !HasPrefix(where, "#") {
          where := p.sender;
        }
        events := events + [Dispatched(Message(p.sender, where, p.text))];
        return;
      }
      if state == Connecting && IsWelcome(nick, line) {
        state := Connected;
        SyncChannels();
        return;
      }
      if line.kick.Some? {
        HandleKick(line.kick.value);
        return;
      }
      if user == "" && host == "" && MentionsWhois(nick, line) {
        if line.whois.None? {
          return;
        }
        if line.whois.value.nick != nick {
          return;
        }
        user := line.whois.value.user;
        host := line.whois.value.host;
        return;
      }
    }

    /** connect: closes the old Conn, dials, sends the handshake and runs the read loop
        until the connection ends or the input runs out. */
    method Connect(dialed: bool, input: seq<ReadResult>)
      modifies this
      ensures Snapshot() == ConnectSpec(old(Snapshot()), dialed, input)
    {
      connOpen := false;
      state := Connecting;
      if !dialed {
        return;
      }
      connOpen := true;
      SendHandshake();
      ghost var s1 := Snapshot();
      var i := 0;
      while i < |input|
        invariant 0 <= i <= |input|
        invariant ReadLoop(Snapshot(), input[i..]) == ReadLoop(s1, input)
      {
        if input[i] == Closed {
          state := Disconnected;
          connOpen := false;
          return;
        }
        if input[i].Line? {
          HandleMessage(input[i].line);
        }
        assert input[i..][1..] == input[i + 1..];
        i := i + 1;
      }
    }

    /** The handshake of connect: register, set the bot modes, ask for our own mask. */
    method SendHandshake()
      modifies this
      ensures Snapshot() == old(Snapshot()).(wire := Emit(old(Snapshot()), Handshake(nick)))
    {
      ghost var s0 := Snapshot();
      Write("NICK " + nick + "\r\n");
      Write("USER " + nick + " 0 * :" + nick + "\r\n");
      Write("MODE " + nick + " +b\r\n");
      Write("MODE " + nick + " +B\r\n");
      Write("WHOIS " + nick + "\r\n");
      assert Emit(s0, Handshake(nick)) == wire;
    }

    /** delete */
    method Delete()
      modifies this
      ensures Snapshot() == DeleteSpec(old(Snapshot()))
    {
      active := false;
      if connOpen {
        connOpen := false;
      }
    }

    /** init */
    method Init() returns (started: bool)
      modifies this
      ensures (Snapshot(), started) == InitSpec(old(Snapshot()))
    {
      if active {
        return false;
      }
      active := true;
      events := events + [LoopStarted];
      return true;
    }

    /** reconnect */
    method Reconnect()
      modifies this
      ensures Snapshot() == ReconnectSpec(old(Snapshot()))
    {
      if !active {
        var _ := Init();
        return;
      }
      if connOpen {
        connOpen := false;
      }
    }

    /** recoverAndRestart; panicked tells whether recover() found a panic. */
    method RecoverAndRestart(panicked: bool)
      modifies this
      ensures Snapshot() == RecoverSpec(old(Snapshot()), panicked)
    {
      if !panicked {
        return;
      }
      panicOnNextPing := false;
      Reconnect();
    }

    /** ping */
    method Ping()
      modifies this
      ensures Snapshot() == PingSpec(old(Snapshot()))
    {
      if !active || state != Connected {
        return;
      }
      if panicOnNextPing {
        RecoverAndRestart(true);
        return;
      }
      Write("PING hi\r\n");
    }

    /** loop: connects again and again while the client stays active; each attempt
        is the outcome of one dial and what that connection reads. */
    method Loop(attempts: seq<(bool, seq<ReadResult>)>)
      modifies this
      ensures Snapshot() == LoopSpec(old(Snapshot()), attempts)
    {
      var i := 0;
      while i < |attempts| && active
        invariant 0 <= i <= |attempts|
        invariant LoopSpec(Snapshot(), attempts[i..]) == LoopSpec(old(Snapshot()), attempts)
      {
        assert attempts[i..][1..] == attempts[i + 1..];
        Connect(attempts[i].0, attempts[i].1);
        i := i + 1;
      }
    }
  }
}
