/** irc/pool.go, irc/incident.go and irc/ping.go: the clients map, keyed by server
    name. The pool state as a value maps each name to its client's Session, or to
    None for a name bound to nil; the class Pool holds the Client objects and is
    proved to agree with the functions here.

    Three facts of the source are kept rather than fixed: a server removed from the
    configuration leaves its name bound to nil instead of deleting the key; every
    pass over the map dereferences such a nil entry (a Go panic, the outcome
    Panicked here); and Sync never hands the configured channel lists to the
    clients. */
module IrcPool {
  import opened Common
  import opened IrcSession
  import opened IrcClient
  import Ircf
  import Db

  /** clients, as values. */
  type PoolState = map<string, Option<Session>>

  /** The ordered servers Servers.GetAll returns: names and records. */
  type Config = seq<(string, Db.Server)>

  /** How a pass over the pool ends. */
  datatype Outcome = Done | StoreFailed(error: Db.Error) | Panicked

  /** GetAll never returns a name twice. */
  predicate Distinct(servers: Config) {
    forall i, j :: 0 <= i < j < |servers| ==> servers[i].0 != servers[j].0
  }

  // ---------------------------------------------------------------------------
  // Sync, phase by phase

  /** The first loop of Sync for one configured server: a missing or nil entry gets a
      new client with the configured address, and an inactive client is started. */
  function EnsureOne(nick: string, st: PoolState, name: string, address: string): PoolState
  {
    var c := if name in st && st[name].Some? then st[name].value else NewSession(nick, address);
    st[name := Some(if c.active then c else InitSpec(c).0)]
  }

  /** The first loop of Sync, over the servers from the back. */
  function EnsureConfigured(nick: string, st: PoolState, servers: Config): PoolState
    decreases |servers|
  {
    if servers == [] then st
    else
      var last := servers[|servers| - 1];
      EnsureConfigured(nick, EnsureOne(nick, st, last.0, last.1.address), servers[..|servers| - 1])
  }

  /** The second loop of Sync calls delete() on the entry of some name that is not
      configured but is bound to nil. */
  predicate RemovalPanics(st: PoolState, names: set<string>) {
    exists k :: k in st && k !in names && st[k].None?
  }

  /** The second loop of Sync when it does not panic: every name that is not
      configured is bound to nil, and stays a key. */
  function RemoveUnconfigured(st: PoolState, names: set<string>): PoolState
  {
    map k | k in st :: if k in names then st[k] else None
  }

  /** The third loop of Sync for one configured server: a client whose address differs
      takes the configured one, and is reconnected only when connected. A missing or
      nil entry is skipped. */
  function ApplyAddress(st: PoolState, name: string, address: string): PoolState
  {
    if name !in st || st[name].None? then st
    else
      var c := st[name].value;
      if c.address == address then st
      else
        var c' := c.(address := address);
        st[name := Some(if c'.state == Connected then ReconnectSpec(c') else c')]
  }

  /** The third loop of Sync, over the servers from the back. */
  function ApplyAddresses(st: PoolState, servers: Config): PoolState
    decreases |servers|
  {
    if servers == [] then st
    else
      var last := servers[|servers| - 1];
      ApplyAddresses(ApplyAddress(st, last.0, last.1.address), servers[..|servers| - 1])
  }

  /** Sync when GetAll succeeds and the removal does not panic. */
  function SyncedState(nick: string, st: PoolState, servers: Config): PoolState
  {
    var names := Db.KeysOf(servers);
    ApplyAddresses(RemoveUnconfigured(EnsureConfigured(nick, st, servers), names), servers)
  }

  /** What Sync makes of one configured client c (None for a missing or nil entry):
      create, start, then move to the configured address. */
  function SyncedClient(nick: string, c: Option<Session>, address: string): Session
  {
    var c0 := if c.Some? then c.value else NewSession(nick, address);
    var c1 := if c0.active then c0 else InitSpec(c0).0;
    if c1.address == address then c1
    else
      var c2 := c1.(address := address);
      if c2.state == Connected then ReconnectSpec(c2) else c2
  }

  lemma {:induction false} EnsureConfiguredAt(nick: string, st: PoolState, servers: Config, k: string)
    requires Distinct(servers)
    ensures var r := EnsureConfigured(nick, st, servers);
      (k in r <==> k in st || k in Db.KeysOf(servers))
      && (k !in Db.KeysOf(servers) && k in st ==> r[k] == st[k])
      && (forall j :: 0 <= j < |servers| && servers[j].0 == k ==>
            r[k] == EnsureOne(nick, st, k, servers[j].1.address)[k])
    decreases |servers|
  {
    if servers != [] {
      var n := |servers| - 1;
      var init := servers[..n];
      var last := servers[n];
      assert servers == init + [last];
      Db.KeysOfAppend(init, last);
      var st' := EnsureOne(nick, st, last.0, last.1.address);
      assert Distinct(init);
      EnsureConfiguredAt(nick, st', init, k);
      if k == last.0 {
        forall i | 0 <= i < |init|
          ensures init[i].0 != k
        {
          assert init[i] == servers[i];
        }
        assert k !in Db.KeysOf(init);
      } else {
        forall j | 0 <= j < |servers| && servers[j].0 == k
          ensures j < n
        {
        }
      }
    }
  }

  /** The first loop of Sync leaves the entry of a name that is not configured as it
      was. */
  lemma {:induction false} EnsureConfiguredKeeps(nick: string, st: PoolState, servers: Config, k: string)
    requires k !in Db.KeysOf(servers)
    ensures var r := EnsureConfigured(nick, st, servers);
      (k in r <==> k in st) && (k in st ==> r[k] == st[k])
    decreases |servers|
  {
    if servers != [] {
      var n := |servers| - 1;
      assert servers == servers[..n] + [servers[n]];
      Db.KeysOfAppend(servers[..n], servers[n]);
      EnsureConfiguredKeeps(nick, EnsureOne(nick, st, servers[n].0, servers[n].1.address), servers[..n], k);
    }
  }

  lemma {:induction false} ApplyAddressesAt(st: PoolState, servers: Config, k: string)
    requires Distinct(servers)
    ensures var r := ApplyAddresses(st, servers);
      r.Keys == st.Keys
      && (k !in Db.KeysOf(servers) && k in st ==> r[k] == st[k])
      && (forall j :: 0 <= j < |servers| && servers[j].0 == k && k in st ==>
            r[k] == ApplyAddress(st, k, servers[j].1.address)[k])
    decreases |servers|
  {
    if servers != [] {
      var n := |servers| - 1;
      var init := servers[..n];
      var last := servers[n];
      assert servers == init + [last];
      Db.KeysOfAppend(init, last);
      var st' := ApplyAddress(st, last.0, last.1.address);
      assert Distinct(init);
      ApplyAddressesAt(st', init, k);
      if k == last.0 {
        forall i | 0 <= i < |init|
          ensures init[i].0 != k
        {
          assert init[i] == servers[i];
        }
        assert k !in Db.KeysOf(init);
      } else {
        forall j | 0 <= j < |servers| && servers[j].0 == k
          ensures j < n
        {
        }
      }
    }
  }

  /** Sync, name by name: the keys are the old ones and the configured ones; a
      configured name ends with its client created if missing or nil, started, and
      moved to the configured address; a name that is not configured is bound to nil
      but stays a key. */
  lemma SyncEntry(nick: string, st: PoolState, servers: Config, k: string)
    requires Distinct(servers)
    ensures var r := SyncedState(nick, st, servers);
      (k in r <==> k in st || k in Db.KeysOf(servers))
      && (k !in Db.KeysOf(servers) && k in st ==> r[k] == None)
      && (forall j :: 0 <= j < |servers| && servers[j].0 == k ==>
            r[k] == Some(SyncedClient(nick, if k in st then st[k] else None, servers[j].1.address)))
  {
    var names := Db.KeysOf(servers);
    var p1 := EnsureConfigured(nick, st, servers);
    var p2 := RemoveUnconfigured(p1, names);
    EnsureConfiguredAt(nick, st, servers, k);
    ApplyAddressesAt(p2, servers, k);
    forall j | 0 <= j < |servers| && servers[j].0 == k
      ensures SyncedState(nick, st, servers)[k]
        == Some(SyncedClient(nick, if k in st then st[k] else None, servers[j].1.address))
    {
      assert k in names;
    }
  }

  /** After Sync every configured name holds an active client. */
  lemma SyncActivates(nick: string, st: PoolState, servers: Config, j: nat)
    requires Distinct(servers) && j < |servers|
    ensures var k := servers[j].0;
      var r := SyncedState(nick, st, servers);
      k in r && r[k].Some? && r[k].value.active
  {
    SyncEntry(nick, st, servers, servers[j].0);
  }

  /** Sync never changes a client's target channel list: a client that existed keeps
      its own, and a new one has none. The configured channels are not used. */
  lemma SyncKeepsTargets(nick: string, st: PoolState, servers: Config, k: string)
    requires Distinct(servers)
    requires k in SyncedState(nick, st, servers) && SyncedState(nick, st, servers)[k].Some?
    ensures SyncedState(nick, st, servers)[k].value.target
      == if k in st && st[k].Some? then st[k].value.target else []
  {
    SyncEntry(nick, st, servers, k);
    assert k in Db.KeysOf(servers);
    var j :| 0 <= j < |servers| && servers[j].0 == k;
  }

  /** A client created by this Sync is started with the configured address and never
      enters the address branch: it is the new client, started, and nothing else. */
  lemma SyncNewClient(nick: string, st: PoolState, servers: Config, j: nat)
    requires Distinct(servers) && j < |servers|
    requires servers[j].0 !in st || st[servers[j].0].None?
    ensures var r := SyncedState(nick, st, servers);
      servers[j].0 in r && r[servers[j].0] == Some(InitSpec(NewSession(nick, servers[j].1.address)).0)
  {
    SyncEntry(nick, st, servers, servers[j].0);
  }

  /** A client that existed and was active has its address changed when it differs,
      and is reconnected only when connected. */
  lemma SyncMovesAddress(nick: string, st: PoolState, servers: Config, j: nat)
    requires Distinct(servers) && j < |servers|
    requires var k := servers[j].0; k in st && st[k].Some? && st[k].value.active
    ensures var k := servers[j].0;
      var c := st[k].value;
      var a := servers[j].1.address;
      var r := SyncedState(nick, st, servers);
      k in r && r[k].Some? && r[k].value
        == if c.address == a then c
           else if c.state == Connected then c.(address := a, connOpen := false)
           else c.(address := a)
  {
    SyncEntry(nick, st, servers, servers[j].0);
  }

  /** A name left bound to nil by one Sync makes the next Sync panic when it is still
      not configured: its delete() is called on nil. */
  lemma NilEntryPanicsNextSync(nick: string, st: PoolState, servers: Config, servers2: Config, k: string)
    requires Distinct(servers) && Distinct(servers2)
    requires k in st && k !in Db.KeysOf(servers) && k !in Db.KeysOf(servers2)
    ensures RemovalPanics(EnsureConfigured(nick, SyncedState(nick, st, servers), servers2), Db.KeysOf(servers2))
  {
    SyncEntry(nick, st, servers, k);
    EnsureConfiguredAt(nick, SyncedState(nick, st, servers), servers2, k);
  }

  // ---------------------------------------------------------------------------
  // GetStateWithFormatting, ReportIncident and pingAllClients, as values

  /** The panic of a pass that meets a name bound to nil. */
  datatype NilPanic = NilClient(name: string)

  /** The label for a name with no entry: bold white on black. */
  const NotFoundLabel := Ircf.Bold().Color(98, [40]).Format("not found")

  /** GetStateWithFormatting: the "not found" label for a missing name, a nil
      dereference for a nil entry, and the client's state label otherwise. */
  function StateLabel(st: PoolState, name: string): (r: Result<string, NilPanic>)
    ensures r.Err? <==> name in st && st[name].None?
  {
    if name !in st then Ok(NotFoundLabel)
    else if st[name].None? then Err(NilClient(name))
    else
      match st[name].value.state
      case Connecting => Ok(Ircf.Bold().Color(98, [41]).Format("connecting"))
      case Connected => Ok(Ircf.Bold().Color(98, [43]).Format("connected"))
      case Disconnected => Ok(Ircf.Bold().Color(98, [40]).Format("disconnected"))
  }

  /** The label of a present client is the client's own FormattedState. */
  lemma StateLabelCases(st: PoolState, name: string)
    ensures name in st && st[name].Some? ==> StateLabel(st, name) == Ok(FormattedState(st[name].value.state))
    ensures name !in st ==> StateLabel(st, name) == Ok(NotFoundLabel)
  {
  }

  /** The "not found" label is none of the state labels: its text differs, although
      it shares the colours of "disconnected". */
  lemma NotFoundIsNoState(state: ConnState)
    ensures NotFoundLabel != FormattedState(state)
  {
    NotFoundText();
    LabelText(state);
    var l := FormattedState(state);
    assert l[7] == StateName(state)[0];
    assert NotFoundLabel[7] == 'n';
  }

  lemma NotFoundText()
    ensures |NotFoundLabel| == 17 && NotFoundLabel[7..16] == "not found"
  {
    var f := Ircf.Fmt(true, 98, 40);
    assert NotFoundLabel == f.Format("not found");
    Ircf.PrefixLength(f);
    DecimalTwoDigits(98);
    DecimalTwoDigits(40);
  }

  /** The text of an incident: "incident" in bold white on black, ": ", the message. */
  function IncidentText(msg: string): string {
    Ircf.Color(98, [40]).Bold().Format("incident") + ": " + msg
  }

  /** ReportIncident: nothing unless "home" holds an active client, which then sends
      the incident to the owner. batchId is the value of rand.Intn(1000) in Send. */
  function ReportSpec(st: PoolState, owner: string, msg: string, batchId: nat): PoolState
  {
    if "home" !in st || st["home"].None? || !st["home"].value.active then st
    else st["home" := Some(SendSpec(st["home"].value, owner, IncidentText(msg), batchId))]
  }

  /** A missing, nil or inactive home client drops the incident; otherwise only the
      home client changes, by one Send to the owner. */
  lemma ReportGoesHome(st: PoolState, owner: string, msg: string, batchId: nat)
    ensures "home" !in st || st["home"].None? || !st["home"].value.active ==> ReportSpec(st, owner, msg, batchId) == st
    ensures ReportSpec(st, owner, msg, batchId).Keys == st.Keys
    ensures forall k <- st :: k != "home" ==> ReportSpec(st, owner, msg, batchId)[k] == st[k]
    ensures "home" in st && st["home"].Some? && st["home"].value.active ==>
      ReportSpec(st, owner, msg, batchId)["home"] == Some(SendSpec(st["home"].value, owner, IncidentText(msg), batchId))
  {
  }

  /** A one-line message is reported as one PRIVMSG frame to the owner whose text is
      the formatted word "incident", ": " and the message. */
  lemma ReportOneLine(st: PoolState, owner: string, msg: string, batchId: nat)
    requires "home" in st && st["home"].Some? && st["home"].value.active && '\n' !in msg
    ensures var h := st["home"].value;
      ReportSpec(st, owner, msg, batchId)["home"]
        == Some(h.(wire := Emit(h, [Privmsg(h.nick, h.user, h.host, owner, IncidentText(msg))])))
  {
    IncidentOneLine(msg);
    SendSingleLine(st["home"].value, owner, IncidentText(msg), batchId);
  }

  lemma IncidentOneLine(msg: string)
    requires '\n' !in msg
    ensures '\n' !in IncidentText(msg)
  {
    var w := Ircf.Color(98, [40]).Bold().Format("incident");
    Ircf.FormatAddsNoLineBreak(Ircf.Color(98, [40]).Bold(), "incident");
    assert IncidentText(msg) == w + ": " + msg;
  }

  /** pingAllClients when no entry is nil: every client pinged once. */
  function PingAllSpec(st: PoolState): (r: PoolState)
    requires forall k <- st :: st[k].Some?
  {
    map k | k in st :: Some(PingSpec(st[k].value))
  }

  /** Every entry is pinged exactly once: an idle client (inactive or not connected)
      is left as it was, and a connected client without the panic flag gets exactly
      one PING frame. */
  lemma PingAllOnce(st: PoolState, k: string)
    requires forall k <- st :: st[k].Some?
    requires k in st
    ensures PingAllSpec(st).Keys == st.Keys
    ensures var c := st[k].value;
      (!c.active || c.state != Connected ==> PingAllSpec(st)[k] == st[k])
      && (c.active && c.state == Connected && !c.panicOnNextPing ==>
            PingAllSpec(st)[k].value.wire == Emit(c, ["PING hi\r\n"]))
  {
    PingCases(st[k].value);
  }

  // ---------------------------------------------------------------------------
  // The clients map

  /** The clients map, without its lock: each method runs as one atomic step. nick
      is env.NICK, given to every new client. */
  class Pool {
    const nick: string
    var clients: map<string, Client?>

    constructor(nick: string)
      ensures this.nick == nick && clients == map[] && Valid()
    {
      this.nick := nick;
      clients := map[];
    }

    /** The client objects the map holds. */
    function Objects(): set<Client>
      reads this
    {
      set k | k in clients && clients[k] != null :: clients[k]
    }

    /** No client object is bound to two names. */
    predicate Valid()
      reads this
    {
      forall a, b :: a in clients && b in clients && a != b && clients[a] != null ==> clients[a] != clients[b]
    }

    /** The map as values. */
    function State(): PoolState
      reads this, Objects()
    {
      map k | k in clients :: if clients[k] == null then None else Some(clients[k].Snapshot())
    }

    /** GetStateWithFormatting */
    function GetStateWithFormatting(name: string): (r: Result<string, NilPanic>)
      reads this, Objects()
      ensures r == StateLabel(State(), name)
    {
      if name !in clients then Ok(NotFoundLabel)
      else if clients[name] == null then Err(NilClient(name))
      else Ok(FormattedState(clients[name].state))
    }

    /** Sync; got is what Servers.GetAll returned. */
    method Sync(got: Result<Config, Db.Error>) returns (outcome: Outcome)
      requires Valid()
      modifies this, Objects()
      ensures Valid()
      ensures got.Err? ==> outcome == StoreFailed(got.error) && State() == old(State())
      ensures got.Ok? ==>
        var p1 := EnsureConfigured(nick, old(State()), got.value);
        (outcome == Panicked <==> RemovalPanics(p1, Db.KeysOf(got.value)))
        && (outcome == Done <==> !RemovalPanics(p1, Db.KeysOf(got.value)))
      ensures outcome == Done ==> got.Ok? && State() == SyncedState(nick, old(State()), got.value)
      ensures outcome == Panicked ==>
        got.Ok?
        && var p1 := EnsureConfigured(nick, old(State()), got.value);
           State().Keys == p1.Keys
           && forall k <- p1 :: State()[k] == p1[k] || (k !in Db.KeysOf(got.value) && State()[k] == None)
      ensures forall k :: k in old(clients) && old(clients[k]) != null && k in clients && clients[k] == null ==>
        old(clients[k]).Snapshot() == DeleteSpec(old(clients[k].Snapshot()))
    {
      if got.Err? {
        return StoreFailed(got.error);
      }
      var servers := got.value;
      ghost var names := Db.KeysOf(servers);
      ghost var st0 := State();
      ghost var objs0 := clients;
      var all := EnsureConfiguredPass(servers);
      ghost var p1 := State();
      forall k | k in objs0 && objs0[k] != null && k !in names
        ensures clients[k] == objs0[k] && objs0[k].Snapshot() == old(objs0[k].Snapshot())
      {
        EnsureConfiguredKeeps(nick, st0, servers, k);
      }
      var panicked := RemovePass(all, names);
      if panicked {
        return Panicked;
      }
      AddressPass(servers);
      return Done;
    }

    /** The first loop of Sync; returns the configured names, from the back. */
    method EnsureConfiguredPass(servers: Config) returns (all: seq<string>)
      requires Valid()
      modifies this, Objects()
      ensures Valid()
      ensures State() == EnsureConfigured(nick, old(State()), servers)
      ensures forall n :: n in all <==> n in Db.KeysOf(servers)
      ensures forall k :: k in old(clients) && k !in Db.KeysOf(servers) ==> k in clients && clients[k] == old(clients[k])
      ensures forall k :: k in old(clients) && old(clients[k]) != null ==> k in clients && clients[k] == old(clients[k])
      ensures forall k :: k in clients && clients[k] != null ==> clients[k] in old(Objects()) || fresh(clients[k])
    {
      ghost var st0 := State();
      var i := |servers|;
      assert servers[..i] == servers;
      all := [];
      while i > 0
        invariant 0 <= i <= |servers|
        invariant Valid()
        invariant EnsureConfigured(nick, State(), servers[..i]) == EnsureConfigured(nick, st0, servers)
        invariant forall n :: n in all <==> n in Db.KeysOf(servers[i..])
        invariant forall k :: k in old(clients) && k !in Db.KeysOf(servers[i..]) ==> k in clients && clients[k] == old(clients[k])
        invariant forall k :: k in old(clients) && old(clients[k]) != null ==> k in clients && clients[k] == old(clients[k])
        invariant forall k :: k in clients && clients[k] != null ==> clients[k] in old(Objects()) || fresh(clients[k])
      {
        var name := servers[i - 1].0;
        all := all + [name];
        Db.KeysOfPrepend(servers[i - 1], servers[i..]);
        assert servers[i - 1..] == [servers[i - 1]] + servers[i..];
        assert servers[..i][..i - 1] == servers[..i - 1];
        EnsureStep(name, servers[i - 1].1.address);
        i := i - 1;
      }
      assert servers[..0] == [];
      assert servers[0..] == servers;
    }

    /** One turn of the first loop of Sync. */
    method EnsureStep(name: string, address: string)
      requires Valid()
      modifies this, Objects()
      ensures Valid()
      ensures State() == EnsureOne(nick, old(State()), name, address)
      ensures forall k :: k in old(clients) && k != name ==> k in clients && clients[k] == old(clients[k])
      ensures forall k :: k in old(clients) && old(clients[k]) != null ==> k in clients && clients[k] == old(clients[k])
      ensures forall k :: k in clients && clients[k] != null ==> clients[k] in old(Objects()) || fresh(clients[k])
    {
      ghost var st0 := State();
      ghost var m0 := clients;
      var c := if name in clients then clients[name] else null;
      if c == null {
        c := new Client(nick, address);
        clients := clients[name := c];
      }
      if !c.active {
        var _ := c.Init();
      }
      ghost var r := EnsureOne(nick, st0, name, address);
      forall k | k in clients
        ensures k in r && State()[k] == r[k]
      {
        if k != name {
          assert clients[k] == m0[k];
          if m0[k] != null {
            assert m0[k] != c;
            assert m0[k].Snapshot() == old(m0[k].Snapshot());
          }
        }
      }
      assert State() == r;
    }

    /** The second loop of Sync: every name not in all gets delete() and is bound to
        nil; a nil entry among them is dereferenced. The names are visited in the map's
        order. */
    method RemovePass(all: seq<string>, ghost names: set<string>) returns (panicked: bool)
      requires Valid()
      requires forall n :: n in all <==> n in names
      modifies this, Objects()
      ensures Valid()
      ensures panicked <==> RemovalPanics(old(State()), names)
      ensures !panicked ==> State() == RemoveUnconfigured(old(State()), names)
      ensures panicked ==>
        State().Keys == old(State()).Keys
        && forall k <- old(State()) :: State()[k] == old(State())[k] || (k !in names && State()[k] == None)
      ensures clients.Keys == old(clients).Keys
      ensures forall k <- clients :: clients[k] == null || clients[k] == old(clients[k])
      ensures forall k :: k in old(clients) && old(clients[k]) != null && clients[k] == null ==>
        k !in names && old(clients[k]).Snapshot() == DeleteSpec(old(clients[k].Snapshot())) && old(clients[k]) !in Objects()
    {
      ghost var st := State();
      ghost var objs := clients;
      var remaining := clients.Keys;
      while remaining != {}
        invariant RemoveInv(st, objs, remaining, names)
        decreases remaining
      {
        var name :| name in remaining;
        var stop := RemoveStep(all, st, objs, remaining, names, name);
        if stop {
          RemoveStopped(st, objs, remaining, names, name);
          return true;
        }
        remaining := remaining - {name};
      }
      RemoveDone(st, objs, names);
      return false;
    }

    /** One turn of the second loop of Sync; stop tells that it met a nil entry. */
    method RemoveStep(all: seq<string>, ghost st: PoolState, ghost objs: map<string, Client?>,
                      ghost remaining: set<string>, ghost names: set<string>, name: string)
      returns (stop: bool)
      requires RemoveInv(st, objs, remaining, names) && name in remaining
      requires forall n :: n in all <==> n in names
      modifies this, set k | k in objs && objs[k] != null :: objs[k]
      ensures stop ==> RemoveInv(st, objs, remaining, names) && name !in names && clients[name] == null
      ensures !stop ==> RemoveInv(st, objs, remaining - {name}, names)
    {
      if name in all {
        return false;
      }
      var c := clients[name];
      if c == null {
        return true;
      }
      c.Delete();
      clients := clients[name := null];
      return false;
    }

    /** What the second loop of Sync keeps while it visits the names: the names it has
        visited that are not configured are bound to nil and their clients deleted, and
        everything else is as it was. */
    ghost predicate RemoveInv(st: PoolState, objs: map<string, Client?>, remaining: set<string>, names: set<string>)
      reads this, set k | k in objs && objs[k] != null :: objs[k]
    {
      remaining <= clients.Keys && clients.Keys == objs.Keys && objs.Keys == st.Keys
      && (forall a, b :: a in objs && b in objs && a != b && objs[a] != null ==> objs[a] != objs[b])
      && (forall k <- clients :: clients[k] == (if k in remaining || k in names then objs[k] else null))
      && (forall k <- objs :: objs[k] == null <==> st[k].None?)
      && (forall k <- objs :: objs[k] != null ==>
            objs[k].Snapshot() == if k in remaining || k in names then st[k].value else DeleteSpec(st[k].value))
      && (forall k <- objs :: k !in remaining && k !in names ==> objs[k] != null)
    }

    /** The clients unbound from their names have been deleted and are no longer in the
        map. */
    ghost predicate Retired(st: PoolState, objs: map<string, Client?>)
      requires objs.Keys <= st.Keys
      reads this, set k | k in objs && objs[k] != null :: objs[k]
    {
      forall k <- objs :: objs[k] != null && k in clients && clients[k] == null ==>
        st[k].Some? && objs[k].Snapshot() == DeleteSpec(st[k].value) && objs[k] !in Objects()
    }

    lemma RemoveDone(st: PoolState, objs: map<string, Client?>, names: set<string>)
      requires RemoveInv(st, objs, {}, names)
      ensures !RemovalPanics(st, names)
      ensures State() == RemoveUnconfigured(st, names)
      ensures Valid()
      ensures Retired(st, objs)
    {
      forall k | k in clients
        ensures State()[k] == RemoveUnconfigured(st, names)[k]
      {
      }
    }

    lemma RemoveStopped(st: PoolState, objs: map<string, Client?>, remaining: set<string>, names: set<string>, name: string)
      requires RemoveInv(st, objs, remaining, names)
      requires name in remaining && name !in names && clients[name] == null
      ensures RemovalPanics(st, names)
      ensures State().Keys == st.Keys
      ensures forall k <- st :: State()[k] == st[k] || (k !in names && State()[k] == None)
      ensures Valid()
      ensures Retired(st, objs)
    {
      assert st[name].None?;
    }

    /** The third loop of Sync. */
    method AddressPass(servers: Config)
      requires Valid()
      modifies Objects()
      ensures State() == ApplyAddresses(old(State()), servers)
    {
      ghost var st0 := State();
      var i := |servers|;
      assert servers[..i] == servers;
      while i > 0
        invariant 0 <= i <= |servers|
        invariant ApplyAddresses(State(), servers[..i]) == ApplyAddresses(st0, servers)
      {
        assert servers[..i][..i - 1] == servers[..i - 1];
        AddressStep(servers[i - 1].0, servers[i - 1].1.address);
        i := i - 1;
      }
      assert servers[..0] == [];
    }

    /** One turn of the third loop of Sync. */
    method AddressStep(name: string, address: string)
      requires Valid()
      modifies Objects()
      ensures State() == ApplyAddress(old(State()), name, address)
    {
      if name !in clients || clients[name] == null {
        return;
      }
      ghost var st0 := State();
      var client := clients[name];
      if client.address == address {
        return;
      }
      client.address := address;
      ghost var moved := client.Snapshot();
      assert moved == st0[name].value.(address := address);
      if client.state == Connected {
        client.Reconnect();
      }
      ghost var r := ApplyAddress(st0, name, address);
      assert r == st0[name := Some(client.Snapshot())];
      forall k | k in clients
        ensures k in r && State()[k] == r[k]
      {
        if k != name && clients[k] != null {
          assert clients[k] != client;
          assert clients[k].Snapshot() == old(clients[k].Snapshot());
        }
      }
      assert State() == r;
    }

    /** ReportIncident; owner is env.OWNER and batchId the value Send draws. */
    method ReportIncident(owner: string, msg: string, batchId: nat)
      requires Valid()
      modifies Objects()
      ensures State() == ReportSpec(old(State()), owner, msg, batchId)
    {
      var home := if "home" in clients then clients["home"] else null;
      if home == null {
        return;
      }
      if !home.active {
        return;
      }
      home.Send(owner, IncidentText(msg), batchId);
    }

    /** pingAllClients: ping every entry, in the map's order; a nil entry is
        dereferenced. */
    method PingAll() returns (outcome: Outcome)
      requires Valid()
      modifies Objects()
      ensures outcome == Done || outcome == Panicked
      ensures outcome == Panicked <==> exists k :: k in old(State()) && old(State())[k].None?
      ensures outcome == Done ==> State() == PingAllSpec(old(State()))
      ensures State().Keys == old(State()).Keys
      ensures forall k <- old(State()) :: old(State())[k].Some? ==>
        State()[k] == old(State())[k] || State()[k] == Some(PingSpec(old(State())[k].value))
    {
      ghost var st := State();
      var remaining := clients.Keys;
      while remaining != {}
        invariant remaining <= clients.Keys
        invariant forall k <- clients :: clients[k] != null ==>
          clients[k].Snapshot() == if k in remaining then st[k].value else PingSpec(st[k].value)
        invariant forall k <- clients :: k !in remaining ==> clients[k] != null
        decreases remaining
      {
        var name :| name in remaining;
        remaining := remaining - {name};
        var c := clients[name];
        if c == null {
          assert st[name].None?;
          return Panicked;
        }
        c.Ping();
      }
      return Done;
    }
  }
}
