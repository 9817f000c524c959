/** The agent as a transactional state machine: apply, rollback, recovery, history and the idempotency cache. */
module AgentMachine {
  import opened Basics
  import opened AgentConfig
  import opened AgentRuntime
  import opened AgentHistory

  datatype Envelope = Envelope(revision: nat, config: Config)

  datatype Reply = Reply(envelope: Envelope, warnings: seq<Warning>)

  datatype Request = Request(key: Raw<string>, expected: Option<nat>, config: RawConfig)

  datatype Outcome =
    | Applied(reply: Reply)
    | RolledBack(envelope: Envelope)
    | Refused(error: string)
    | Conflict
    | Failed(recovered: bool)

  datatype State = State(
    current: Envelope, history: map<nat, Envelope>, files: Files, running: Running, cache: seq<(string, Reply)>)

  const CACHE_SIZE: nat := 256

  // ---------------------------------------------------------------------
  // One transaction
  // ---------------------------------------------------------------------

  function Runtime(
      docker: bool, running: Running, files: Files, services: set<Service>, enabled: bool, d: Docker): (Running, bool)
  {
    if docker then Restarted(running, files, services, enabled, d) else (running, true)
  }

  datatype Attempt = Attempt(running: Running, ok: bool, recovered: bool)

  /** Undoes a failed attempt that left `running` behind. */
  function Back(running: Running, from: Config, to: Config, docker: bool, recovery: Docker, lib: Library): Attempt
    requires Listenable(from.management, lib)
  {
    var (r, ok) := Runtime(docker, running, Rendered(from, lib), ChangedServices(to, from), from.relayServer.enabled,
      recovery);
    Attempt(r, false, ok)
  }

  /** Moves the services from one configuration to another, or back again if that fails. */
  function Switch(
      running: Running, from: Config, to: Config, docker: bool, d: Docker, recovery: Docker, lib: Library): Attempt
    requires Listenable(from.management, lib) && Listenable(to.management, lib)
  {
    if !Renders(to, lib) then Back(running, from, to, docker, recovery, lib)
    else
      var (r, ok) := Runtime(docker, running, Rendered(to, lib), ChangedServices(from, to), to.relayServer.enabled, d);
      if ok then Attempt(r, true, true) else Back(r, from, to, docker, recovery, lib)
  }

  /** `[A-Za-z0-9_-]{16,128}` */
  predicate KeyOk(key: Raw<string>) {
    && key.Given? && 16 <= |key.value| <= 128
    && forall c | c in key.value :: 'A' <= c <= 'Z' || 'a' <= c <= 'z' || '0' <= c <= '9' || c == '_' || c == '-'
  }

  function Lookup(cache: seq<(string, Reply)>, key: string): Option<Reply> {
    if cache == [] then None else if cache[0].0 == key then Some(cache[0].1) else Lookup(cache[1..], key)
  }

  /** Inserting into the dictionary, and dropping its oldest entry past the limit. */
  function Remember(cache: seq<(string, Reply)>, key: string, reply: Reply): seq<(string, Reply)> {
    var longer := cache + [(key, reply)];
    if |longer| > CACHE_SIZE then longer[1..] else longer
  }

  predicate Usable(e: Envelope, lib: Library) {
    Listenable(e.config.management, lib) && Renders(e.config, lib)
  }

  /**
   * The current configuration has been rendered, and the history holds earlier or equal revisions that could be
   * rendered again.
   */
  ghost predicate Sound(s: State, lib: Library) {
    && Lawful(lib) && Usable(s.current, lib) && s.files == Rendered(s.current.config, lib)
    && (forall r | r in s.history :: s.history[r].revision == r && r <= s.current.revision && Usable(s.history[r], lib))
    && |s.cache| <= CACHE_SIZE
  }

  /** `Agent.apply` */
  ghost function AfterApply(
      s: State, req: Request, docker: bool, d: Docker, recovery: Docker, lib: Library): (State, Outcome)
    requires Sound(s, lib)
  {
    if !KeyOk(req.key) then (s, Refused("idempotencyKey"))
    else if Lookup(s.cache, req.key.value).Some? then (s, Applied(Lookup(s.cache, req.key.value).value))
    else if req.expected != Some(s.current.revision) then (s, Conflict)
    else
      match Validate(req.config, lib)
      case Err(e) => (s, Refused(e))
      case Ok(checked) =>
        AcceptedListenable(req.config, lib);
        var saved := s.(history := s.history[s.current.revision := s.current]);
        var a := Switch(s.running, s.current.config, checked.value, docker, d, recovery, lib);
        if !a.ok then (saved.(running := a.running), Failed(a.recovered))
        else
          var updated := Envelope(s.current.revision + 1, checked.value);
          var reply := Reply(updated, checked.warnings);
          var cache := Remember(s.cache, req.key.value, reply);
          (State(updated, saved.history, Rendered(checked.value, lib), a.running, cache), Applied(reply))
  }

  lemma AcceptedListenable(raw: RawConfig, lib: Library)
    requires Lawful(lib) && Validate(raw, lib).Ok?
    ensures Listenable(Validate(raw, lib).value.value.management, lib)
  {
    hide Validate, Lawful;
    AcceptedIsClean(raw, lib);
    EffectiveDefined(Validate(raw, lib).value.value.management, lib);
  }

  /** The first of the history files in descending order of their names. */
  predicate IsNewest(r: nat, revisions: set<nat>) {
    r in revisions && forall q | q in revisions :: q == r || Less(FileName(q), FileName(r))
  }

  ghost function Newest(revisions: set<nat>): (r: nat)
    requires revisions != {}
    ensures IsNewest(r, revisions)
  {
    NewestExists(revisions);
    var r :| IsNewest(r, revisions);
    r
  }

  /** `Agent.rollback` */
  ghost function AfterRollback(s: State, docker: bool, d: Docker, recovery: Docker, lib: Library): (State, Outcome)
    requires Sound(s, lib)
  {
    if s.history == map[] then (s, Refused("no previous revision is available"))
    else
      var r := Newest(s.history.Keys);
      var target := Envelope(s.current.revision + 1, s.history[r].config);
      var a := Switch(s.running, s.current.config, target.config, docker, d, recovery, lib);
      if !a.ok then (s.(running := a.running), Failed(a.recovered))
      else (State(target, s.history - {r}, Rendered(target.config, lib), a.running, s.cache), RolledBack(target))
  }

  // ---------------------------------------------------------------------
  // Names of history files
  // ---------------------------------------------------------------------

  lemma FileNameInjective(a: nat, b: nat)
    requires FileName(a) == FileName(b)
    ensures a == b
  {
    hide Less, Digits, Width, Pow10;
    var x, y := Digits(a, Width(a)), Digits(b, Width(b));
    assert FileName(a) == "revision-" + (x + ".json") && FileName(b) == "revision-" + (y + ".json");
    assert |FileName(a)| == 14 + |x| && |FileName(b)| == 14 + |y|;
    assert FileName(a)[9..9 + |x|] == x && FileName(b)[9..9 + |y|] == y;
    DigitsOrder(a, b, Width(a));
  }

  lemma {:induction false} NewestExists(revisions: set<nat>)
    requires revisions != {}
    ensures exists r :: IsNewest(r, revisions)
    decreases |revisions|
  {
    hide Less, FileName;
    var q :| q in revisions;
    if revisions == {q} {
      assert IsNewest(q, revisions);
    } else {
      NewestExists(revisions - {q});
      var r :| IsNewest(r, revisions - {q});
      assert IsNewest(NewerOf(q, r), revisions) by {
        NewerKeeps(q, r, revisions - {q});
        assert revisions == revisions - {q} + {q};
      }
    }
  }

  function NewerOf(q: nat, r: nat): nat {
    if Less(FileName(r), FileName(q)) then q else r
  }

  lemma NewerKeeps(q: nat, r: nat, revisions: set<nat>)
    requires IsNewest(r, revisions)
    ensures IsNewest(NewerOf(q, r), revisions + {q})
  {
    hide Less, FileName;
    var best := NewerOf(q, r);
    forall p | p in revisions + {q} ensures p == best || Less(FileName(p), FileName(best)) {
      if p == q {
        LessTotal(FileName(q), FileName(r));
        if FileName(q) == FileName(r) {
          FileNameInjective(q, r);
        }
      } else if p != r && Less(FileName(r), FileName(q)) {
        LessTransitive(FileName(p), FileName(r), FileName(q));
      }
    }
  }

  lemma NewestUnique(q: nat, r: nat, revisions: set<nat>)
    requires IsNewest(q, revisions) && IsNewest(r, revisions)
    ensures q == r
  {
    hide Less, FileName;
    if q != r {
      LessAsymmetric(FileName(q), FileName(r));
    }
  }

  /** Below 100000000 the newest file is the one of the largest revision. */
  lemma NewestIsLargest(r: nat, revisions: set<nat>)
    requires r in revisions && r < 100_000_000 && forall q | q in revisions :: q <= r
    ensures Newest(revisions) == r
  {
    hide Less, FileName;
    forall q | q in revisions ensures q == r || Less(FileName(q), FileName(r)) {
      if q < r {
        NameOrderNarrow(q, r);
      }
    }
    NewestUnique(r, Newest(revisions), revisions);
  }

  // ---------------------------------------------------------------------
  // The agent
  // ---------------------------------------------------------------------

  class Agent {
    var current: Envelope
    var history: map<nat, Envelope>
    var files: Files
    var running: Running
    var cache: seq<(string, Reply)>
    const lib: Library
    const docker: bool

    ghost function View(): State
      reads this
    {
      State(current, history, files, running, cache)
    }

    constructor (initial: Config, running: Running, lib: Library, docker: bool)
      requires Lawful(lib) && Usable(Envelope(1, initial), lib)
      ensures View() == State(Envelope(1, initial), map[], Rendered(initial, lib), running, [])
      ensures this.lib == lib && this.docker == docker && Sound(View(), lib)
    {
      current, history, files, cache := Envelope(1, initial), map[], Rendered(initial, lib), [];
      this.running, this.lib, this.docker := running, lib, docker;
    }

    method Render(config: Config) returns (ok: bool)
      requires Listenable(config.management, lib)
      modifies this`files
      ensures ok == Renders(config, lib)
      ensures files == if ok then Rendered(config, lib) else old(files)
    {
      if !Renders(config, lib) {
        return false;
      }
      files := Rendered(config, lib);
      ok := true;
    }

    method ApplyRuntime(services: set<Service>, config: Config, d: Docker) returns (ok: bool)
      modifies this`running
      ensures (running, ok) == Runtime(docker, old(running), files, services, config.relayServer.enabled, d)
    {
      if !docker {
        return true;
      }
      if config.relayServer.enabled && !d.installs {
        return false;
      }
      if !config.relayServer.enabled {
        if d.relayStops {
          running := running - {RelayNode};
        }
        if d.stopRaises {
          return false;
        }
      }
      var selected := Selected(services, config.relayServer.enabled);
      if selected == {} {
        return true;
      }
      if !d.upSucceeds {
        running := Started(running, selected * d.recreated, files) - (selected * d.down);
        return false;
      }
      running := Started(running, selected, files);
      ok := d.healthy;
    }

    /** The `try` and `except` blocks that `apply` and `rollback` share. */
    method Transact(target: Envelope, d: Docker, recovery: Docker) returns (ok: bool, recovered: bool)
      requires Listenable(current.config.management, lib) && Listenable(target.config.management, lib)
      requires Renders(current.config, lib)
      modifies this`current, this`files, this`running
      ensures Attempt(running, ok, recovered) ==
        Switch(old(running), old(current).config, target.config, docker, d, recovery, lib)
      ensures current == if ok then target else old(current)
      ensures files == Rendered(current.config, lib)
    {
      hide Rendered, ChangedServices, Renders, Restarted;
      var before := current;
      current := target;
      ok := Render(target.config);
      if ok {
        ok := ApplyRuntime(ChangedServices(before.config, target.config), target.config, d);
      }
      recovered := true;
      if !ok {
        current := before;
        var _ := Render(before.config);
        recovered := ApplyRuntime(ChangedServices(target.config, before.config), before.config, recovery);
      }
    }

    method Apply(req: Request, d: Docker, recovery: Docker) returns (outcome: Outcome)
      requires Sound(View(), lib)
      modifies this
      ensures (View(), outcome) == AfterApply(old(View()), req, docker, d, recovery, lib)
    {
      hide Validate, Rendered, Lawful, Switch, Lookup;
      if !KeyOk(req.key) {
        return Refused("idempotencyKey");
      }
      var stored := Lookup(cache, req.key.value);
      if stored.Some? {
        return Applied(stored.value);
      }
      if req.expected != Some(current.revision) {
        return Conflict;
      }
      var checked := Validate(req.config, lib);
      if checked.Err? {
        return Refused(checked.error);
      }
      AcceptedListenable(req.config, lib);
      history := history[current.revision := current];
      var updated := Envelope(current.revision + 1, checked.value.value);
      var ok, recovered := Transact(updated, d, recovery);
      if !ok {
        return Failed(recovered);
      }
      var reply := Reply(updated, checked.value.warnings);
      cache := cache + [(req.key.value, reply)];
      if |cache| > CACHE_SIZE {
        cache := cache[1..];
      }
      outcome := Applied(reply);
    }

    method Rollback(d: Docker, recovery: Docker) returns (outcome: Outcome)
      requires Sound(View(), lib)
      modifies this
      ensures (View(), outcome) == AfterRollback(old(View()), docker, d, recovery, lib)
    {
      hide Rendered, Lawful, Switch, Less, FileName;
      if history == map[] {
        return Refused("no previous revision is available");
      }
      var r := PickNewest(history.Keys);
      NewestUnique(r, Newest(history.Keys), history.Keys);
      var target := Envelope(current.revision + 1, history[r].config);
      var ok, recovered := Transact(target, d, recovery);
      if !ok {
        return Failed(recovered);
      }
      history := history - {r};
      outcome := RolledBack(target);
    }
  }

  /** The first entry of the sorted list of names. */
  method PickNewest(revisions: set<nat>) returns (r: nat)
    requires revisions != {}
    ensures IsNewest(r, revisions)
  {
    hide Less, FileName;
    r :| r in revisions;
    var rest := revisions - {r};
    while rest != {}
      invariant rest <= revisions && IsNewest(r, revisions - rest)
    {
      var q :| q in rest;
      NewerKeeps(q, r, revisions - rest);
      assert revisions - rest + {q} == revisions - (rest - {q});
      r := NewerOf(q, r);
      rest := rest - {q};
    }
    assert revisions - rest == revisions;
  }
}
