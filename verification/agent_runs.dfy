/** What holds over whole runs of the agent. */
module AgentRuns {
  import opened Basics
  import opened AgentConfig
  import opened AgentRuntime
  import opened AgentHistory
  import opened AgentMachine

  datatype Action =
    | DoApply(request: Request, docker: Docker, recovery: Docker)
    | DoRollback(docker: Docker, recovery: Docker)
    | Reboot // the agent process is restarted: files survive, the idempotency cache does not

  ghost function Act(s: State, a: Action, docker: bool, lib: Library): (State, Outcome)
    requires Sound(s, lib)
  {
    match a
    case DoApply(request, d, recovery) => AfterApply(s, request, docker, d, recovery, lib)
    case DoRollback(d, recovery) => AfterRollback(s, docker, d, recovery, lib)
    case Reboot => (s.(cache := []), Refused("restarting"))
  }

  /** The action committed a configuration. */
  ghost predicate Commits(s: State, a: Action, docker: bool, lib: Library)
    requires Sound(s, lib)
  {
    Act(s, a, docker, lib).0.current != s.current
  }

  // ---------------------------------------------------------------------
  // One action
  // ---------------------------------------------------------------------

  lemma ApplySound(s: State, req: Request, docker: bool, d: Docker, recovery: Docker, lib: Library)
    requires Sound(s, lib)
    ensures Sound(AfterApply(s, req, docker, d, recovery, lib).0, lib)
  {
    hide Validate, Rendered, Lawful, Switch, Renders, Lookup, KeyOk, Listenable;
    var checked := Validate(req.config, lib);
    if checked.Ok? {
      AcceptedListenable(req.config, lib);
      SwitchRenders(s.running, s.current.config, checked.value.value, docker, d, recovery, lib);
    }
  }

  lemma RollbackSound(s: State, docker: bool, d: Docker, recovery: Docker, lib: Library)
    requires Sound(s, lib)
    ensures Sound(AfterRollback(s, docker, d, recovery, lib).0, lib)
  {
    hide Rendered, Lawful, Switch, Less, FileName, Listenable, Renders;
  }

  lemma ActSound(s: State, a: Action, docker: bool, lib: Library)
    requires Sound(s, lib)
    ensures Sound(Act(s, a, docker, lib).0, lib)
  {
    hide AfterApply, AfterRollback, Rendered, Lawful;
    match a
    case DoApply(request, d, recovery) => ApplySound(s, request, docker, d, recovery, lib);
    case DoRollback(d, recovery) => RollbackSound(s, docker, d, recovery, lib);
    case Reboot =>
  }

  ghost function Run(s: State, actions: seq<Action>, docker: bool, lib: Library): (r: State)
    requires Sound(s, lib)
    ensures Sound(r, lib)
    decreases |actions|
  {
    if actions == [] then s
    else
      ActSound(s, actions[0], docker, lib);
      Run(Act(s, actions[0], docker, lib).0, actions[1..], docker, lib)
  }

  // ---------------------------------------------------------------------
  // Coherence
  // ---------------------------------------------------------------------

  /** Nothing went wrong that the agent could not repair: every relay stop works, and every recovery succeeds. */
  ghost predicate Orderly(s: State, a: Action, lib: Library)
    requires Sound(s, lib)
  {
    && (a.DoApply? || a.DoRollback? ==> a.docker.relayStops && a.recovery.relayStops)
    && Act(s, a, true, lib).1 != Failed(false)
  }

  ghost predicate AllOrderly(s: State, actions: seq<Action>, lib: Library)
    requires Sound(s, lib)
    decreases |actions|
  {
    actions == [] ||
    (ActSound(s, actions[0], true, lib);
     Orderly(s, actions[0], lib) && AllOrderly(Act(s, actions[0], true, lib).0, actions[1..], lib))
  }

  lemma CoherentIsOutside(running: Running, services: set<Service>, c: Config, lib: Library)
    requires Listenable(c.management, lib) && Coherent(running, c, lib)
    ensures CoherentOutside(running, services, c, lib)
  {
    hide Rendered, ViewOf;
  }

  /** Whether a switch succeeds, or fails and is undone, the services match the configuration that is then current. */
  lemma SwitchCoherent(running: Running, from: Config, to: Config, d: Docker, recovery: Docker, lib: Library)
    requires Listenable(from.management, lib) && Listenable(to.management, lib) && Coherent(running, from, lib)
    requires d.relayStops && recovery.relayStops
    ensures var a := Switch(running, from, to, true, d, recovery, lib);
      (a.ok ==> Coherent(a.running, to, lib)) && (!a.ok && a.recovered ==> Coherent(a.running, from, lib))
  {
    hide Restarted, Rendered, ChangedServices, Coherent, CoherentOutside, Renders, Listenable;
    var forward := Restarted(running, Rendered(to, lib), ChangedServices(from, to), to.relayServer.enabled, d);
    var left := if Renders(to, lib) then forward.0 else running;
    if Renders(to, lib) && forward.1 {
      ChangeOutside(running, from, to, lib);
      RestartRepairs(running, ChangedServices(from, to), to, d, lib);
    } else {
      FailureOutside(running, from, to, Rendered(to, lib), d, lib);
      CoherentIsOutside(running, ChangedServices(to, from), from, lib);
      var back := Restarted(left, Rendered(from, lib), ChangedServices(to, from), from.relayServer.enabled, recovery);
      if back.1 {
        RestartRepairs(left, ChangedServices(to, from), from, recovery, lib);
      }
    }
  }

  lemma ActCoherent(s: State, a: Action, lib: Library)
    requires Sound(s, lib) && Coherent(s.running, s.current.config, lib) && Orderly(s, a, lib)
    ensures var s' := Act(s, a, true, lib).0; Usable(s'.current, lib) && Coherent(s'.running, s'.current.config, lib)
  {
    hide Rendered, Lawful, Switch, Renders, Coherent, Validate, KeyOk, Lookup, Remember, IsNewest, Listenable;
    match a
    case DoApply(request, d, recovery) =>
      var checked := Validate(request.config, lib);
      if checked.Ok? {
        AcceptedListenable(request.config, lib);
        SwitchCoherent(s.running, s.current.config, checked.value.value, d, recovery, lib);
        SwitchRenders(s.running, s.current.config, checked.value.value, true, d, recovery, lib);
      }
    case DoRollback(d, recovery) =>
      if s.history != map[] {
        var r := Newest(s.history.Keys);
        NewestIsMember(s.history.Keys);
        SwitchCoherent(s.running, s.current.config, s.history[r].config, d, recovery, lib);
      }
    case Reboot =>
  }

  lemma NewestIsMember(revisions: set<nat>)
    requires revisions != {}
    ensures Newest(revisions) in revisions
  {
    hide Less, FileName;
  }

  lemma SwitchRenders(running: Running, from: Config, to: Config, docker: bool, d: Docker, recovery: Docker,
      lib: Library)
    requires Listenable(from.management, lib) && Listenable(to.management, lib)
    ensures Switch(running, from, to, docker, d, recovery, lib).ok ==> Renders(to, lib)
  {
    hide Rendered, Runtime, ChangedServices;
  }

  /**
   * Over every orderly run, exactly the required services run (the relay only while it is enabled), and each was last
   * started under files that configure it as the current configuration does.
   */
  lemma {:induction false} RunCoherent(s: State, actions: seq<Action>, lib: Library)
    requires Sound(s, lib) && Coherent(s.running, s.current.config, lib) && AllOrderly(s, actions, lib)
    ensures var t := Run(s, actions, true, lib); Coherent(t.running, t.current.config, lib)
    decreases |actions|
  {
    hide Act, Coherent, Sound, Orderly;
    SoundIsUsable(s, lib);
    if actions != [] {
      ActSound(s, actions[0], true, lib);
      ActCoherent(s, actions[0], lib);
      RunCoherent(Act(s, actions[0], true, lib).0, actions[1..], lib);
    }
    SoundIsUsable(Run(s, actions, true, lib), lib);
  }

  lemma SoundIsUsable(s: State, lib: Library)
    requires Sound(s, lib)
    ensures Listenable(s.current.config.management, lib) && Renders(s.current.config, lib)
  {
  }

  /** A relay that ignores the stop keeps running although it is disabled, and the agent still reports success. */
  lemma IgnoredStop(running: Running, from: Config, to: Config, d: Docker, recovery: Docker, lib: Library)
    requires Listenable(from.management, lib) && Listenable(to.management, lib) && Coherent(running, from, lib) &&
      Renders(to, lib)
    ensures var a := Switch(running, from, to, true, d, recovery, lib);
      a.ok ==> (Coherent(a.running, to, lib) <==> to.relayServer.enabled || !from.relayServer.enabled || d.relayStops)
  {
    hide Restarted, Rendered, ChangedServices, CoherentOutside, Renders, Listenable, ViewOf;
    var forward := Restarted(running, Rendered(to, lib), ChangedServices(from, to), to.relayServer.enabled, d);
    if forward.1 {
      ChangeOutside(running, from, to, lib);
      RestartRepairs(running, ChangedServices(from, to), to, d, lib);
      assert RelayNode in running <==> from.relayServer.enabled;
    }
  }

  /**
   * Applying the current configuration again restarts nothing, so it repairs nothing that a failed recovery left
   * broken.
   */
  lemma ReapplyRestartsNothing(running: Running, c: Config, d: Docker, recovery: Docker, lib: Library)
    requires Listenable(c.management, lib) && Renders(c, lib) && d.installs && !d.stopRaises
    ensures var a := Switch(running, c, c, true, d, recovery, lib);
      a.ok && a.running == if c.relayServer.enabled || !d.relayStops then running else running - {RelayNode}
  {
    hide Rendered, Renders, Listenable;
    assert ChangedServices(c, c) == {};
  }

  // ---------------------------------------------------------------------
  // What one action can do
  // ---------------------------------------------------------------------

  /** An apply that commits: the first and only use of its expected revision. */
  ghost predicate AppliedStep(s: State, req: Request, s': State, outcome: Outcome, lib: Library)
    requires Lawful(lib)
  {
    && KeyOk(req.key) && Lookup(s.cache, req.key.value).None? && req.expected == Some(s.current.revision)
    && Validate(req.config, lib).Ok?
    && s'.current == Envelope(s.current.revision + 1, Validate(req.config, lib).value.value)
    && s'.history == s.history[s.current.revision := s.current]
    && outcome.Applied? && outcome.reply == Reply(s'.current, Validate(req.config, lib).value.warnings)
    && s'.cache == Remember(s.cache, req.key.value, outcome.reply)
  }

  /** An apply that does not: at most a snapshot of the current revision stays behind. */
  ghost predicate IdleStep(s: State, s': State) {
    && s'.current == s.current && s'.cache == s.cache
    && (s'.history == s.history || s'.history == s.history[s.current.revision := s.current])
  }

  lemma ApplyShape(s: State, req: Request, docker: bool, d: Docker, recovery: Docker, lib: Library)
    requires Sound(s, lib)
    ensures var (s', outcome) := AfterApply(s, req, docker, d, recovery, lib);
      AppliedStep(s, req, s', outcome, lib) || IdleStep(s, s')
  {
    hide Validate, Rendered, Lawful, Switch, Lookup, KeyOk, Usable, Remember;
    if Validate(req.config, lib).Ok? {
      AcceptedListenable(req.config, lib);
    }
  }

  ghost predicate RolledBackStep(s: State, s': State) {
    && s.history != map[] && s'.cache == s.cache
    && var r := Newest(s.history.Keys);
      && r in s.history && s'.current == Envelope(s.current.revision + 1, s.history[r].config)
      && s'.history == s.history - {r}
  }

  lemma RollbackShape(s: State, docker: bool, d: Docker, recovery: Docker, lib: Library)
    requires Sound(s, lib)
    ensures var s' := AfterRollback(s, docker, d, recovery, lib).0;
      RolledBackStep(s, s') || (s'.current == s.current && s'.cache == s.cache && s'.history == s.history)
  {
    hide Rendered, Lawful, Switch, Usable, Less, FileName;
  }

  // ---------------------------------------------------------------------
  // History and idempotency
  // ---------------------------------------------------------------------

  /**
   * A state with its past: what each revision held, the requests that took effect, the successes since the last
   * reboot, and whether an apply failed since the last commit.
   */
  datatype World = World(
    state: State, committed: map<nat, Config>, effects: seq<Request>, successes: seq<(string, Reply)>, failed: bool)

  ghost function Begin(s: State): World {
    World(s.(history := map[], cache := []), map[s.current.revision := s.current.config], [], [], false)
  }

  ghost function Next(w: World, a: Action, docker: bool, lib: Library): World
    requires Sound(w.state, lib)
  {
    var (s, outcome) := Act(w.state, a, docker, lib);
    var committed := w.committed[s.current.revision := s.current.config];
    var failed := s.current.revision == w.state.current.revision && (w.failed || (a.DoApply? && outcome.Failed?));
    if a.Reboot? then World(s, committed, w.effects, [], failed)
    else if a.DoApply? && s.current.revision != w.state.current.revision && a.request.key.Given? &&
      outcome.Applied? then
      World(s, committed, w.effects + [a.request], w.successes + [(a.request.key.value, outcome.reply)], failed)
    else World(s, committed, w.effects, w.successes, failed)
  }

  ghost function History(w: World, actions: seq<Action>, docker: bool, lib: Library): (t: World)
    requires Sound(w.state, lib)
    ensures Sound(t.state, lib)
    decreases |actions|
  {
    if actions == [] then w
    else
      ActSound(w.state, actions[0], docker, lib);
      History(Next(w, actions[0], docker, lib), actions[1..], docker, lib)
  }

  ghost predicate RevisionsTrue(w: World) {
    && w.state.current.revision in w.committed && w.committed[w.state.current.revision] == w.state.current.config
    && (forall r | r in w.committed :: r <= w.state.current.revision)
    && (forall r | r in w.state.history :: r in w.committed && w.state.history[r] == Envelope(r, w.committed[r]))
  }

  ghost predicate EffectsOrdered(w: World) {
    && (forall i | 0 <= i < |w.effects| ::
      w.effects[i].expected.Some? && w.effects[i].expected.value < w.state.current.revision)
    && (forall i, j | 0 <= i < j < |w.effects| :: w.effects[i].expected.value < w.effects[j].expected.value)
  }

  /** The last entries of a log. */
  function LastOf<T>(log: seq<T>, n: nat): seq<T> {
    if |log| <= n then log else log[|log| - n..]
  }

  predicate DistinctKeys(cache: seq<(string, Reply)>) {
    forall i, j | 0 <= i < j < |cache| :: cache[i].0 != cache[j].0
  }

  predicate CacheTrue(w: World) {
    w.state.cache == LastOf(w.successes, CACHE_SIZE) && DistinctKeys(w.state.cache)
  }

  /** The history holds the current revision exactly after a failed apply. */
  ghost predicate SnapshotTrue(w: World) {
    && (w.failed <==> w.state.current.revision in w.state.history)
    && forall r | r in w.state.history :: r <= w.state.current.revision
  }

  /** A committed revision, once there, keeps its configuration. */
  predicate Extends(before: map<nat, Config>, after: map<nat, Config>) {
    forall r | r in before :: r in after && after[r] == before[r]
  }

  lemma RevisionsStep(w: World, a: Action, docker: bool, lib: Library)
    requires Sound(w.state, lib) && RevisionsTrue(w)
    ensures RevisionsTrue(Next(w, a, docker, lib)) && Extends(w.committed, Next(w, a, docker, lib).committed)
  {
    hide AfterApply, AfterRollback, AppliedStep, Newest;
    var s, s' := w.state, Act(w.state, a, docker, lib).0;
    HistoryStep(s, a, docker, lib);
    var w' := Next(w, a, docker, lib);
    assert w'.state == s' && w'.committed == w.committed[s'.current.revision := s'.current.config];
  }

  /** The history only gains the current revision; the revision only grows. */
  lemma HistoryStep(s: State, a: Action, docker: bool, lib: Library)
    requires Sound(s, lib)
    ensures var s' := Act(s, a, docker, lib).0;
      && (s'.current == s.current || s'.current.revision == s.current.revision + 1)
      && forall r | r in s'.history ::
        (r in s.history && s'.history[r] == s.history[r]) || (r == s.current.revision && s'.history[r] == s.current)
  {
    hide AfterApply, AfterRollback, Newest, Validate, Lawful, KeyOk, Lookup, Remember, Usable, Rendered;
    match a
    case DoApply(request, d, recovery) => ApplyShape(s, request, docker, d, recovery, lib);
    case DoRollback(d, recovery) => RollbackShape(s, docker, d, recovery, lib);
    case Reboot =>
  }

  lemma EffectsStep(w: World, a: Action, docker: bool, lib: Library)
    requires Sound(w.state, lib) && EffectsOrdered(w)
    ensures EffectsOrdered(Next(w, a, docker, lib))
  {
    hide AfterApply, AfterRollback, Newest, Validate, Lawful, KeyOk, Lookup, Remember, Usable, Rendered;
    HistoryStep(w.state, a, docker, lib);
    if a.DoApply? {
      ApplyShape(w.state, a.request, docker, a.docker, a.recovery, lib);
    }
  }

  /** Only a failed apply leaves a snapshot without a commit. */
  lemma SnapshotShape(s: State, a: Action, docker: bool, lib: Library)
    requires Sound(s, lib)
    ensures var (s', outcome) := Act(s, a, docker, lib);
      s'.current.revision == s.current.revision ==>
        s'.history == if a.DoApply? && outcome.Failed? then s.history[s.current.revision := s.current] else s.history
  {
    hide Validate, Rendered, Lawful, Switch, Lookup, KeyOk, Usable, Remember, Less, FileName;
    if a.DoApply? && Validate(a.request.config, lib).Ok? {
      AcceptedListenable(a.request.config, lib);
    }
  }

  lemma SnapshotStep(w: World, a: Action, docker: bool, lib: Library)
    requires Sound(w.state, lib) && SnapshotTrue(w)
    ensures SnapshotTrue(Next(w, a, docker, lib))
  {
    hide AfterApply, AfterRollback, Lawful, Usable, Rendered;
    HistoryStep(w.state, a, docker, lib);
    SnapshotShape(w.state, a, docker, lib);
    NextState(w, a, docker, lib);
  }

  lemma {:induction false} LookupMisses(cache: seq<(string, Reply)>, key: string)
    requires Lookup(cache, key).None?
    ensures forall i | 0 <= i < |cache| :: cache[i].0 != key
  {
    if cache != [] {
      LookupMisses(cache[1..], key);
      forall i | 0 <= i < |cache| ensures cache[i].0 != key {
        if i > 0 {
          assert cache[1..][i - 1] == cache[i];
        }
      }
    }
  }

  lemma {:induction false} LookupFinds(cache: seq<(string, Reply)>, i: nat)
    requires i < |cache| && DistinctKeys(cache)
    ensures Lookup(cache, cache[i].0) == Some(cache[i].1)
  {
    if i > 0 {
      assert cache[1..][i - 1] == cache[i];
      forall p, q | 0 <= p < q < |cache[1..]| ensures cache[1..][p].0 != cache[1..][q].0 {
        assert cache[1..][p] == cache[p + 1] && cache[1..][q] == cache[q + 1];
      }
      LookupFinds(cache[1..], i - 1);
    }
  }

  lemma RememberKeepsLast(log: seq<(string, Reply)>, key: string, reply: Reply)
    requires DistinctKeys(LastOf(log, CACHE_SIZE)) && Lookup(LastOf(log, CACHE_SIZE), key).None?
    ensures Remember(LastOf(log, CACHE_SIZE), key, reply) == LastOf(log + [(key, reply)], CACHE_SIZE)
    ensures DistinctKeys(LastOf(log + [(key, reply)], CACHE_SIZE))
  {
    hide Lookup;
    var cache := LastOf(log, CACHE_SIZE);
    LookupMisses(cache, key);
    var longer := cache + [(key, reply)];
    assert DistinctKeys(longer);
    assert Remember(cache, key, reply) == LastOf(log + [(key, reply)], CACHE_SIZE);
  }

  lemma CacheStep(w: World, a: Action, docker: bool, lib: Library)
    requires Sound(w.state, lib) && CacheTrue(w)
    ensures CacheTrue(Next(w, a, docker, lib))
  {
    hide AfterApply, AfterRollback, Newest, Validate, Lawful, Lookup, Remember, Usable, Rendered, LastOf, DistinctKeys;
    match a
    case DoApply(request, d, recovery) =>
      ApplyShape(w.state, request, docker, d, recovery, lib);
      var (s', outcome) := AfterApply(w.state, request, docker, d, recovery, lib);
      if AppliedStep(w.state, request, s', outcome, lib) {
        RememberKeepsLast(w.successes, request.key.value, outcome.reply);
      }
    case DoRollback(d, recovery) => RollbackShape(w.state, docker, d, recovery, lib);
    case Reboot => NothingLast();
  }

  lemma NothingLast()
    ensures LastOf<(string, Reply)>([], CACHE_SIZE) == [] && DistinctKeys([])
  {
  }

  ghost predicate Faithful(w: World) {
    RevisionsTrue(w) && EffectsOrdered(w) && CacheTrue(w) && SnapshotTrue(w)
  }

  lemma {:induction false} HistoryFaithful(w: World, actions: seq<Action>, docker: bool, lib: Library)
    requires Sound(w.state, lib) && Faithful(w)
    ensures var t := History(w, actions, docker, lib);
      Sound(t.state, lib) && Faithful(t) && Extends(w.committed, t.committed)
    decreases |actions|
  {
    hide Act, Sound, Next, RevisionsTrue, EffectsOrdered, CacheTrue, SnapshotTrue;
    if actions != [] {
      ActSound(w.state, actions[0], docker, lib);
      NextState(w, actions[0], docker, lib);
      RevisionsStep(w, actions[0], docker, lib);
      EffectsStep(w, actions[0], docker, lib);
      CacheStep(w, actions[0], docker, lib);
      SnapshotStep(w, actions[0], docker, lib);
      HistoryFaithful(Next(w, actions[0], docker, lib), actions[1..], docker, lib);
    }
  }

  lemma NextState(w: World, a: Action, docker: bool, lib: Library)
    requires Sound(w.state, lib)
    ensures Next(w, a, docker, lib).state == Act(w.state, a, docker, lib).0
  {
    hide AfterApply, AfterRollback;
  }

  lemma BeginFaithful(s: State, lib: Library)
    requires Sound(s, lib)
    ensures Sound(Begin(s).state, lib) && Faithful(Begin(s))
  {
    hide Rendered, Lawful, Usable;
  }

  /** In every run, the history entry of revision `r` is the configuration that was committed as revision `r`. */
  lemma HistoryHoldsRevisions(s: State, actions: seq<Action>, docker: bool, lib: Library)
    requires Sound(s, lib)
    ensures Sound(Begin(s).state, lib)
    ensures var w := History(Begin(s), actions, docker, lib);
      forall r | r in w.state.history :: r in w.committed && w.state.history[r] == Envelope(r, w.committed[r])
  {
    hide Sound, Begin, History;
    BeginFaithful(s, lib);
    HistoryFaithful(Begin(s), actions, docker, lib);
  }

  /** In every run, even across evictions and reboots, no request takes effect twice. */
  lemma NoEffectTwice(s: State, actions: seq<Action>, docker: bool, lib: Library)
    requires Sound(s, lib)
    ensures Sound(Begin(s).state, lib)
    ensures var w := History(Begin(s), actions, docker, lib);
      forall i, j | 0 <= i < j < |w.effects| :: w.effects[i] != w.effects[j]
  {
    hide Sound, Begin, History;
    BeginFaithful(s, lib);
    HistoryFaithful(Begin(s), actions, docker, lib);
    var w := History(Begin(s), actions, docker, lib);
    forall i, j | 0 <= i < j < |w.effects| ensures w.effects[i] != w.effects[j] {
      assert w.effects[i].expected.value < w.effects[j].expected.value;
    }
  }

  /** The key of each of the last 256 successes since a reboot answers with the stored result and changes nothing. */
  lemma RepeatIsStored(s: State, actions: seq<Action>, i: nat, req: Request, d: Docker, recovery: Docker,
      docker: bool, lib: Library)
    requires Sound(s, lib)
    requires var w := History(Begin(s), actions, docker, lib);
      i < |w.successes| <= i + CACHE_SIZE && KeyOk(req.key) && req.key.value == w.successes[i].0
    ensures var w := History(Begin(s), actions, docker, lib);
      AfterApply(w.state, req, docker, d, recovery, lib) == (w.state, Applied(w.successes[i].1))
  {
    hide Sound, Begin, History, KeyOk, Lookup, Validate, Switch, Rendered, DistinctKeys;
    BeginFaithful(s, lib);
    HistoryFaithful(Begin(s), actions, docker, lib);
    var w := History(Begin(s), actions, docker, lib);
    var k := if |w.successes| <= CACHE_SIZE then i else i - (|w.successes| - CACHE_SIZE);
    assert w.state.cache[k] == w.successes[i];
    LookupFinds(w.state.cache, k);
  }

  // ---------------------------------------------------------------------
  // Rolling back
  // ---------------------------------------------------------------------

  /** Every action commits, and is of the given kind. */
  ghost predicate AllCommit(s: State, actions: seq<Action>, applies: bool, docker: bool, lib: Library)
    requires Sound(s, lib)
    decreases |actions|
  {
    actions == [] ||
    (ActSound(s, actions[0], docker, lib);
     && actions[0].DoApply? == applies && actions[0].DoRollback? == !applies && Commits(s, actions[0], docker, lib)
     && AllCommit(Act(s, actions[0], docker, lib).0, actions[1..], applies, docker, lib))
  }

  lemma CommittedApply(s: State, a: Action, docker: bool, lib: Library)
    requires Sound(s, lib) && a.DoApply? && Commits(s, a, docker, lib)
    ensures var s' := Act(s, a, docker, lib).0;
      s'.current.revision == s.current.revision + 1 && s'.history == s.history[s.current.revision := s.current]
  {
    hide AfterApply, Validate, Lawful, KeyOk, Lookup, Remember, Usable, Rendered;
    ApplyShape(s, a.request, docker, a.docker, a.recovery, lib);
  }

  /** A committed rollback takes the largest revision in the history, if its name has eight digits. */
  lemma CommittedRollback(s: State, a: Action, r: nat, docker: bool, lib: Library)
    requires Sound(s, lib) && a.DoRollback? && Commits(s, a, docker, lib)
    requires r in s.history && r < 100_000_000 && forall q | q in s.history :: q <= r
    ensures var s' := Act(s, a, docker, lib).0;
      s'.current == Envelope(s.current.revision + 1, s.history[r].config) && s'.history == s.history - {r}
  {
    hide AfterRollback, Newest, Lawful, Usable, Rendered;
    RollbackShape(s, docker, a.docker, a.recovery, lib);
    NewestIsLargest(r, s.history.Keys);
  }

  lemma LargestOf(revisions: set<nat>) returns (r: nat)
    requires revisions != {}
    ensures r in revisions && forall q | q in revisions :: q <= r
    decreases |revisions|
  {
    var p :| p in revisions;
    r := p;
    if q :| q in revisions && q > p {
      r := LargestOf(revisions - {p});
      assert q in revisions - {p};
      forall x | x in revisions ensures x <= r {
        assert x == p || x in revisions - {p};
      }
    }
  }

  /**
   * In every run a committed rollback takes the snapshot of the largest revision in the history. That is the snapshot
   * of the configuration that is current anyway exactly when an apply failed since the last commit.
   */
  lemma RollbackExact(s: State, actions: seq<Action>, b: Action, docker: bool, lib: Library)
    requires Sound(s, lib)
    requires var w := History(Begin(s), actions, docker, lib);
      w.state.current.revision < 100_000_000 && b.DoRollback? && Commits(w.state, b, docker, lib)
    ensures var w := History(Begin(s), actions, docker, lib); var t := Act(w.state, b, docker, lib).0;
      exists r ::
        && IsLargest(r, w.state.history.Keys) && r in w.committed
        && t.current == Envelope(w.state.current.revision + 1, w.committed[r]) && t.history == w.state.history - {r}
        && (r == w.state.current.revision <==> w.failed)
        && (w.failed ==> t.current.config == w.state.current.config)
  {
    hide Sound, Begin, History, Act, Commits;
    BeginFaithful(s, lib);
    HistoryFaithful(Begin(s), actions, docker, lib);
    var w := History(Begin(s), actions, docker, lib);
    CommitNeedsHistory(w.state, b, docker, lib);
    var r := LargestOf(w.state.history.Keys);
    CommittedRollback(w.state, b, r, docker, lib);
    assert IsLargest(r, w.state.history.Keys);
  }

  predicate IsLargest(r: nat, revisions: set<nat>) {
    r in revisions && forall q | q in revisions :: q <= r
  }

  lemma CommitNeedsHistory(s: State, b: Action, docker: bool, lib: Library)
    requires Sound(s, lib) && b.DoRollback? && Commits(s, b, docker, lib)
    ensures s.history != map[]
  {
    hide Lawful, Usable, Rendered, Switch, Less, FileName;
  }

  lemma {:induction false} RunSplit(s: State, first: seq<Action>, second: seq<Action>, docker: bool, lib: Library)
    requires Sound(s, lib)
    ensures Run(s, first + second, docker, lib) == Run(Run(s, first, docker, lib), second, docker, lib)
    decreases |first|
  {
    hide Act, Sound;
    if first == [] {
      assert first + second == second;
    } else {
      ActSound(s, first[0], docker, lib);
      assert (first + second)[1..] == first[1..] + second;
      RunSplit(Act(s, first[0], docker, lib).0, first[1..], second, docker, lib);
    }
  }

  lemma {:induction false} CommitSplit(s: State, first: seq<Action>, last: Action, applies: bool, docker: bool,
      lib: Library)
    requires Sound(s, lib) && AllCommit(s, first + [last], applies, docker, lib)
    ensures AllCommit(s, first, applies, docker, lib)
    ensures var t := Run(s, first, docker, lib);
      last.DoApply? == applies && last.DoRollback? == !applies && Commits(t, last, docker, lib)
    decreases |first|
  {
    hide Act, Sound, Commits;
    if first != [] {
      ActSound(s, first[0], docker, lib);
      assert (first + [last])[1..] == first[1..] + [last];
      CommitSplit(Act(s, first[0], docker, lib).0, first[1..], last, applies, docker, lib);
    }
  }

  /**
   * As many rollbacks as applies restore the configuration and leave the earlier history alone; the revision only
   * grows. (Up to revision 100000000, where the names of the history files stop sorting by revision.)
   */
  lemma {:induction false} AppliesUndone(s: State, applies: seq<Action>, rollbacks: seq<Action>, docker: bool,
      lib: Library)
    requires Sound(s, lib) && |applies| == |rollbacks| && s.current.revision + |applies| <= 100_000_000
    requires AllCommit(s, applies, true, docker, lib) &&
      AllCommit(Run(s, applies, docker, lib), rollbacks, false, docker, lib)
    ensures var t := Run(s, applies + rollbacks, docker, lib);
      && t.current == Envelope(s.current.revision + 2 * |applies|, s.current.config)
      && t.history == if applies == [] then s.history else s.history - {s.current.revision}
    decreases |applies|
  {
    hide Act, Sound, Commits;
    var k := |applies|;
    if k == 0 {
      assert applies + rollbacks == [];
    } else {
      var s1 := Act(s, applies[0], docker, lib).0;
      ActSound(s, applies[0], docker, lib);
      CommittedApply(s, applies[0], docker, lib);
      var most, last := rollbacks[..k - 1], rollbacks[k - 1];
      assert rollbacks == most + [last];
      CommitSplit(Run(s, applies, docker, lib), most, last, false, docker, lib);
      AppliesUndone(s1, applies[1..], most, docker, lib);
      RunSplit(s1, applies[1..], most, docker, lib);
      var t1 := Run(s1, applies[1..] + most, docker, lib);
      LastRollback(s, s1, t1, last, docker, lib);
      RunOne(t1, last, docker, lib);
      RunSplit(s, applies, most, docker, lib);
      RunSplit(s, applies + most, [last], docker, lib);
      assert (applies + most) + [last] == applies + rollbacks;
    }
  }

  lemma RunOne(s: State, a: Action, docker: bool, lib: Library)
    requires Sound(s, lib)
    ensures Run(s, [a], docker, lib) == Act(s, a, docker, lib).0
  {
    hide Act, Sound;
    ActSound(s, a, docker, lib);
    RunNone(Act(s, a, docker, lib).0, docker, lib);
  }

  lemma RunNone(s: State, docker: bool, lib: Library)
    requires Sound(s, lib)
    ensures Run(s, [], docker, lib) == s
  {
  }

  lemma LastRollback(s: State, s1: State, t: State, last: Action, docker: bool, lib: Library)
    requires Sound(s, lib) && Sound(t, lib) && s.current.revision < 100_000_000
    requires s1.history == s.history[s.current.revision := s.current] && s1.current.revision == s.current.revision + 1
    requires t.history == s1.history || t.history == s1.history - {s1.current.revision}
    requires last.DoRollback? && Commits(t, last, docker, lib)
    ensures var u := Act(t, last, docker, lib).0;
      u.current == Envelope(t.current.revision + 1, s.current.config) && u.history == s.history - {s.current.revision}
  {
    hide Act, Commits, Lawful, Usable, Rendered;
    assert s1.current.revision !in s1.history;
    assert t.history == s1.history;
    CommittedRollback(t, last, s.current.revision, docker, lib);
    assert s1.history - {s.current.revision} == s.history - {s.current.revision};
  }
}
