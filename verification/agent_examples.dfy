/**
 * Requests at which the agent reports more than it achieved, and configurations that show the exceptions of
 * validation.
 */
module AgentExamples {
  import opened Basics
  import opened AgentConfig
  import opened AgentLibrary
  import opened AgentRuntime
  import opened AgentMachine
  import opened AgentRuns

  const URL: string := "https://p"
  const OFF: Client := Client("off", "", 443)
  const KEY: string := "aaaaaaaaaaaaaaaa"

  /** The initial configuration, with the relay off or on. */
  function Setup(relay: bool): Config {
    var c := Example(ExampleManagement(URL, false, "", ""), OFF);
    c.(relayServer := c.relayServer.(enabled := relay))
  }

  lemma SetupIsClean(relay: bool)
    ensures Clean(Setup(relay), Sample())
  {
    hide ManagementOk, ClientOk, Sample;
    UrlFits();
    ExampleManagementOk(URL, false, "", "", Sample());
    OffIsOk(Sample());
    ExampleIsClean(ExampleManagement(URL, false, "", ""), OFF, Sample());
    EffectiveDefined(Setup(relay).management, Sample());
    SetupApart(relay);
  }

  lemma UrlFits()
    ensures UrlAccepted(Sample().url(URL)) && StripSlashes(URL) == URL && |URL| <= 512
  {
    assert URL[..8] == SCHEME && URL[8..] == "p";
  }

  /** The relay and the listener use different ports. */
  lemma SetupApart(relay: bool)
    requires ManagementOk(Setup(relay).management, Sample())
    ensures ConflictFree(Setup(relay), Sample())
  {
    hide Sample, ManagementOk;
    EffectiveDefined(Setup(relay).management, Sample());
  }

  lemma SetupIsAccepted(relay: bool)
    ensures Lawful(Sample())
    ensures var r := Validate(RawOf(Setup(relay), Sample()), Sample()); r.Ok? && r.value.value == Setup(relay)
  {
    hide Sample, Validate, Clean, Lawful, RawOf;
    SampleIsLawful();
    SetupIsClean(relay);
    CleanIsFixed(Setup(relay), Sample());
  }

  lemma {:induction false} DottedEscapable(v: nat)
    requires v < 0x1_0000_0000
    ensures Escapable(Dotted(v))
  {
    hide Dotted;
    DottedText(v);
  }

  lemma SetupRenders(relay: bool)
    ensures Renders(Setup(relay), Sample()) && Listenable(Setup(relay).management, Sample())
  {
    hide Dotted;
    DottedEscapable(0);
    DottedEscapable(0x7F00_0001);
  }

  function AllServices(): set<Service> {
    {Gateway, ZeroTierNode, Ztnet, RelayNode}
  }

  /** The relay is on, and every service runs under the current files. */
  ghost function RelayOn(): State
    requires Listenable(Setup(true).management, Sample())
  {
    var files := Rendered(Setup(true), Sample());
    State(Envelope(1, Setup(true)), map[], files, map s | s in AllServices() :: files, [])
  }

  /** A request to switch the relay off. */
  ghost function SwitchOff(): Request {
    Request(Given(KEY), Some(1), RawOf(Setup(false), Sample()))
  }

  lemma RelayOnSound()
    ensures Listenable(Setup(true).management, Sample())
    ensures Sound(RelayOn(), Sample()) && Coherent(RelayOn().running, Setup(true), Sample())
  {
    hide Sample, Rendered, Renders, Listenable, Lawful;
    SampleIsLawful();
    SetupRenders(true);
  }

  lemma OnlyRelayChanges()
    ensures ChangedServices(Setup(true), Setup(false)) == {RelayNode}
  {
  }

  /** What the request does, whatever Docker does with the stop. */
  lemma SwitchedOff(d: Docker, recovery: Docker)
    requires !d.stopRaises
    ensures Listenable(Setup(true).management, Sample()) && Sound(RelayOn(), Sample())
    ensures Listenable(Setup(false).management, Sample())
    ensures var (s, outcome) := Act(RelayOn(), DoApply(SwitchOff(), d, recovery), true, Sample());
      && outcome.Applied? && s.current == Envelope(2, Setup(false)) && s.files == Rendered(Setup(false), Sample())
      && s.running == if d.relayStops then RelayOn().running - {RelayNode} else RelayOn().running
  {
    hide Sample, Rendered, Renders, Listenable, Lawful, Validate, RawOf, ChangedServices, Setup;
    RelayOnSound();
    SetupRenders(false);
    SetupIsAccepted(false);
    OnlyRelayChanges();
    RelayFlags();
    KeyIsOk();
  }

  lemma RelayFlags()
    ensures Setup(true).relayServer.enabled && !Setup(false).relayServer.enabled
  {
  }

  lemma KeyIsOk()
    ensures KeyOk(Given(KEY))
  {
  }

  /** The relay is switched off, Docker ignores the stop: success is reported, and the relay runs on. */
  lemma StopIsIgnored(recovery: Docker)
    ensures Listenable(Setup(true).management, Sample()) && Sound(RelayOn(), Sample())
    ensures var d := Docker(true, false, false, true, {}, {}, true);
      var (s, outcome) := Act(RelayOn(), DoApply(SwitchOff(), d, recovery), true, Sample());
      && Coherent(RelayOn().running, Setup(true), Sample())
      && outcome.Applied? && s.current.config == Setup(false) && Listenable(Setup(false).management, Sample())
      && !s.current.config.relayServer.enabled && RelayNode in s.running
      && !Coherent(s.running, s.current.config, Sample())
  {
    hide Sample, Rendered, Listenable, Act, Setup, SwitchOff;
    RelayOnSound();
    RelayFlags();
    SwitchedOff(Docker(true, false, false, true, {}, {}, true), recovery);
  }

  /**
   * The relay is switched off and stops: all services are as they should be, but ZTNet's environment is out of date.
   */
  lemma EnvironmentIsStale(recovery: Docker)
    ensures Listenable(Setup(true).management, Sample()) && Sound(RelayOn(), Sample())
    ensures var d := Docker(true, false, true, true, {}, {}, true);
      var (s, outcome) := Act(RelayOn(), DoApply(SwitchOff(), d, recovery), true, Sample());
      && outcome.Applied? && Ztnet in s.running && s.running[Ztnet].env != s.files.env
  {
    hide Sample, Listenable, Act, Setup, SwitchOff, RenderEnv, RenderSites, RenderPorts, RenderLocal,
      EffectiveListeners;
    RelayOnSound();
    RelayFlags();
    SwitchedOff(Docker(true, false, true, true, {}, {}, true), recovery);
    SampleParses();
    OnlyRelayChanges();
    ZtnetEnvironment(Setup(true), Setup(false), Sample());
  }

  // ---------------------------------------------------------------------
  // The exceptions of validation
  // ---------------------------------------------------------------------

  /** An accepted configuration whose sockets overlap. */
  lemma WildcardHappens()
    ensures Lawful(Sample())
    ensures exists raw: RawConfig :: Validate(raw, Sample()).Ok? && Overlapping(Validate(raw, Sample()).value.value)
  {
    hide Sample, Validate, Lawful, RawOf, Example, ExampleManagement, ManagementOk, Apart, Bindings;
    SampleIsLawful();
    UrlFits();
    IsZt();
    WildcardIsAccepted(URL, "zt0", Sample());
    var c := Example(ExampleManagement(URL, true, "zt0", Sample().show(ANYWHERE)), OFF);
    assert Validate(RawOf(c, Sample()), Sample()).Ok? && Overlapping(c);
  }

  lemma IsZt()
    ensures Sample().isInterface("zt0")
  {
  }

  ghost predicate Overlapping(c: Config) {
    ManagementOk(c.management, Sample()) && !Apart(Bindings(c, Sample()))
  }

  function Zone(n: nat): (z: string)
    ensures |z| == n && forall c | c in z :: c == 'z'
  {
    if n == 0 then "" else "z" + Zone(n - 1)
  }

  /** A host that is accepted once and refused the second time. */
  lemma LongHostHappens()
    ensures Lawful(Sample())
    ensures exists raw: RawConfig ::
      Validate(raw, Sample()).Ok? &&
      Validate(RawOf(Validate(raw, Sample()).value.value, Sample()), Sample()) == Err("relayClient.host")
  {
    hide Sample, Validate, Lawful, RawOf;
    SampleIsLawful();
    UrlFits();
    var zone := Zone(250);
    SampleReaches(zone);
    var host := "::%" + zone;
    LongHostIsRefusedLater(URL, V6(0, zone), host, Sample());
  }
}
