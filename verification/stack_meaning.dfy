/** What the generated files make the services do, and what therefore holds of the running stack. */
module StackMeaning {
  import opened Basics
  import opened AgentConfig
  import opened AgentRuntime
  import opened AgentMachine
  import opened AgentRuns
  import AddressBits
  import RelaySlots
  import RelayRate
  import Lockout

  // ---------------------------------------------------------------------
  // The gateway
  // ---------------------------------------------------------------------

  predicate Contains(n: Net, ip: Ip) {
    && SameVersion(n.base, ip)
    && var size := AddressBits.Pow2(n.base.Width() - n.prefix); ip.value / size == n.base.value / size
  }

  /** `@blocked not remote_ip` with an empty list blocks nobody. */
  predicate Admits(allowed: seq<Net>, client: Ip) {
    allowed == [] || exists i | 0 <= i < |allowed| :: Contains(allowed[i], client)
  }

  /** A client that connects to `at` and `port` is served, in this TLS mode, with or without the controller's API. */
  predicate Served(sites: seq<Site>, at: Ip, port: int, client: Ip, tlsMode: string, controller: bool) {
    exists i | 0 <= i < |sites| ::
      && Receives(Binding(sites[i].address, sites[i].port), at, port) && Admits(sites[i].allowed, client)
      && sites[i].tlsMode == tlsMode && sites[i].proxiesController == controller
  }

  /** The same, as the administrator configured it. */
  predicate Permitted(ls: seq<Listener>, at: Ip, port: int, client: Ip, tlsMode: string) {
    exists i | 0 <= i < |ls| ::
      Receives(BindingOf(ls[i]), at, port) && Admits(ls[i].allowedCidrs, client) && ls[i].tlsMode == tlsMode
  }

  lemma {:induction false} SitesAre(ls: seq<Listener>, https: bool)
    ensures var sites := RenderSites(ls, https);
      |sites| == |ls| && forall i | 0 <= i < |ls| ::
        sites[i] == Site(ls[i].tlsMode, ls[i].address, ls[i].port, ls[i].allowedCidrs, https)
  {
    if ls != [] {
      SitesAre(ls[1..], https);
    }
  }

  /**
   * A client is served exactly if an effective listener takes its connection and permits its address, in the TLS mode
   * of that listener, and the controller's API is behind it exactly if the exposure is `https`.
   */
  lemma GatewayServes(
      c: Config, lib: Library, at: Ip, port: int, client: Ip, tlsMode: string, controller: bool)
    requires Listenable(c.management, lib)
    ensures Served(Rendered(c, lib).caddy, at, port, client, tlsMode, controller) <==>
      Permitted(EffectiveListeners(c.management, lib), at, port, client, tlsMode) &&
      controller == (c.controller.exposure == "https")
  {
    hide EffectiveListeners, RenderSites, RenderEnv, RenderLocal, RenderClient, RenderPorts, Admits;
    var ls, sites := EffectiveListeners(c.management, lib), Rendered(c, lib).caddy;
    SitesAre(ls, c.controller.exposure == "https");
    if Served(sites, at, port, client, tlsMode, controller) {
      var i :| 0 <= i < |sites| && Receives(Binding(sites[i].address, sites[i].port), at, port) &&
        Admits(sites[i].allowed, client) && sites[i].tlsMode == tlsMode && sites[i].proxiesController == controller;
      assert Receives(BindingOf(ls[i]), at, port);
    }
    if Permitted(ls, at, port, client, tlsMode) && controller == (c.controller.exposure == "https") {
      var i :| 0 <= i < |ls| && Receives(BindingOf(ls[i]), at, port) && Admits(ls[i].allowedCidrs, client) &&
        ls[i].tlsMode == tlsMode;
      assert Receives(Binding(sites[i].address, sites[i].port), at, port);
    }
  }

  /**
   * The effective listeners are the configured ones and at most one more. That one has the ZeroTier address and
   * everything else from the first listener, and is there only if no configured one takes connections to that address.
   */
  lemma EffectiveExact(m: Management, lib: Library, l: Listener)
    requires ParsesWhatItShows(lib) && ManagementOk(m, lib) && Listenable(m, lib)
    ensures l in EffectiveListeners(m, lib) <==>
      || l in m.listeners
      || (&& m.allowZeroTier && m.zeroTierAddress != "" && lib.literal(m.zeroTierAddress) == Some(l.address)
          && l == m.listeners[0].(address := l.address)
          && forall k | k in m.listeners :: !Receives(BindingOf(k), l.address, k.port))
  {
    hide ListenersOk, UrlAccepted, StripSlashes;
    if m.allowZeroTier && m.zeroTierAddress != "" {
      var selected := lib.literal(m.zeroTierAddress).value;
      forall k | k in m.listeners
        ensures Receives(BindingOf(k), selected, k.port) <==>
          lib.show(k.address) == m.zeroTierAddress || (Unspecified(k.address) && SameVersion(k.address, selected))
      {
        if lib.show(k.address) == m.zeroTierAddress {
          ShowIsInjective(k.address, selected, lib);
        }
      }
      assert Covered(m, selected, lib) <==> exists k | k in m.listeners :: Receives(BindingOf(k), selected, k.port);
    }
  }

  // ---------------------------------------------------------------------
  // Published ports, the node and its relay
  // ---------------------------------------------------------------------

  /** Which port of the host leads to which port of the node's container. */
  lemma PortsExact(c: Config, lib: Library, host: Ip, outer: int, inner: int)
    requires Listenable(c.management, lib)
    ensures var ports := Rendered(c, lib).compose.ztPorts;
      Udp(host, outer, inner) in ports <==>
        && c.zerotier.enabled && host == c.zerotier.bindAddress
        && ((outer == c.zerotier.publicPort && inner == 9993) ||
            (outer == inner != 0 && outer in {c.zerotier.secondaryPort, c.zerotier.tertiaryPort}))
    ensures Tcp(host, outer, inner) in Rendered(c, lib).compose.ztPorts <==>
      c.controller.exposure == "direct" && host == c.controller.bindAddress && outer == c.controller.port &&
        inner == 9993
    ensures Rendered(c, lib).compose.relayPort == Tcp(c.relayServer.bindAddress, c.relayServer.port, 4443)
  {
    hide EffectiveListeners, RenderSites, RenderEnv, RenderLocal, RenderClient;
  }

  /** The relay mode as the node's settings tell it. */
  function ModeIn(conf: ClientConf): string {
    if !conf.allowFallback then "off"
    else if conf.relay.None? then "official-auto"
    else if conf.force then "custom-force"
    else "custom-auto"
  }

  /**
   * The node's settings, in its own file and in the one for clients: the mode can be read back, a relay is named
   * exactly in the custom modes and is the configured one, it is forced exactly in one mode, and a port is set exactly
   * if it is not zero.
   */
  lemma NodeSettings(c: Config, lib: Library)
    requires Clean(c, lib) && Listenable(c.management, lib)
    ensures var f := Rendered(c, lib);
      && f.local.client == f.client && ModeIn(f.client) == c.relayClient.mode
      && (f.client.force <==> c.relayClient.mode == "custom-force")
      && (forall host, port :: f.client.relay == Some((host, port)) <==>
            c.relayClient.mode in {"custom-auto", "custom-force"} &&
              (host, port) == (c.relayClient.host, c.relayClient.port))
      && (forall p :: f.local.secondary == Some(p) <==> p == c.zerotier.secondaryPort != 0)
      && (forall p :: f.local.tertiary == Some(p) <==> p == c.zerotier.tertiaryPort != 0)
      && f.local.allowSecondary == c.zerotier.allowSecondaryPort && f.local.portMapping == c.zerotier.portMappingEnabled
  {
    hide EffectiveListeners, RenderSites, RenderEnv, RenderPorts, ManagementOk, ZeroTierOk, ControllerOk, RelayOk;
    hide ConflictFree, HostOk;
  }

  // ---------------------------------------------------------------------
  // What the relay reads
  // ---------------------------------------------------------------------

  /** `Config` of the relay, without the addresses it listens on inside its container. */
  datatype RelayConfig = RelayConfig(
    allowed: seq<Net>, maxConnections: int, maxPerIp: int, handshake: int, idle: int, packets: int, bytes: int,
    globalPackets: int, globalBytes: int, maxDestinations: int, minPort: int, maxFrame: int)

  const USIZE_MAX: int := RelayRate.U64_MAX
  const U16_MAX: int := 65535

  /** `env_number`: a missing variable has its default, and a value that does not fit the type is an error. */
  function EnvNumber(env: Env, v: Variable, default: int, max: int): Fallible<int, Variable> {
    if v !in env then Ok(default)
    else if env[v].Number? && 0 <= env[v].number <= max then Ok(env[v].number)
    else Err(v)
  }

  function EnvCidrs(env: Env): Fallible<seq<Net>, Variable> {
    if RELAY_ALLOWED_CIDRS !in env then Ok([])
    else if env[RELAY_ALLOWED_CIDRS].Nets? && forall n | n in env[RELAY_ALLOWED_CIDRS].nets :: n.base.V4?
    then Ok(env[RELAY_ALLOWED_CIDRS].nets)
    else Err(RELAY_ALLOWED_CIDRS)
  }

  /** `Config::from_env`; the agent never sets the frame length. */
  function FromEnv(env: Env): Fallible<RelayConfig, Variable> {
    var allowed :- EnvCidrs(env);
    var connections :- EnvNumber(env, RELAY_MAX_CONNECTIONS, 128, USIZE_MAX);
    var perIp :- EnvNumber(env, RELAY_MAX_CONNECTIONS_PER_IP, 4, USIZE_MAX);
    var handshake :- EnvNumber(env, RELAY_HANDSHAKE_TIMEOUT_SECONDS, 10, RelayRate.U64_MAX);
    var idle :- EnvNumber(env, RELAY_IDLE_TIMEOUT_SECONDS, 300, RelayRate.U64_MAX);
    var packets :- EnvNumber(env, RELAY_PACKETS_PER_SECOND, 200, RelayRate.U64_MAX);
    var bytes :- EnvNumber(env, RELAY_BYTES_PER_SECOND, 2_097_152, RelayRate.U64_MAX);
    var allPackets :- EnvNumber(env, RELAY_GLOBAL_PACKETS_PER_SECOND, 2_000, RelayRate.U64_MAX);
    var allBytes :- EnvNumber(env, RELAY_GLOBAL_BYTES_PER_SECOND, 20_971_520, RelayRate.U64_MAX);
    var destinations :- EnvNumber(env, RELAY_MAX_DESTINATIONS, 64, USIZE_MAX);
    var minPort :- EnvNumber(env, RELAY_MIN_DESTINATION_PORT, 1025, U16_MAX);
    if connections == 0 || perIp == 0 || destinations == 0 then Err(RELAY_MAX_CONNECTIONS)
    else
      Ok(RelayConfig(allowed, connections, perIp, handshake, idle, packets, bytes, allPackets, allBytes, destinations,
                     minPort, 4096))
  }

  /** The relay section, as the relay itself would hold it. */
  function Intended(r: Relay): RelayConfig {
    RelayConfig(
      r.allowedSourceCidrs, r.maxConnections, r.maxConnectionsPerIp, r.handshakeTimeoutSeconds, r.idleTimeoutSeconds,
      r.packetsPerSecond, r.bytesPerSecond, r.globalPacketsPerSecond, r.globalBytesPerSecond, r.maxDestinations,
      r.minDestinationPort, 4096)
  }

  lemma FromRelayEnv(r: Relay, lib: Library)
    requires RelayOk(r)
    ensures FromEnv(RenderRelayEnv(r, lib)) == Ok(Intended(r))
  {
  }

  lemma NumberRestricted(env: Env, v: Variable, default: int, max: int)
    requires v in RELAY_VARIABLES
    ensures EnvNumber(Restrict(env, RELAY_VARIABLES), v, default, max) == EnvNumber(env, v, default, max)
  {
  }

  lemma CidrsRestricted(env: Env)
    ensures EnvCidrs(Restrict(env, RELAY_VARIABLES)) == EnvCidrs(env)
  {
  }

  lemma FromRestricted(env: Env)
    ensures FromEnv(Restrict(env, RELAY_VARIABLES)) == FromEnv(env)
  {
    hide Restrict, EnvNumber, EnvCidrs;
    CidrsRestricted(env);
    NumberRestricted(env, RELAY_MAX_CONNECTIONS, 128, USIZE_MAX);
    NumberRestricted(env, RELAY_MAX_CONNECTIONS_PER_IP, 4, USIZE_MAX);
    NumberRestricted(env, RELAY_HANDSHAKE_TIMEOUT_SECONDS, 10, RelayRate.U64_MAX);
    NumberRestricted(env, RELAY_IDLE_TIMEOUT_SECONDS, 300, RelayRate.U64_MAX);
    NumberRestricted(env, RELAY_PACKETS_PER_SECOND, 200, RelayRate.U64_MAX);
    NumberRestricted(env, RELAY_BYTES_PER_SECOND, 2_097_152, RelayRate.U64_MAX);
    NumberRestricted(env, RELAY_GLOBAL_PACKETS_PER_SECOND, 2_000, RelayRate.U64_MAX);
    NumberRestricted(env, RELAY_GLOBAL_BYTES_PER_SECOND, 20_971_520, RelayRate.U64_MAX);
    NumberRestricted(env, RELAY_MAX_DESTINATIONS, 64, USIZE_MAX);
    NumberRestricted(env, RELAY_MIN_DESTINATION_PORT, 1025, U16_MAX);
  }

  /** The relay accepts every environment that the agent renders, with exactly the configured limits. */
  lemma RelayReads(c: Config, lib: Library)
    requires RelayOk(c.relayServer)
    ensures FromEnv(RenderEnv(c, lib)) == Ok(Intended(c.relayServer))
  {
    hide RenderEnv, RenderRelayEnv, FromEnv, Restrict, RelayOk, Intended;
    EnvParts(c, lib);
    FromRestricted(RenderEnv(c, lib));
    FromRelayEnv(c.relayServer, lib);
  }

  /** The limits are ones for which the relay's own guarantees hold: slots, and counters that cannot wrap. */
  lemma RelayIsSafe(r: Relay)
    requires RelayOk(r)
    ensures var cfg := Intended(r);
      && RelaySlots.Config(cfg.maxConnections, cfg.maxPerIp).maxPerIp >= 1
      && RelayRate.Roomy(RelayRate.Limits(cfg.packets, cfg.bytes))
      && RelayRate.Roomy(RelayRate.Limits(cfg.globalPackets, cfg.globalBytes))
  {
  }

  /** ZTNet's lockout works with the configured number of attempts and cooldown. */
  lemma LoginReads(c: Config, lib: Library)
    requires ManagementOk(c.management, lib)
    ensures var env := RenderEnv(c, lib);
      Lockout.SettingsFrom(
        Some(NumberIn(env, ZTPLANET_LOGIN_ATTEMPTS)), Some(NumberIn(env, ZTPLANET_LOGIN_LOCKOUT_SECONDS))) ==
      Lockout.Settings(c.management.loginAttempts, c.management.loginLockoutSeconds * 1000)
  {
    hide RenderEnv, UrlAccepted, StripSlashes, ListenersOk;
    SiteReads(c, lib);
  }

  // ---------------------------------------------------------------------
  // Warnings
  // ---------------------------------------------------------------------

  lemma {:induction false} ListenerWarned(ls: seq<Listener>, w: Warning, lib: Library)
    ensures w in AllListenerWarnings(ls, lib) <==> exists i | 0 <= i < |ls| :: w in ListenerWarnings(ls[i], lib)
  {
    hide ListenerWarnings;
    if ls != [] {
      var front, last := ls[..|ls| - 1], ls[|ls| - 1];
      ListenerWarned(front, w, lib);
      if w in AllListenerWarnings(front, lib) {
        var i :| 0 <= i < |front| && w in ListenerWarnings(front[i], lib);
        assert w in ListenerWarnings(ls[i], lib);
      }
      if exists i | 0 <= i < |ls| :: w in ListenerWarnings(ls[i], lib) {
        var i :| 0 <= i < |ls| && w in ListenerWarnings(ls[i], lib);
        assert i < |front| ==> w in ListenerWarnings(front[i], lib);
      }
    }
  }

  /** What a warning is about, as the configuration shows it. */
  ghost predicate Deserved(w: Warning, c: Config, lib: Library) {
    var m, u := c.management, lib.url(c.management.publicUrl);
    match w
    case EveryInterface(at, port) => exists l | l in m.listeners :: (at, port) == (l.address, l.port) && at.value == 0
    case PublicAddress(at, port) =>
      exists l | l in m.listeners ::
        (at, port) == (l.address, l.port) && at.value != 0 && !lib.isPrivate(at) && !lib.isLoopback(at)
    case ClearText(at, port) => exists l | l in m.listeners :: (at, port) == (l.address, l.port) && l.tlsMode == "off"
    case NoSourceRestriction(at, port) =>
      exists l | l in m.listeners :: (at, port) == (l.address, l.port) && l.allowedCidrs == [] && !lib.isLoopback(at)
    case UrlPortNotListed => forall l | l in m.listeners :: l.port != PublicPort(u)
    case HttpsWithoutTls =>
      u.scheme == "https" && forall l | l in m.listeners && l.port == PublicPort(u) :: l.tlsMode == "off"
    case AddsListener => m.allowZeroTier && forall l | l in m.listeners :: lib.show(l.address) != m.zeroTierAddress
    case ControllerExposed => c.controller.exposure == "direct"
    case ControllerOverClearText => c.controller.exposure == "https" && exists l | l in m.listeners ::
      l.tlsMode == "off"
    case RelayOpen => c.relayServer.enabled && c.relayServer.allowedSourceCidrs == []
    case RelayPublic =>
      c.relayServer.enabled && (c.relayServer.bindAddress.value == 0 ||
        (!lib.isPrivate(c.relayServer.bindAddress) && !lib.isLoopback(c.relayServer.bindAddress)))
    case ForcesRelay => c.relayClient.mode == "custom-force"
  }

  predicate AboutListener(w: Warning) {
    w.EveryInterface? || w.PublicAddress? || w.ClearText? || w.NoSourceRestriction?
  }

  lemma OneListenerWarned(l: Listener, w: Warning, lib: Library)
    ensures w in ListenerWarnings(l, lib) ==> AboutListener(w) && w.at == l.address && w.port == l.port
    ensures AboutListener(w) && w.at == l.address && w.port == l.port ==>
      (w in ListenerWarnings(l, lib) <==>
        match w
        case EveryInterface(at, _) => at.value == 0
        case PublicAddress(at, _) => at.value != 0 && !lib.isPrivate(at) && !lib.isLoopback(at)
        case ClearText(_, _) => l.tlsMode == "off"
        case NoSourceRestriction(at, _) => l.allowedCidrs == [] && !lib.isLoopback(at)
        case _ => false)
  {
  }

  lemma ListenersWarned(w: Warning, c: Config, lib: Library)
    ensures w in AllListenerWarnings(c.management.listeners, lib) <==> AboutListener(w) && Deserved(w, c, lib)
  {
    hide ListenerWarnings, AllListenerWarnings, PublicPort;
    var ls := c.management.listeners;
    ListenerWarned(ls, w, lib);
    forall l | l in ls ensures w in ListenerWarnings(l, lib) ==> AboutListener(w) && Deserved(w, c, lib) {
      OneListenerWarned(l, w, lib);
    }
    if AboutListener(w) && Deserved(w, c, lib) {
      forall l | l in ls && w.at == l.address && w.port == l.port
        ensures (w.EveryInterface? || w.PublicAddress? || (w.ClearText? && l.tlsMode == "off") ||
                 (w.NoSourceRestriction? && l.allowedCidrs == [])) ==> w in ListenerWarnings(l, lib)
      {
        OneListenerWarned(l, w, lib);
      }
      var l :| l in ls && w in ListenerWarnings(l, lib);
      var i :| 0 <= i < |ls| && ls[i] == l;
    }
  }

  predicate AboutAccess(w: Warning) {
    w.UrlPortNotListed? || w.HttpsWithoutTls? || w.AddsListener?
  }

  predicate AboutServices(w: Warning) {
    w.ControllerExposed? || w.ControllerOverClearText? || w.RelayOpen? || w.RelayPublic? || w.ForcesRelay?
  }

  lemma AccessWarned(w: Warning, c: Config, lib: Library)
    ensures var m := c.management;
      (w in UrlWarnings(lib.url(m.publicUrl), m.listeners) ||
       w in AccessWarnings(m.allowZeroTier, m.zeroTierAddress, m.listeners, lib)) <==>
      AboutAccess(w) && Deserved(w, c, lib)
  {
    hide PublicPort;
  }

  lemma ServicesWarned(w: Warning, c: Config, lib: Library)
    ensures
      (w in ControllerWarnings(c.controller, c.management.listeners) || w in RelayWarnings(c.relayServer, lib) ||
       w in ClientWarnings(c.relayClient)) <==>
      AboutServices(w) && Deserved(w, c, lib)
  {
    hide PublicPort;
  }

  /** Every warning is given exactly when the configuration deserves it. */
  lemma WarningsExact(w: Warning, c: Config, lib: Library)
    ensures w in Warnings(c, lib) <==> Deserved(w, c, lib)
  {
    hide AllListenerWarnings, UrlWarnings, AccessWarnings, ControllerWarnings, RelayWarnings, ClientWarnings, Deserved;
    ListenersWarned(w, c, lib);
    AccessWarned(w, c, lib);
    ServicesWarned(w, c, lib);
    assert AboutListener(w) || AboutAccess(w) || AboutServices(w);
  }

  lemma SomeoneAdmitted(allowed: seq<Net>) returns (client: Ip)
    ensures Admits(allowed, client)
  {
    client := ANYWHERE;
    if allowed != [] {
      client := allowed[0].base;
      assert Contains(allowed[0], client);
    }
  }

  /** The controller's API is warned about exactly if some client can reach it through the gateway without TLS. */
  lemma ClearTextMeans(c: Config, lib: Library)
    requires Listenable(c.management, lib)
    ensures ControllerOverClearText in Warnings(c, lib) <==>
      exists at, port, client :: Served(Rendered(c, lib).caddy, at, port, client, "off", true)
  {
    hide Warnings, Served, Rendered, Admits;
    WarningsExact(ControllerOverClearText, c, lib);
    var ls := EffectiveListeners(c.management, lib);
    if exists at, port, client :: Served(Rendered(c, lib).caddy, at, port, client, "off", true) {
      var at, port, client :| Served(Rendered(c, lib).caddy, at, port, client, "off", true);
      GatewayServes(c, lib, at, port, client, "off", true);
      var i :| 0 <= i < |ls| && ls[i].tlsMode == "off";
      assert ls[i] in c.management.listeners || ls[i].tlsMode == c.management.listeners[0].tlsMode;
    }
    if Deserved(ControllerOverClearText, c, lib) {
      var l :| l in c.management.listeners && l.tlsMode == "off";
      assert l in ls;
      var i :| 0 <= i < |ls| && ls[i] == l;
      var client := SomeoneAdmitted(l.allowedCidrs);
      assert Receives(BindingOf(ls[i]), l.address, l.port);
      assert Permitted(ls, l.address, l.port, client, "off");
      GatewayServes(c, lib, l.address, l.port, client, "off", true);
    }
  }

  /**
   * The warning that a listener is added is given too often: one is added if and only if the warning is given and no
   * wildcard listener covers the address.
   */
  lemma AddsListenerMeans(m: Management, c: Config, lib: Library)
    requires m == c.management && ManagementOk(m, lib) && Listenable(m, lib) && m.zeroTierAddress != ""
    ensures |EffectiveListeners(m, lib)| > |m.listeners| <==>
      && m.allowZeroTier && AddsListener in Warnings(c, lib)
      && forall l | l in m.listeners ::
           !(Unspecified(l.address) && SameVersion(l.address, lib.literal(m.zeroTierAddress).value))
  {
    hide Warnings, ListenersOk, UrlAccepted, StripSlashes;
    WarningsExact(AddsListener, c, lib);
  }

  // ---------------------------------------------------------------------
  // Whole runs
  // ---------------------------------------------------------------------

  /** Every configuration the agent holds came out of validation. */
  ghost predicate AllClean(s: State, lib: Library) {
    Clean(s.current.config, lib) && forall r | r in s.history :: Clean(s.history[r].config, lib)
  }

  lemma ActClean(s: State, a: Action, docker: bool, lib: Library)
    requires Sound(s, lib) && AllClean(s, lib)
    ensures AllClean(Act(s, a, docker, lib).0, lib)
  {
    hide AfterApply, AfterRollback, Newest, Validate, Lawful, KeyOk, Lookup, Remember, Usable, Rendered, Clean;
    match a
    case DoApply(request, d, recovery) =>
      ApplyShape(s, request, docker, d, recovery, lib);
      AcceptedIsClean(request.config, lib);
    case DoRollback(d, recovery) => RollbackShape(s, docker, d, recovery, lib);
    case Reboot =>
  }

  lemma {:induction false} RunClean(s: State, actions: seq<Action>, docker: bool, lib: Library)
    requires Sound(s, lib) && AllClean(s, lib)
    ensures AllClean(Run(s, actions, docker, lib), lib)
    decreases |actions|
  {
    hide Act, Sound, AllClean;
    if actions != [] {
      ActSound(s, actions[0], docker, lib);
      ActClean(s, actions[0], docker, lib);
      RunClean(Act(s, actions[0], docker, lib).0, actions[1..], docker, lib);
    }
  }

  /** The running services do what configuration `c` says. */
  ghost predicate DoesAsTold(running: Running, c: Config, lib: Library)
    requires Listenable(c.management, lib)
  {
    && Gateway in running && Ztnet in running && ZeroTierNode in running
    && (forall at, port, client, tlsMode, controller ::
          Served(running[Gateway].caddy, at, port, client, tlsMode, controller) <==>
            Permitted(EffectiveListeners(c.management, lib), at, port, client, tlsMode) &&
            controller == (c.controller.exposure == "https"))
    && (RelayNode in running <==> c.relayServer.enabled)
    && (RelayNode in running ==> FromEnv(running[RelayNode].env) == Ok(Intended(c.relayServer)))
    && ModeIn(running[ZeroTierNode].local.client) == c.relayClient.mode
    && Lockout.SettingsFrom(
         Some(NumberIn(running[Ztnet].env, ZTPLANET_LOGIN_ATTEMPTS)),
         Some(NumberIn(running[Ztnet].env, ZTPLANET_LOGIN_LOCKOUT_SECONDS))) ==
       Lockout.Settings(c.management.loginAttempts, c.management.loginLockoutSeconds * 1000)
  }

  lemma SameLogin(x: Env, y: Env)
    requires Restrict(x, ZTNET_VARIABLES) == Restrict(y, ZTNET_VARIABLES)
    ensures NumberIn(x, ZTPLANET_LOGIN_ATTEMPTS) == NumberIn(y, ZTPLANET_LOGIN_ATTEMPTS)
    ensures NumberIn(x, ZTPLANET_LOGIN_LOCKOUT_SECONDS) == NumberIn(y, ZTPLANET_LOGIN_LOCKOUT_SECONDS)
  {
    hide Restrict;
    RestrictReads(x, ZTNET_VARIABLES, ZTPLANET_LOGIN_ATTEMPTS);
    RestrictReads(y, ZTNET_VARIABLES, ZTPLANET_LOGIN_ATTEMPTS);
    RestrictReads(x, ZTNET_VARIABLES, ZTPLANET_LOGIN_LOCKOUT_SECONDS);
    RestrictReads(y, ZTNET_VARIABLES, ZTPLANET_LOGIN_LOCKOUT_SECONDS);
  }

  lemma CoherentMeans(running: Running, c: Config, lib: Library)
    requires Listenable(c.management, lib) && Clean(c, lib) && Coherent(running, c, lib)
    ensures DoesAsTold(running, c, lib)
  {
    hide Rendered, Served, Permitted, EffectiveListeners, FromEnv, Intended, Clean, Restrict, NumberIn, ModeIn;
    var f := Rendered(c, lib);
    assert ViewOf(Gateway, running[Gateway]) == ViewOf(Gateway, f);
    assert ViewOf(Ztnet, running[Ztnet]) == ViewOf(Ztnet, f);
    assert ViewOf(ZeroTierNode, running[ZeroTierNode]) == ViewOf(ZeroTierNode, f);
    forall at, port, client, tlsMode, controller
      ensures Served(running[Gateway].caddy, at, port, client, tlsMode, controller) <==>
        Permitted(EffectiveListeners(c.management, lib), at, port, client, tlsMode) &&
        controller == (c.controller.exposure == "https")
    {
      GatewayServes(c, lib, at, port, client, tlsMode, controller);
    }
    CleanParts(c, lib);
    EnvOf(c, lib);
    NodeSettings(c, lib);
    LoginReads(c, lib);
    SameLogin(running[Ztnet].env, f.env);
    if RelayNode in running {
      assert ViewOf(RelayNode, running[RelayNode]) == ViewOf(RelayNode, f);
      RelayReads(c, lib);
      FromRestricted(running[RelayNode].env);
      FromRestricted(f.env);
    }
  }

  lemma CleanParts(c: Config, lib: Library)
    requires Clean(c, lib)
    ensures ManagementOk(c.management, lib) && RelayOk(c.relayServer)
  {
    hide ManagementOk, ZeroTierOk, ControllerOk, RelayOk, ClientOk, ConflictFree;
  }

  lemma EnvOf(c: Config, lib: Library)
    requires Listenable(c.management, lib)
    ensures Rendered(c, lib).env == RenderEnv(c, lib)
  {
    hide EffectiveListeners, RenderSites, RenderEnv, RenderLocal, RenderClient, RenderPorts;
  }

  /**
   * Over every orderly run of applies, recovered failures, rollbacks and reboots the services do what the current
   * configuration says: who may connect where and how, what is behind the gateway, the relay's limits and whether it
   * runs, the node's relay mode, and the lockout of logins.
   */
  lemma RunDoesAsTold(s: State, actions: seq<Action>, lib: Library)
    requires Sound(s, lib) && AllClean(s, lib) && Coherent(s.running, s.current.config, lib) &&
      AllOrderly(s, actions, lib)
    ensures var t := Run(s, actions, true, lib);
      Listenable(t.current.config.management, lib) && DoesAsTold(t.running, t.current.config, lib)
  {
    hide Run, Clean, Coherent, AllOrderly, DoesAsTold, Rendered;
    RunCoherent(s, actions, lib);
    RunClean(s, actions, true, lib);
    var t := Run(s, actions, true, lib);
    SoundIsUsable(t, lib);
    CoherentMeans(t.running, t.current.config, lib);
  }
}
