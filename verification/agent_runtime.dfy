/** What the agent renders for the services, and which services it restarts. */
module AgentRuntime {
  import opened Basics
  import opened AgentConfig

  // ---------------------------------------------------------------------
  // Generated files
  // ---------------------------------------------------------------------

  /** The variables of `stack.env`, by their own names. */
  datatype Variable =
    | COMPOSE_PROFILES
    | NEXTAUTH_URL | NEXTAUTH_SESSION_MAX_AGE | ZTPLANET_LOGIN_ATTEMPTS | ZTPLANET_LOGIN_LOCKOUT_SECONDS
    | ZT_BIND_ADDRESS | ZT_PUBLIC_PORT
    | CONTROLLER_BIND_ADDRESS | CONTROLLER_PORT | CONTROLLER_EXPOSURE
    | RELAY_BIND_ADDRESS | RELAY_PORT | RELAY_ALLOWED_CIDRS | RELAY_MAX_CONNECTIONS | RELAY_MAX_CONNECTIONS_PER_IP
    | RELAY_PACKETS_PER_SECOND | RELAY_BYTES_PER_SECOND | RELAY_GLOBAL_PACKETS_PER_SECOND
    | RELAY_GLOBAL_BYTES_PER_SECOND | RELAY_HANDSHAKE_TIMEOUT_SECONDS | RELAY_IDLE_TIMEOUT_SECONDS
    | RELAY_MAX_DESTINATIONS | RELAY_MIN_DESTINATION_PORT

  datatype Value = Text(text: string) | Number(number: int) | Nets(nets: seq<Net>)

  type Env = map<Variable, Value>

  const RELAY_VARIABLES: set<Variable> := {
    RELAY_BIND_ADDRESS, RELAY_PORT, RELAY_ALLOWED_CIDRS, RELAY_MAX_CONNECTIONS, RELAY_MAX_CONNECTIONS_PER_IP,
    RELAY_PACKETS_PER_SECOND, RELAY_BYTES_PER_SECOND, RELAY_GLOBAL_PACKETS_PER_SECOND, RELAY_GLOBAL_BYTES_PER_SECOND,
    RELAY_HANDSHAKE_TIMEOUT_SECONDS, RELAY_IDLE_TIMEOUT_SECONDS, RELAY_MAX_DESTINATIONS, RELAY_MIN_DESTINATION_PORT}

  const ZTNET_VARIABLES: set<Variable> := {
    NEXTAUTH_URL, NEXTAUTH_SESSION_MAX_AGE, ZTPLANET_LOGIN_ATTEMPTS, ZTPLANET_LOGIN_LOCKOUT_SECONDS}

  /** `local.conf`; ports that are zero and the relay of the modes that have none are left out of the file. */
  datatype LocalConf = LocalConf(
    allowSecondary: bool, portMapping: bool, secondary: Option<int>, tertiary: Option<int>, client: ClientConf)

  /** `client-local.conf` */
  datatype ClientConf = ClientConf(allowFallback: bool, force: bool, relay: Option<(string, int)>)

  /** One site of the Caddyfile. */
  datatype Site = Site(tlsMode: string, address: Ip, port: int, allowed: seq<Net>, proxiesController: bool)

  datatype PortMap = Udp(host: Ip, outer: int, inner: int) | Tcp(host: Ip, outer: int, inner: int)

  datatype Override = Override(ztPorts: seq<PortMap>, relayPort: PortMap)

  datatype Files = Files(env: Env, local: LocalConf, client: ClientConf, caddy: seq<Site>, compose: Override)

  // ---------------------------------------------------------------------
  // Rendering
  // ---------------------------------------------------------------------

  function RenderRelayEnv(r: Relay, lib: Library): Env {
    map[
      RELAY_BIND_ADDRESS := Text(lib.show(r.bindAddress)),
      RELAY_PORT := Number(r.port),
      RELAY_ALLOWED_CIDRS := Nets(r.allowedSourceCidrs),
      RELAY_MAX_CONNECTIONS := Number(r.maxConnections),
      RELAY_MAX_CONNECTIONS_PER_IP := Number(r.maxConnectionsPerIp),
      RELAY_PACKETS_PER_SECOND := Number(r.packetsPerSecond),
      RELAY_BYTES_PER_SECOND := Number(r.bytesPerSecond),
      RELAY_GLOBAL_PACKETS_PER_SECOND := Number(r.globalPacketsPerSecond),
      RELAY_GLOBAL_BYTES_PER_SECOND := Number(r.globalBytesPerSecond),
      RELAY_HANDSHAKE_TIMEOUT_SECONDS := Number(r.handshakeTimeoutSeconds),
      RELAY_IDLE_TIMEOUT_SECONDS := Number(r.idleTimeoutSeconds),
      RELAY_MAX_DESTINATIONS := Number(r.maxDestinations),
      RELAY_MIN_DESTINATION_PORT := Number(r.minDestinationPort)]
  }

  function RenderSiteEnv(m: Management): Env {
    map[
      NEXTAUTH_URL := Text(m.publicUrl),
      NEXTAUTH_SESSION_MAX_AGE := Number(m.sessionMaxAgeSeconds),
      ZTPLANET_LOGIN_ATTEMPTS := Number(m.loginAttempts),
      ZTPLANET_LOGIN_LOCKOUT_SECONDS := Number(m.loginLockoutSeconds)]
  }

  function RenderNodeEnv(c: Config, lib: Library): Env {
    map[
      COMPOSE_PROFILES := Text(if c.relayServer.enabled then "relay" else ""),
      ZT_BIND_ADDRESS := Text(lib.show(c.zerotier.bindAddress)),
      ZT_PUBLIC_PORT := Number(c.zerotier.publicPort),
      CONTROLLER_BIND_ADDRESS := Text(lib.show(c.controller.bindAddress)),
      CONTROLLER_PORT := Number(c.controller.port),
      CONTROLLER_EXPOSURE := Text(c.controller.exposure)]
  }

  function RenderEnv(c: Config, lib: Library): Env {
    RenderNodeEnv(c, lib) + RenderSiteEnv(c.management) + RenderRelayEnv(c.relayServer, lib)
  }

  function Restrict(env: Env, names: set<Variable>): Env {
    map v | v in names && v in env :: env[v]
  }

  function NonZero(port: int): Option<int> {
    if port == 0 then None else Some(port)
  }

  function RenderClient(c: Client): ClientConf {
    ClientConf(c.mode != "off", c.mode == "custom-force", if CustomMode(c.mode) then Some((c.host, c.port)) else None)
  }

  function RenderLocal(z: ZeroTier, c: Client): LocalConf {
    LocalConf(z.allowSecondaryPort, z.portMappingEnabled, NonZero(z.secondaryPort), NonZero(z.tertiaryPort),
      RenderClient(c))
  }

  function RenderSites(ls: seq<Listener>, https: bool): seq<Site> {
    if ls == [] then []
    else
      [Site(ls[0].tlsMode, ls[0].address, ls[0].port, ls[0].allowedCidrs, https)] + RenderSites(ls[1..], https)
  }

  function RenderPorts(z: ZeroTier, c: Controller): seq<PortMap> {
    (if z.enabled then
       [Udp(z.bindAddress, z.publicPort, 9993)] +
       (if z.secondaryPort != 0 then [Udp(z.bindAddress, z.secondaryPort, z.secondaryPort)] else []) +
       (if z.tertiaryPort != 0 then [Udp(z.bindAddress, z.tertiaryPort, z.tertiaryPort)] else [])
     else []) +
    (if c.exposure == "direct" then [Tcp(c.bindAddress, c.port, 9993)] else [])
  }

  /** Enough for `effective_management_listeners` to be defined. */
  predicate Listenable(m: Management, lib: Library) {
    |m.listeners| > 0 && (m.allowZeroTier && m.zeroTierAddress != "" ==> lib.literal(m.zeroTierAddress).Some?)
  }

  predicate Escapable(s: string) {
    forall ch | ch in s :: ch != '\n' && ch != '\r' && ch != '\0'
  }

  /** `dotenv_escape` refuses line breaks and NUL; the other values cannot contain them. */
  predicate Renders(c: Config, lib: Library) {
    && Escapable(c.management.publicUrl) && Escapable(lib.show(c.zerotier.bindAddress))
    && Escapable(lib.show(c.controller.bindAddress)) && Escapable(lib.show(c.relayServer.bindAddress))
  }

  function Rendered(c: Config, lib: Library): Files
    requires Listenable(c.management, lib)
  {
    Files(
      RenderEnv(c, lib), RenderLocal(c.zerotier, c.relayClient), RenderClient(c.relayClient),
      RenderSites(EffectiveListeners(c.management, lib), c.controller.exposure == "https"),
      Override(RenderPorts(c.zerotier, c.controller), Tcp(c.relayServer.bindAddress, c.relayServer.port, 4443)))
  }

  // ---------------------------------------------------------------------
  // Services
  // ---------------------------------------------------------------------

  datatype Service = Gateway | ZeroTierNode | Ztnet | RelayNode

  function ChangedServices(before: Config, after: Config): set<Service> {
    (if before.management != after.management then {Gateway, Ztnet} else {}) +
    (if before.zerotier != after.zerotier || before.relayClient != after.relayClient then {ZeroTierNode, Ztnet}
      else {}) +
    (if before.controller != after.controller then {ZeroTierNode, Gateway, Ztnet} else {}) +
    (if before.relayServer != after.relayServer then {RelayNode} else {})
  }

  /** The part of the files that a service is configured by. */
  datatype View =
    | GatewayView(caddy: seq<Site>)
    | NodeView(local: LocalConf, ports: seq<PortMap>)
    | ZtnetView(variables: Env)
    | RelayView(variables: Env, port: PortMap)

  function ViewOf(s: Service, f: Files): View {
    match s
    case Gateway => GatewayView(f.caddy)
    case ZeroTierNode => NodeView(f.local, f.compose.ztPorts)
    case Ztnet => ZtnetView(Restrict(f.env, ZTNET_VARIABLES))
    case RelayNode => RelayView(Restrict(f.env, RELAY_VARIABLES), f.compose.relayPort)
  }

  /** The sections a service is configured by, or depends on through another service. */
  predicate SectionsDiffer(s: Service, a: Config, b: Config) {
    match s
    case Gateway => (a.management, a.controller) != (b.management, b.controller)
    case ZeroTierNode => (a.zerotier, a.relayClient, a.controller) != (b.zerotier, b.relayClient, b.controller)
    case Ztnet =>
      (a.management, a.zerotier, a.relayClient, a.controller) != (b.management, b.zerotier, b.relayClient, b.controller)
    case RelayNode => a.relayServer != b.relayServer
  }

  /** A service is restarted if and only if one of its sections changed. */
  lemma ChangedExact(s: Service, a: Config, b: Config)
    ensures s in ChangedServices(a, b) <==> SectionsDiffer(s, a, b)
  {
  }

  lemma ChangedSymmetric(a: Config, b: Config)
    ensures ChangedServices(a, b) == ChangedServices(b, a)
  {
  }

  /** The part of the environment that belongs to a section depends on that section alone. */
  lemma EnvParts(c: Config, lib: Library)
    ensures Restrict(RenderEnv(c, lib), ZTNET_VARIABLES) == RenderSiteEnv(c.management)
    ensures Restrict(RenderEnv(c, lib), RELAY_VARIABLES) == RenderRelayEnv(c.relayServer, lib)
  {
    hide RenderNodeEnv, RenderSiteEnv, RenderRelayEnv, Restrict;
    SiteKeys(c.management);
    RelayKeys(c.relayServer, lib);
    RestrictParts(RenderNodeEnv(c, lib), RenderSiteEnv(c.management), RenderRelayEnv(c.relayServer, lib));
  }

  lemma RestrictParts(x: Env, y: Env, z: Env)
    requires y.Keys !! z.Keys
    ensures Restrict(x + y + z, y.Keys) == y && Restrict(x + y + z, z.Keys) == z
  {
  }

  lemma SiteKeys(m: Management)
    ensures RenderSiteEnv(m).Keys == ZTNET_VARIABLES
  {
  }

  lemma RelayKeys(r: Relay, lib: Library)
    ensures RenderRelayEnv(r, lib).Keys == RELAY_VARIABLES
  {
  }

  /** A service that is not restarted would read the same configuration from the new files. */
  lemma UnchangedView(s: Service, a: Config, b: Config, lib: Library)
    requires Listenable(a.management, lib) && Listenable(b.management, lib) && s !in ChangedServices(a, b)
    ensures ViewOf(s, Rendered(a, lib)) == ViewOf(s, Rendered(b, lib))
  {
    hide EffectiveListeners, RenderSites, RenderPorts, RenderLocal, RenderClient, RenderEnv, RenderRelayEnv;
    hide RenderSiteEnv, Restrict, ZTNET_VARIABLES, RELAY_VARIABLES;
    EnvParts(a, lib);
    EnvParts(b, lib);
  }

  /** A relay that is restarted only when its section changes is switched on and off only by a change. */
  lemma RelayUnchanged(a: Config, b: Config)
    ensures RelayNode !in ChangedServices(a, b) <==> a.relayServer == b.relayServer
  {
  }

  // ---------------------------------------------------------------------
  // Reading the environment
  // ---------------------------------------------------------------------

  function TextIn(env: Env, v: Variable): string {
    if v in env && env[v].Text? then env[v].text else ""
  }

  function NumberIn(env: Env, v: Variable): int {
    if v in env && env[v].Number? then env[v].number else -1
  }

  function NetsIn(env: Env, v: Variable): seq<Net> {
    if v in env && env[v].Nets? then env[v].nets else []
  }

  /** The relay section as the variables tell it. */
  function RelayIn(env: Env, enabled: bool, lib: Library): Option<Relay> {
    match lib.literal(TextIn(env, RELAY_BIND_ADDRESS))
    case None => None
    case Some(ip) =>
      Some(Relay(
        enabled, ip, NumberIn(env, RELAY_PORT), NetsIn(env, RELAY_ALLOWED_CIDRS), NumberIn(env, RELAY_MAX_CONNECTIONS),
        NumberIn(env, RELAY_MAX_CONNECTIONS_PER_IP), NumberIn(env, RELAY_PACKETS_PER_SECOND),
        NumberIn(env, RELAY_BYTES_PER_SECOND), NumberIn(env, RELAY_GLOBAL_PACKETS_PER_SECOND),
        NumberIn(env, RELAY_GLOBAL_BYTES_PER_SECOND), NumberIn(env, RELAY_HANDSHAKE_TIMEOUT_SECONDS),
        NumberIn(env, RELAY_IDLE_TIMEOUT_SECONDS), NumberIn(env, RELAY_MAX_DESTINATIONS),
        NumberIn(env, RELAY_MIN_DESTINATION_PORT)))
  }

  lemma RelayReadBack(r: Relay, lib: Library)
    requires ParsesWhatItShows(lib)
    ensures RelayIn(RenderRelayEnv(r, lib), r.enabled, lib) == Some(r)
  {
  }

  lemma RelayEnvExact(a: Relay, b: Relay, lib: Library)
    requires ParsesWhatItShows(lib)
    ensures RenderRelayEnv(a, lib) == RenderRelayEnv(b, lib) && a.enabled == b.enabled <==> a == b
  {
    hide RenderRelayEnv, RelayIn, ParsesWhatItShows;
    RelayReadBack(a, lib);
    RelayReadBack(b, lib);
  }

  lemma NodeKeys(c: Config, lib: Library)
    ensures RenderNodeEnv(c, lib).Keys == {
      COMPOSE_PROFILES, ZT_BIND_ADDRESS, ZT_PUBLIC_PORT, CONTROLLER_BIND_ADDRESS, CONTROLLER_PORT, CONTROLLER_EXPOSURE}
  {
  }

  lemma FirstPart(x: Env, y: Env, z: Env, v: Variable)
    requires v in x && v !in y && v !in z
    ensures v in x + y + z && (x + y + z)[v] == x[v]
  {
  }

  lemma NodeVariable(c: Config, lib: Library, v: Variable)
    requires v in RenderNodeEnv(c, lib)
    ensures v in RenderEnv(c, lib) && RenderEnv(c, lib)[v] == RenderNodeEnv(c, lib)[v]
  {
    hide RenderNodeEnv, RenderSiteEnv, RenderRelayEnv;
    NodeKeys(c, lib);
    SiteKeys(c.management);
    RelayKeys(c.relayServer, lib);
    FirstPart(RenderNodeEnv(c, lib), RenderSiteEnv(c.management), RenderRelayEnv(c.relayServer, lib), v);
  }

  lemma ProfileOf(c: Config, lib: Library)
    ensures TextIn(RenderEnv(c, lib), COMPOSE_PROFILES) == if c.relayServer.enabled then "relay" else ""
    ensures COMPOSE_PROFILES in RenderEnv(c, lib)
  {
    hide RenderEnv;
    NodeVariable(c, lib, COMPOSE_PROFILES);
  }

  lemma RestrictReads(env: Env, names: set<Variable>, v: Variable)
    requires v in names
    ensures TextIn(Restrict(env, names), v) == TextIn(env, v)
    ensures NumberIn(Restrict(env, names), v) == NumberIn(env, v) && NetsIn(Restrict(env, names), v) == NetsIn(env, v)
  {
  }

  /** Reading only one's own variables is reading them from the whole file. */
  lemma RelayInRestricted(env: Env, enabled: bool, lib: Library)
    ensures RelayIn(Restrict(env, RELAY_VARIABLES), enabled, lib) == RelayIn(env, enabled, lib)
  {
    hide Restrict, TextIn, NumberIn, NetsIn;
    forall v | v in RELAY_VARIABLES
      ensures TextIn(Restrict(env, RELAY_VARIABLES), v) == TextIn(env, v)
      ensures NumberIn(Restrict(env, RELAY_VARIABLES), v) == NumberIn(env, v)
      ensures NetsIn(Restrict(env, RELAY_VARIABLES), v) == NetsIn(env, v)
    {
      RestrictReads(env, RELAY_VARIABLES, v);
    }
  }

  /** Each variable of the environment is the field it is named after. */
  lemma EnvironmentReads(c: Config, lib: Library)
    requires ParsesWhatItShows(lib)
    ensures var env := RenderEnv(c, lib);
      && RelayIn(env, TextIn(env, COMPOSE_PROFILES) == "relay", lib) == Some(c.relayServer)
      && TextIn(env, NEXTAUTH_URL) == c.management.publicUrl
      && NumberIn(env, NEXTAUTH_SESSION_MAX_AGE) == c.management.sessionMaxAgeSeconds
      && NumberIn(env, ZTPLANET_LOGIN_ATTEMPTS) == c.management.loginAttempts
      && NumberIn(env, ZTPLANET_LOGIN_LOCKOUT_SECONDS) == c.management.loginLockoutSeconds
    ensures var env := RenderEnv(c, lib);
      && lib.literal(TextIn(env, ZT_BIND_ADDRESS)) == Some(c.zerotier.bindAddress)
      && NumberIn(env, ZT_PUBLIC_PORT) == c.zerotier.publicPort
      && lib.literal(TextIn(env, CONTROLLER_BIND_ADDRESS)) == Some(c.controller.bindAddress)
      && NumberIn(env, CONTROLLER_PORT) == c.controller.port
      && TextIn(env, CONTROLLER_EXPOSURE) == c.controller.exposure
  {
    hide RenderEnv, RenderRelayEnv, RelayIn, Restrict;
    var env := RenderEnv(c, lib);
    EnvParts(c, lib);
    ProfileOf(c, lib);
    assert "relay" != "";
    RelayReadBack(c.relayServer, lib);
    RelayInRestricted(env, c.relayServer.enabled, lib);
    SiteReads(c, lib);
    NodeReads(c, lib);
  }

  lemma SiteReads(c: Config, lib: Library)
    ensures var env := RenderEnv(c, lib);
      && TextIn(env, NEXTAUTH_URL) == c.management.publicUrl
      && NumberIn(env, NEXTAUTH_SESSION_MAX_AGE) == c.management.sessionMaxAgeSeconds
      && NumberIn(env, ZTPLANET_LOGIN_ATTEMPTS) == c.management.loginAttempts
      && NumberIn(env, ZTPLANET_LOGIN_LOCKOUT_SECONDS) == c.management.loginLockoutSeconds
  {
    hide RenderEnv, Restrict;
    var env := RenderEnv(c, lib);
    EnvParts(c, lib);
    RestrictReads(env, ZTNET_VARIABLES, NEXTAUTH_URL);
    RestrictReads(env, ZTNET_VARIABLES, NEXTAUTH_SESSION_MAX_AGE);
    RestrictReads(env, ZTNET_VARIABLES, ZTPLANET_LOGIN_ATTEMPTS);
    RestrictReads(env, ZTNET_VARIABLES, ZTPLANET_LOGIN_LOCKOUT_SECONDS);
  }

  lemma NodeReads(c: Config, lib: Library)
    ensures var env := RenderEnv(c, lib);
      && TextIn(env, ZT_BIND_ADDRESS) == lib.show(c.zerotier.bindAddress)
      && NumberIn(env, ZT_PUBLIC_PORT) == c.zerotier.publicPort
      && TextIn(env, CONTROLLER_BIND_ADDRESS) == lib.show(c.controller.bindAddress)
      && NumberIn(env, CONTROLLER_PORT) == c.controller.port
      && TextIn(env, CONTROLLER_EXPOSURE) == c.controller.exposure
  {
    hide RenderEnv;
    NodeVariable(c, lib, ZT_BIND_ADDRESS);
    NodeVariable(c, lib, ZT_PUBLIC_PORT);
    NodeVariable(c, lib, CONTROLLER_BIND_ADDRESS);
    NodeVariable(c, lib, CONTROLLER_PORT);
    NodeVariable(c, lib, CONTROLLER_EXPOSURE);
  }

  /**
   * ZTNet's container receives all of `stack.env`, more than its view. While it keeps running across a change, that
   * environment stays current exactly when the relay section is the same.
   */
  lemma ZtnetEnvironment(a: Config, b: Config, lib: Library)
    requires ParsesWhatItShows(lib) && Ztnet !in ChangedServices(a, b)
    ensures RenderEnv(a, lib) == RenderEnv(b, lib) <==> a.relayServer == b.relayServer
  {
    hide RenderEnv, RenderRelayEnv, ParsesWhatItShows;
    if RenderEnv(a, lib) == RenderEnv(b, lib) {
      EnvParts(a, lib);
      EnvParts(b, lib);
      ProfileOf(a, lib);
      ProfileOf(b, lib);
      assert "relay" != "";
      RelayEnvExact(a.relayServer, b.relayServer, lib);
    } else if a.relayServer == b.relayServer {
      EnvFrom(a, b, lib);
    }
  }

  lemma EnvFrom(a: Config, b: Config, lib: Library)
    requires Ztnet !in ChangedServices(a, b) && a.relayServer == b.relayServer
    ensures RenderEnv(a, lib) == RenderEnv(b, lib)
  {
  }

  // ---------------------------------------------------------------------
  // Restarting
  // ---------------------------------------------------------------------

  /**
   * What Docker and the firewall script do during one `apply_runtime`: whether the firewall rules go in, whether
   * stopping the relay raises and whether it works, whether `up` succeeds and, if not, which services it still
   * restarted or took down, and whether the health check passes.
   */
  datatype Docker = Docker(
    installs: bool, stopRaises: bool, relayStops: bool, upSucceeds: bool, recreated: set<Service>, down: set<Service>,
      healthy: bool)

  /** The running services, each with the files it was started from. */
  type Running = map<Service, Files>

  function Started(running: Running, services: set<Service>, files: Files): (r: Running)
    ensures r.Keys == running.Keys + services
  {
    map s | s in running.Keys + services :: if s in services then files else running[s]
  }

  function Selected(services: set<Service>, enabled: bool): set<Service> {
    if enabled then services else services - {RelayNode}
  }

  /** `apply_runtime` when Docker is used: the services afterwards, and whether it returned rather than raised. */
  function Restarted(
      running: Running, files: Files, services: set<Service>, enabled: bool, d: Docker): (Running, bool)
  {
    if enabled && !d.installs then (running, false)
    else
      var stopped := if !enabled && d.relayStops then running - {RelayNode} else running;
      var selected := Selected(services, enabled);
      if !enabled && d.stopRaises then (stopped, false)
      else if selected == {} then (stopped, true)
      else if !d.upSucceeds then (Started(stopped, selected * d.recreated, files) - (selected * d.down), false)
      else (Started(stopped, selected, files), d.healthy)
  }

  function Required(c: Config): set<Service> {
    {Gateway, ZeroTierNode, Ztnet} + (if c.relayServer.enabled then {RelayNode} else {})
  }

  /** Exactly the required services run, each under files that configure it as the current configuration does. */
  predicate Coherent(running: Running, c: Config, lib: Library)
    requires Listenable(c.management, lib)
  {
    running.Keys == Required(c) && forall s | s in running :: ViewOf(s, running[s]) == ViewOf(s, Rendered(c, lib))
  }

  /** Coherent but for services that are about to be restarted, and for a relay that should not run. */
  predicate CoherentOutside(running: Running, services: set<Service>, c: Config, lib: Library)
    requires Listenable(c.management, lib)
  {
    forall s | s in Required(c) && s !in services ::
      s in running && ViewOf(s, running[s]) == ViewOf(s, Rendered(c, lib))
  }

  /**
   * A restart that returns leaves exactly the right services, each under current files, if and only if a relay that
   * must go did stop.
   */
  lemma RestartRepairs(running: Running, services: set<Service>, c: Config, d: Docker, lib: Library)
    requires Listenable(c.management, lib) && CoherentOutside(running, services, c, lib)
    requires Restarted(running, Rendered(c, lib), services, c.relayServer.enabled, d).1
    ensures Coherent(Restarted(running, Rendered(c, lib), services, c.relayServer.enabled, d).0, c, lib) <==>
      (c.relayServer.enabled || RelayNode !in running || d.relayStops)
  {
    hide Rendered, ViewOf;
    var r := Restarted(running, Rendered(c, lib), services, c.relayServer.enabled, d).0;
    forall s ensures s in Required(c) ==> s in r && ViewOf(s, r[s]) == ViewOf(s, Rendered(c, lib)) {
    }
    assert Required(c) <= r.Keys;
    if c.relayServer.enabled || RelayNode !in running || d.relayStops {
      assert c.relayServer.enabled || RelayNode !in r;
      forall s | s in r ensures s in Required(c) {
        assert s.Gateway? || s.ZeroTierNode? || s.Ztnet? || s.RelayNode?;
      }
    } else {
      assert RelayNode in r;
    }
  }

  /** From a coherent state, the services a new configuration does not change are already right for it. */
  lemma ChangeOutside(running: Running, a: Config, b: Config, lib: Library)
    requires Listenable(a.management, lib) && Listenable(b.management, lib) && Coherent(running, a, lib)
    ensures CoherentOutside(running, ChangedServices(a, b), b, lib)
  {
    hide Rendered, ViewOf, ChangedServices;
    RelayUnchanged(a, b);
    forall s | s in Required(b) && s !in ChangedServices(a, b)
      ensures s in running && ViewOf(s, running[s]) == ViewOf(s, Rendered(b, lib))
    {
      UnchangedView(s, a, b, lib);
    }
  }

  /**
   * A failed attempt to move to `b`, whatever it did, disturbs only services that the way back to `a` restarts or
   * stops.
   */
  lemma FailureOutside(running: Running, a: Config, b: Config, files: Files, d: Docker, lib: Library)
    requires Listenable(a.management, lib) && Coherent(running, a, lib)
    ensures CoherentOutside(Restarted(running, files, ChangedServices(a, b), b.relayServer.enabled, d).0,
      ChangedServices(b, a), a, lib)
  {
    hide Rendered, ViewOf, ChangedServices;
    ChangedSymmetric(a, b);
    RelayUnchanged(a, b);
  }
}
