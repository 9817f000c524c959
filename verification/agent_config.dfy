/** Configuration of the stack: its validation, and the TCP bindings it leads to. */
module AgentConfig {

  import opened Basics
  import AddressBits

  type Result<+T> = Fallible<T, string>

  /** A value in a request: absent, of another JSON type, or of the type expected. */
  datatype Raw<+T> = Missing | Wrong | Given(value: T)

  datatype Address = V4(value: nat) | V6(value: nat, scope: string) {
    function Width(): nat {
      if V4? then 32 else 128
    }
  }

  /** An address of the library: the value has 32 or 128 bits, and a zone can hold neither `%` nor `/`. */
  predicate AddressOk(a: Address) {
    match a
    case V4(value) => value < 0x1_0000_0000
    case V6(value, scope) => value < 0x1_0000_0000_0000_0000_0000_0000_0000_0000 && '%' !in scope && '/' !in scope
  }

  type Ip = a: Address | AddressOk(a) witness V4(0)

  datatype Network = Network(base: Ip, prefix: nat)

  /** A network of the library: the base has no bits behind the prefix. */
  predicate NetworkOk(n: Network) {
    n.prefix <= n.base.Width() && n.base.value % AddressBits.Pow2(n.base.Width() - n.prefix) == 0
  }

  type Net = n: Network | NetworkOk(n) witness Network(V4(0), 0)

  datatype Url = Url(scheme: string, hasHost: bool, path: string, hasExtras: bool, portValid: bool, port: Option<nat>)

  /** Library functions the agent calls: address and URL parsing, address classes, two regular expressions. */
  datatype Library = Library(
    literal: string -> Option<Ip>, show: Ip -> string, network: string -> Option<Net>, showNet: Net -> string,
    url: string -> Url, isPrivate: Ip -> bool, isLoopback: Ip -> bool, isInterface: string -> bool,
    isHostname: string -> bool, canonicalHost: string -> string)

  // ---------------------------------------------------------------------
  // Data
  // ---------------------------------------------------------------------

  datatype RawListener = RawListener(
    address: Raw<string>, port: Raw<int>, tlsMode: Raw<string>, allowedCidrs: Raw<seq<Raw<string>>>)

  datatype RawManagement = RawManagement(
    publicUrl: Raw<string>, listeners: Raw<seq<Raw<RawListener>>>, allowZeroTier: Raw<bool>,
    zeroTierInterface: Raw<string>, zeroTierAddress: Raw<string>, sessionMaxAgeSeconds: Raw<int>,
    loginAttempts: Raw<int>, loginLockoutSeconds: Raw<int>)

  datatype RawZeroTier = RawZeroTier(
    enabled: Raw<bool>, bindAddress: Raw<string>, publicPort: Raw<int>, secondaryPort: Raw<int>, tertiaryPort: Raw<int>,
    allowSecondaryPort: Raw<bool>, portMappingEnabled: Raw<bool>)

  datatype RawController = RawController(exposure: Raw<string>, bindAddress: Raw<string>, port: Raw<int>)

  datatype RawRelay = RawRelay(
    enabled: Raw<bool>, bindAddress: Raw<string>, port: Raw<int>, allowedSourceCidrs: Raw<seq<Raw<string>>>,
    maxConnections: Raw<int>, maxConnectionsPerIp: Raw<int>, packetsPerSecond: Raw<int>, bytesPerSecond: Raw<int>,
    globalPacketsPerSecond: Raw<int>, globalBytesPerSecond: Raw<int>, handshakeTimeoutSeconds: Raw<int>,
    idleTimeoutSeconds: Raw<int>, maxDestinations: Raw<int>, minDestinationPort: Raw<int>)

  datatype RawClient = RawClient(mode: Raw<string>, host: Raw<string>, port: Raw<int>)

  datatype RawConfig = RawConfig(
    management: Raw<RawManagement>, zerotier: Raw<RawZeroTier>, controller: Raw<RawController>,
    relayServer: Raw<RawRelay>, relayClient: Raw<RawClient>, otherKeys: bool)

  datatype Listener = Listener(address: Ip, port: int, tlsMode: string, allowedCidrs: seq<Net>)

  datatype Management = Management(
    publicUrl: string, listeners: seq<Listener>, allowZeroTier: bool, zeroTierInterface: string,
    zeroTierAddress: string, sessionMaxAgeSeconds: int, loginAttempts: int, loginLockoutSeconds: int)

  datatype ZeroTier = ZeroTier(
    enabled: bool, bindAddress: Ip, publicPort: int, secondaryPort: int, tertiaryPort: int, allowSecondaryPort: bool,
    portMappingEnabled: bool)

  datatype Controller = Controller(exposure: string, bindAddress: Ip, port: int)

  datatype Relay = Relay(
    enabled: bool, bindAddress: Ip, port: int, allowedSourceCidrs: seq<Net>, maxConnections: int,
    maxConnectionsPerIp: int,
    packetsPerSecond: int, bytesPerSecond: int, globalPacketsPerSecond: int, globalBytesPerSecond: int,
    handshakeTimeoutSeconds: int, idleTimeoutSeconds: int, maxDestinations: int, minDestinationPort: int)

  datatype Client = Client(mode: string, host: string, port: int)

  datatype Config = Config(
    management: Management, zerotier: ZeroTier, controller: Controller, relayServer: Relay, relayClient: Client)

  datatype Warning =
    | EveryInterface(at: Ip, port: int) | PublicAddress(at: Ip, port: int) | ClearText(at: Ip, port: int)
    | NoSourceRestriction(at: Ip, port: int) | UrlPortNotListed | HttpsWithoutTls | AddsListener | ControllerExposed
    | ControllerOverClearText | RelayOpen | RelayPublic | ForcesRelay

  datatype Checked<+T> = Checked(value: T, warnings: seq<Warning>)

  // ---------------------------------------------------------------------
  // Field checks
  // ---------------------------------------------------------------------

  function Get<T>(raw: Raw<T>, otherwise: T): Raw<T> {
    if raw.Missing? then Given(otherwise) else raw
  }

  function RequireGiven<T>(raw: Raw<T>, name: string): Result<T> {
    if raw.Given? then Ok(raw.value) else Err(name)
  }

  function RequireInt(raw: Raw<int>, name: string, minimum: int, maximum: int): Result<int> {
    if raw.Given? && minimum <= raw.value <= maximum then Ok(raw.value) else Err(name)
  }

  function RequireOneOf(raw: Raw<string>, name: string, words: set<string>): Result<string> {
    if raw.Given? && raw.value in words then Ok(raw.value) else Err(name)
  }

  function RequireIp(raw: Raw<string>, name: string, lib: Library): Result<Ip> {
    if raw.Given? && lib.literal(raw.value).Some? then Ok(lib.literal(raw.value).value) else Err(name)
  }

  function NetsOf(items: seq<Raw<string>>, name: string, lib: Library): Result<seq<Net>> {
    if items == [] then Ok([])
    else if !items[0].Given? || lib.network(items[0].value).None? then Err(name)
    else
      var rest :- NetsOf(items[1..], name, lib);
      Ok([lib.network(items[0].value).value] + rest)
  }

  function Prepended(nets: seq<Net>, r: Result<seq<Net>>): Result<seq<Net>> {
    if r.Ok? then Ok(nets + r.value) else r
  }

  lemma PrependedParts(nets: seq<Net>, n: Option<Net>, r: Result<seq<Net>>)
    ensures Prepended([], r) == r && Prepended(nets, Ok([])) == Ok(nets)
    ensures n.Some? ==> Prepended(nets + [n.value], r) == Prepended(nets, Prepended([n.value], r))
  {
    assert nets + [] == nets;
    if r.Ok? {
      assert [] + r.value == r.value;
      if n.Some? {
        assert (nets + [n.value]) + r.value == nets + ([n.value] + r.value);
      }
    }
  }

  function RequireCidrs(raw: Raw<seq<Raw<string>>>, name: string, lib: Library): Result<seq<Net>> {
    var items := Get(raw, []);
    if !items.Given? || |items.value| > 64 then Err(name) else NetsOf(items.value, name, lib)
  }

  /** The loop of `require_cidrs`. */
  method CollectCidrs(raw: Raw<seq<Raw<string>>>, name: string, lib: Library) returns (r: Result<seq<Net>>)
    ensures r == RequireCidrs(raw, name, lib)
  {
    var items := Get(raw, []);
    if !items.Given? || |items.value| > 64 {
      return Err(name);
    }
    var result, i := [], 0;
    PrependedParts([], None, NetsOf(items.value, name, lib));
    while i < |items.value|
      invariant i <= |items.value|
      invariant NetsOf(items.value, name, lib) == Prepended(result, NetsOf(items.value[i..], name, lib))
    {
      assert items.value[i..][1..] == items.value[i + 1..];
      var item := items.value[i];
      if !item.Given? || lib.network(item.value).None? {
        return Err(name);
      }
      PrependedParts(result, lib.network(item.value), NetsOf(items.value[i + 1..], name, lib));
      result := result + [lib.network(item.value).value];
      i := i + 1;
    }
    PrependedParts(result, None, Ok([]));
    r := Ok(result);
  }

  function RequireHost(raw: Raw<string>, name: string, lib: Library): Result<string> {
    if !raw.Given? || raw.value == "" || |raw.value| > 253 then Err(name)
    else
      match lib.literal(raw.value)
      case Some(ip) => Ok(lib.show(ip))
      case None => if lib.isHostname(raw.value) then Ok(lib.canonicalHost(raw.value)) else Err(name)
  }

  function StripSlashes(s: string): (r: string)
    ensures |r| <= |s| && (|r| > 0 ==> r[|r| - 1] != '/')
  {
    if |s| > 0 && s[|s| - 1] == '/' then StripSlashes(s[..|s| - 1]) else s
  }

  // ---------------------------------------------------------------------
  // Bindings
  // ---------------------------------------------------------------------

  datatype Binding = Binding(address: Ip, port: int)

  predicate SameVersion(a: Ip, b: Ip) {
    a.V4? == b.V4?
  }

  predicate Unspecified(a: Ip) {
    a.value == 0
  }

  predicate BindingsOverlap(l: Binding, r: Binding) {
    l.port == r.port && SameVersion(l.address, r.address) &&
    (l.address == r.address || Unspecified(l.address) || Unspecified(r.address))
  }

  /** A socket bound to `b` takes connections made to `address` and `port`. */
  predicate Receives(b: Binding, address: Ip, port: int) {
    b.port == port && SameVersion(b.address, address) && (b.address == address || Unspecified(b.address))
  }

  /** Overlap means that some connection could go to both sockets. */
  lemma OverlapMeansSharedEndpoint(l: Binding, r: Binding)
    ensures BindingsOverlap(l, r) <==> exists address, port :: Receives(l, address, port) && Receives(r, address, port)
  {
    if BindingsOverlap(l, r) {
      var address := if Unspecified(l.address) then r.address else l.address;
      assert Receives(l, address, l.port) && Receives(r, address, l.port);
    }
  }

  function BindingOf(l: Listener): Binding {
    Binding(l.address, l.port)
  }

  function BindingsOf(ls: seq<Listener>): seq<Binding> {
    seq(|ls|, i requires 0 <= i < |ls| => BindingOf(ls[i]))
  }

  predicate Apart(bs: seq<Binding>) {
    forall i, j | 0 <= i < j < |bs| :: !BindingsOverlap(bs[i], bs[j])
  }

  predicate ApartFrom(b: Binding, bs: seq<Binding>) {
    forall i | 0 <= i < |bs| :: !BindingsOverlap(b, bs[i])
  }

  lemma OverlapSymmetric(l: Binding, r: Binding)
    ensures BindingsOverlap(l, r) == BindingsOverlap(r, l)
  {
  }

  lemma ApartAppend(bs: seq<Binding>, b: Binding)
    ensures Apart(bs + [b]) <==> Apart(bs) && ApartFrom(b, bs)
  {
    var all := bs + [b];
    if Apart(all) {
      forall i | 0 <= i < |bs| ensures !BindingsOverlap(b, bs[i]) {
        assert !BindingsOverlap(all[i], all[|bs|]);
      }
      forall i, j | 0 <= i < j < |bs| ensures !BindingsOverlap(bs[i], bs[j]) {
        assert !BindingsOverlap(all[i], all[j]);
      }
    }
    if Apart(bs) && ApartFrom(b, bs) {
      forall i, j | 0 <= i < j < |all| ensures !BindingsOverlap(all[i], all[j]) {
        if j == |bs| {
          OverlapSymmetric(all[i], b);
        }
      }
    }
  }

  // ---------------------------------------------------------------------
  // Management
  // ---------------------------------------------------------------------

  function CleanListener(raw: Raw<RawListener>, lib: Library): Result<Listener> {
    var item :- RequireGiven(raw, "listener");
    var address :- RequireIp(item.address, "listener.address", lib);
    var port :- RequireInt(item.port, "listener.port", 1, 65535);
    var tlsMode :- RequireOneOf(item.tlsMode, "listener.tlsMode", {"off", "self-signed", "files"});
    var allowed :- RequireCidrs(item.allowedCidrs, "listener.allowedCidrs", lib);
    Ok(Listener(address, port, tlsMode, allowed))
  }

  function ListenerWarnings(l: Listener, lib: Library): seq<Warning> {
    (if Unspecified(l.address) then [EveryInterface(l.address, l.port)]
     else if !lib.isPrivate(l.address) && !lib.isLoopback(l.address) then [PublicAddress(l.address, l.port)] else []) +
    (if l.tlsMode == "off" then [ClearText(l.address, l.port)] else []) +
    (if l.allowedCidrs == [] && !lib.isLoopback(l.address) then [NoSourceRestriction(l.address, l.port)] else [])
  }

  /** The listeners still to be checked, given those that passed. */
  function CleanListeners(raws: seq<Raw<RawListener>>, done: seq<Listener>, warnings: seq<Warning>, lib: Library):
    Result<Checked<seq<Listener>>>
    decreases |raws|
  {
    if raws == [] then Ok(Checked(done, warnings))
    else
      var l :- CleanListener(raws[0], lib);
      if exists d | d in done :: d.address == l.address && d.port == l.port then Err("duplicate management listener")
      else if exists d | d in done :: BindingsOverlap(BindingOf(l), BindingOf(d)) then
        Err("management listener overlaps another listener")
      else CleanListeners(raws[1..], done + [l], warnings + ListenerWarnings(l, lib), lib)
  }

  /** The loop over the listeners in `validate_config`. */
  method CheckListeners(raws: seq<Raw<RawListener>>, lib: Library) returns (r: Result<Checked<seq<Listener>>>)
    ensures r == CleanListeners(raws, [], [], lib)
  {
    hide CleanListener, ListenerWarnings;
    var clean: seq<Listener>, seen: set<(Ip, int)>, warnings: seq<Warning> := [], {}, [];
    var i := 0;
    while i < |raws|
      invariant i <= |raws|
      invariant seen == set d | d in clean :: (d.address, d.port)
      invariant CleanListeners(raws, [], [], lib) == CleanListeners(raws[i..], clean, warnings, lib)
    {
      assert raws[i..][0] == raws[i] && raws[i..][1..] == raws[i + 1..];
      var l :- CleanListener(raws[i], lib);
      if (l.address, l.port) in seen {
        return Err("duplicate management listener");
      }
      seen := seen + {(l.address, l.port)};
      if exists d | d in clean :: BindingsOverlap(BindingOf(l), BindingOf(d)) {
        return Err("management listener overlaps another listener");
      }
      warnings := warnings + ListenerWarnings(l, lib);
      clean := clean + [l];
      i := i + 1;
    }
    r := Ok(Checked(clean, warnings));
  }

  predicate UrlAccepted(u: Url) {
    u.scheme in {"http", "https"} && u.hasHost && u.path in {"", "/"} && !u.hasExtras && u.portValid
  }

  function PublicPort(u: Url): int {
    if u.port.Some? && u.port.value != 0 then u.port.value else if u.scheme == "https" then 443 else 80
  }

  function UrlWarnings(u: Url, listeners: seq<Listener>): seq<Warning> {
    (if !exists l | l in listeners :: l.port == PublicPort(u) then [UrlPortNotListed] else []) +
    (if u.scheme == "https" && !exists l | l in listeners ::
      l.port == PublicPort(u) && l.tlsMode != "off" then [HttpsWithoutTls] else [])
  }

  function RequireUrl(raw: Raw<string>, lib: Library): Result<string> {
    if !raw.Given? || |raw.value| > 512 || !UrlAccepted(lib.url(raw.value)) then Err("management.publicUrl")
    else Ok(raw.value)
  }

  function CleanManagement(raw: Raw<RawManagement>, lib: Library): Result<Checked<Management>> {
    var management :- RequireGiven(raw, "management");
    var listeners :- RequireGiven(management.listeners, "management.listeners");
    if !(1 <= |listeners| <= 16) then Err("management.listeners")
    else
      var clean :- CleanListeners(listeners, [], [], lib);
      var url :- RequireUrl(management.publicUrl, lib);
      var allowZeroTier :- RequireGiven(management.allowZeroTier, "management.allowZeroTier");
      var ztInterface :- RequireGiven(Get(management.zeroTierInterface, ""), "management.zeroTierInterface");
      var ztAddress :- RequireGiven(Get(management.zeroTierAddress, ""), "management.zeroTierAddress");
      var address :- ZeroTierAddress(allowZeroTier, ztInterface, ztAddress, lib);
      var session :- RequireInt(management.sessionMaxAgeSeconds, "management.sessionMaxAgeSeconds", 900, 28800);
      var attempts :- RequireInt(management.loginAttempts, "management.loginAttempts", 1, 20);
      var lockout :- RequireInt(management.loginLockoutSeconds, "management.loginLockoutSeconds", 60, 86400);
      Ok(Checked(
        Management(StripSlashes(url), clean.value, allowZeroTier, ztInterface, address, session, attempts, lockout),
        clean.warnings + UrlWarnings(lib.url(url), clean.value) +
        AccessWarnings(allowZeroTier, address, clean.value, lib)))
  }

  function ZeroTierAddress(allow: bool, ztInterface: string, address: string, lib: Library): Result<string> {
    if !allow then Ok(address)
    else if !lib.isInterface(ztInterface) then Err("management.zeroTierInterface")
    else
      var ip :- RequireIp(Given(address), "management.zeroTierAddress", lib);
      Ok(lib.show(ip))
  }

  function AccessWarnings(allow: bool, address: string, listeners: seq<Listener>, lib: Library): seq<Warning> {
    if allow && (forall l | l in listeners :: lib.show(l.address) != address) then [AddsListener] else []
  }

  /** What the gateway binds: the listeners, and one for ZeroTier members unless they are covered already. */
  function EffectiveListeners(m: Management, lib: Library): (r: seq<Listener>)
    requires |m.listeners| > 0
    requires m.allowZeroTier && m.zeroTierAddress != "" ==> lib.literal(m.zeroTierAddress).Some?
  {
    if m.allowZeroTier && m.zeroTierAddress != "" then
      var selected := lib.literal(m.zeroTierAddress).value;
      if Covered(m, selected, lib) then m.listeners else m.listeners + [m.listeners[0].(address := selected)]
    else m.listeners
  }

  predicate Covered(m: Management, selected: Ip, lib: Library) {
    exists l | l in m.listeners ::
      lib.show(l.address) == m.zeroTierAddress || (Unspecified(l.address) && SameVersion(l.address, selected))
  }

  // ---------------------------------------------------------------------
  // The other sections
  // ---------------------------------------------------------------------

  function CleanZeroTier(raw: Raw<RawZeroTier>, lib: Library): Result<ZeroTier> {
    var z :- RequireGiven(raw, "zerotier");
    var enabled :- RequireGiven(z.enabled, "zerotier.enabled");
    var bindAddress :- RequireIp(z.bindAddress, "zerotier.bindAddress", lib);
    var publicPort :- RequireInt(z.publicPort, "zerotier.publicPort", 1, 65535);
    var secondary :- RequireInt(Get(z.secondaryPort, 0), "zerotier.secondaryPort", 0, 65535);
    var tertiary :- RequireInt(Get(z.tertiaryPort, 0), "zerotier.tertiaryPort", 0, 65535);
    var allowSecondary :- RequireGiven(z.allowSecondaryPort, "zerotier.allowSecondaryPort");
    var mapping :- RequireGiven(z.portMappingEnabled, "zerotier.portMappingEnabled");
    if publicPort == secondary || publicPort == tertiary || (secondary != 0 && secondary == tertiary) then
      Err("ZeroTier UDP ports must be distinct")
    else Ok(ZeroTier(enabled, bindAddress, publicPort, secondary, tertiary, allowSecondary, mapping))
  }

  function CleanController(raw: Raw<RawController>, lib: Library): Result<Controller> {
    var c :- RequireGiven(raw, "controller");
    var exposure :- RequireOneOf(c.exposure, "controller.exposure", {"internal", "direct", "https"});
    var bindAddress :- RequireIp(c.bindAddress, "controller.bindAddress", lib);
    var port :- RequireInt(c.port, "controller.port", 1, 65535);
    Ok(Controller(exposure, bindAddress, port))
  }

  function ControllerWarnings(c: Controller, listeners: seq<Listener>): seq<Warning> {
    (if c.exposure == "direct" then [ControllerExposed] else []) +
    (if c.exposure == "https" && exists l | l in listeners :: l.tlsMode == "off" then [ControllerOverClearText] else [])
  }

  function CleanRelay(raw: Raw<RawRelay>, lib: Library): Result<Relay> {
    var r :- RequireGiven(raw, "relayServer");
    var enabled :- RequireGiven(r.enabled, "relayServer.enabled");
    var bindAddress :- RequireIp(r.bindAddress, "relayServer.bindAddress", lib);
    var port :- RequireInt(r.port, "relayServer.port", 1, 65535);
    var cidrs :- RequireCidrs(r.allowedSourceCidrs, "relayServer.allowedSourceCidrs", lib);
    var connections :- RequireInt(r.maxConnections, "relayServer.maxConnections", 1, 4096);
    var perIp :- RequireInt(r.maxConnectionsPerIp, "relayServer.maxConnectionsPerIp", 1, 256);
    var packets :- RequireInt(r.packetsPerSecond, "relayServer.packetsPerSecond", 1, 100000);
    var bytes :- RequireInt(r.bytesPerSecond, "relayServer.bytesPerSecond", 1024, 1073741824);
    var allPackets :- RequireInt(r.globalPacketsPerSecond, "relayServer.globalPacketsPerSecond", 1, 1000000);
    var allBytes :- RequireInt(r.globalBytesPerSecond, "relayServer.globalBytesPerSecond", 1024, 10737418240);
    var handshake :- RequireInt(r.handshakeTimeoutSeconds, "relayServer.handshakeTimeoutSeconds", 1, 60);
    var idle :- RequireInt(r.idleTimeoutSeconds, "relayServer.idleTimeoutSeconds", 30, 3600);
    var destinations :- RequireInt(r.maxDestinations, "relayServer.maxDestinations", 1, 1024);
    var minPort :- RequireInt(r.minDestinationPort, "relayServer.minDestinationPort", 1, 65535);
    if exists n: Net | n in cidrs :: !n.base.V4? then Err("relayServer.allowedSourceCidrs supports IPv4 only")
    else Ok(Relay(enabled, bindAddress, port, cidrs, connections, perIp, packets, bytes, allPackets, allBytes,
      handshake, idle, destinations, minPort))
  }

  function RelayWarnings(r: Relay, lib: Library): seq<Warning> {
    (if r.enabled && r.allowedSourceCidrs == [] then [RelayOpen] else []) +
    var exposed := Unspecified(r.bindAddress) || (!lib.isPrivate(r.bindAddress) && !lib.isLoopback(r.bindAddress));
    (if r.enabled && exposed then [RelayPublic] else [])
  }

  predicate CustomMode(mode: string) {
    mode in {"custom-auto", "custom-force"}
  }

  function CleanClient(raw: Raw<RawClient>, lib: Library): Result<Client> {
    var c :- RequireGiven(raw, "relayClient");
    var mode :- RequireOneOf(c.mode, "relayClient.mode", {"off", "official-auto", "custom-auto", "custom-force"});
    var host :- if CustomMode(mode) then RequireHost(Get(c.host, ""), "relayClient.host", lib)
      else RequireGiven(Get(c.host, ""), "relayClient.host");
    var port :- RequireInt(c.port, "relayClient.port", 1, 65535);
    Ok(Client(mode, host, port))
  }

  function ClientWarnings(c: Client): seq<Warning> {
    if c.mode == "custom-force" then [ForcesRelay] else []
  }

  // ---------------------------------------------------------------------
  // The whole configuration
  // ---------------------------------------------------------------------

  function RelayBinding(c: Config): Binding {
    Binding(c.relayServer.bindAddress, c.relayServer.port)
  }

  function ControllerBinding(c: Config): Binding {
    Binding(c.controller.bindAddress, c.controller.port)
  }

  predicate ConflictFree(c: Config, lib: Library)
    requires |c.management.listeners| > 0
    requires c.management.allowZeroTier && c.management.zeroTierAddress != "" ==>
      lib.literal(c.management.zeroTierAddress).Some?
  {
    var listeners := BindingsOf(EffectiveListeners(c.management, lib));
    && (c.relayServer.enabled ==> ApartFrom(RelayBinding(c), listeners))
    && (c.controller.exposure == "direct" ==> ApartFrom(ControllerBinding(c), listeners))
    && (c.relayServer.enabled && c.controller.exposure == "direct" ==>
      !BindingsOverlap(RelayBinding(c), ControllerBinding(c)))
  }

  /** `validate_config` */
  function Validate(raw: RawConfig, lib: Library): Result<Checked<Config>>
    requires Lawful(lib)
  {
    if raw.otherKeys || raw.management.Missing? || raw.zerotier.Missing? || raw.controller.Missing? ||
      raw.relayServer.Missing? || raw.relayClient.Missing?
    then Err("config keys")
    else
      var management :- CleanManagement(raw.management, lib);
      var zerotier :- CleanZeroTier(raw.zerotier, lib);
      var controller :- CleanController(raw.controller, lib);
      var relay :- CleanRelay(raw.relayServer, lib);
      var client :- CleanClient(raw.relayClient, lib);
      var config := Config(management.value, zerotier, controller, relay, client);
      var warnings := management.warnings + ControllerWarnings(controller, management.value.listeners) +
        RelayWarnings(relay, lib) + ClientWarnings(client);
      assert ManagementOk(management.value, lib) by { ManagementIsClean(raw.management, lib); }
      if !ConflictFree(config, lib) then Err("conflict") else Ok(Checked(config, warnings))
  }

  // ---------------------------------------------------------------------
  // What the library functions promise
  // ---------------------------------------------------------------------

  /** Printing and parsing addresses and networks are inverse. */
  ghost predicate ParsesWhatItShows(lib: Library) {
    && (forall ip: Ip :: lib.literal(lib.show(ip)) == Some(ip))
    && (forall n: Net :: lib.network(lib.showNet(n)) == Some(n))
    && lib.literal("") == None
  }

  /** The canonical form of a host name is never longer, and is canonical. */
  predicate HostStable(lib: Library, h: string) {
    var n := lib.canonicalHost(h);
    && 0 < |n| <= |h|
    && match lib.literal(n)
       case Some(ip) => lib.show(ip) == n
       case None => lib.isHostname(n) && lib.canonicalHost(n) == n
  }

  /** Trailing slashes of an accepted origin carry no meaning. */
  predicate UrlStable(lib: Library, s: string) {
    var u, v := lib.url(s), lib.url(StripSlashes(s));
    UrlAccepted(v) && v.scheme == u.scheme && PublicPort(v) == PublicPort(u)
  }

  ghost predicate Lawful(lib: Library) {
    && ParsesWhatItShows(lib)
    && (forall h | lib.isHostname(h) && lib.literal(h).None? :: HostStable(lib, h))
    && (forall s | UrlAccepted(lib.url(s)) :: UrlStable(lib, s))
  }

  // ---------------------------------------------------------------------
  // Accepted sections
  // ---------------------------------------------------------------------

  predicate PortOk(port: int) {
    1 <= port <= 65535
  }

  predicate ListenerOk(l: Listener) {
    PortOk(l.port) && l.tlsMode in {"off", "self-signed", "files"} && |l.allowedCidrs| <= 64
  }

  predicate ListenersOk(ls: seq<Listener>) {
    (forall l | l in ls :: ListenerOk(l)) && Apart(BindingsOf(ls))
  }

  predicate ManagementOk(m: Management, lib: Library) {
    && 1 <= |m.listeners| <= 16 && ListenersOk(m.listeners)
    && |m.publicUrl| <= 512 && UrlAccepted(lib.url(m.publicUrl)) && StripSlashes(m.publicUrl) == m.publicUrl
    && (m.allowZeroTier ==>
          lib.isInterface(m.zeroTierInterface) && lib.literal(m.zeroTierAddress).Some? &&
            lib.show(lib.literal(m.zeroTierAddress).value) == m.zeroTierAddress)
    && 900 <= m.sessionMaxAgeSeconds <= 28800 && 1 <= m.loginAttempts <= 20 && 60 <= m.loginLockoutSeconds <= 86400
  }

  predicate ZeroTierOk(z: ZeroTier) {
    && PortOk(z.publicPort) && (z.secondaryPort == 0 || PortOk(z.secondaryPort))
    && (z.tertiaryPort == 0 || PortOk(z.tertiaryPort))
    && z.publicPort != z.secondaryPort && z.publicPort != z.tertiaryPort
    && (z.secondaryPort != 0 ==> z.secondaryPort != z.tertiaryPort)
  }

  predicate RelayOk(r: Relay) {
    && PortOk(r.port) && |r.allowedSourceCidrs| <= 64 && (forall n: Net | n in r.allowedSourceCidrs :: n.base.V4?)
    && 1 <= r.maxConnections <= 4096 && 1 <= r.maxConnectionsPerIp <= 256
    && 1 <= r.packetsPerSecond <= 100000 && 1024 <= r.bytesPerSecond <= 1073741824
    && 1 <= r.globalPacketsPerSecond <= 1000000 && 1024 <= r.globalBytesPerSecond <= 10737418240
    && 1 <= r.handshakeTimeoutSeconds <= 60 && 30 <= r.idleTimeoutSeconds <= 3600
    && 1 <= r.maxDestinations <= 1024 && PortOk(r.minDestinationPort)
  }

  /** A host in canonical form; its length may have grown past what a request may contain. */
  predicate HostOk(h: string, lib: Library) {
    match lib.literal(h)
    case Some(ip) => lib.show(ip) == h
    case None => 0 < |h| <= 253 && lib.isHostname(h) && lib.canonicalHost(h) == h
  }

  predicate ClientOk(c: Client, lib: Library) {
    && c.mode in {"off", "official-auto", "custom-auto", "custom-force"} && PortOk(c.port)
    && (CustomMode(c.mode) ==> HostOk(c.host, lib))
  }

  predicate ControllerOk(c: Controller) {
    c.exposure in {"internal", "direct", "https"} && PortOk(c.port)
  }

  /** Exactly the configurations that come out of validation. */
  predicate Clean(c: Config, lib: Library) {
    && ManagementOk(c.management, lib) && ZeroTierOk(c.zerotier) && ControllerOk(c.controller) && RelayOk(c.relayServer)
    && ClientOk(c.relayClient, lib) && ConflictFree(c, lib)
  }

  function AllListenerWarnings(ls: seq<Listener>, lib: Library): seq<Warning> {
    if ls == [] then [] else AllListenerWarnings(ls[..|ls| - 1], lib) + ListenerWarnings(ls[|ls| - 1], lib)
  }

  function ManagementWarnings(m: Management, lib: Library): seq<Warning> {
    AllListenerWarnings(m.listeners, lib) + UrlWarnings(lib.url(m.publicUrl), m.listeners) +
    AccessWarnings(m.allowZeroTier, m.zeroTierAddress, m.listeners, lib)
  }

  /** The warnings as a function of the accepted configuration alone. */
  function Warnings(c: Config, lib: Library): seq<Warning> {
    ManagementWarnings(c.management, lib) + ControllerWarnings(c.controller, c.management.listeners) +
    RelayWarnings(c.relayServer, lib) + ClientWarnings(c.relayClient)
  }

  // ---------------------------------------------------------------------
  // Validation accepts only clean configurations
  // ---------------------------------------------------------------------

  lemma {:induction false} NetsLength(items: seq<Raw<string>>, name: string, lib: Library)
    ensures NetsOf(items, name, lib).Ok? ==> |NetsOf(items, name, lib).value| == |items|
  {
    if items != [] {
      NetsLength(items[1..], name, lib);
    }
  }

  lemma CidrsLength(raw: Raw<seq<Raw<string>>>, name: string, lib: Library)
    ensures RequireCidrs(raw, name, lib).Ok? ==> |RequireCidrs(raw, name, lib).value| <= 64
  {
    hide NetsOf;
    var items := Get(raw, []);
    if items.Given? {
      NetsLength(items.value, name, lib);
    }
  }

  lemma ListenerIsOk(raw: Raw<RawListener>, lib: Library)
    ensures CleanListener(raw, lib).Ok? ==> ListenerOk(CleanListener(raw, lib).value)
  {
    hide RequireCidrs;
    if raw.Given? {
      CidrsLength(raw.value.allowedCidrs, "listener.allowedCidrs", lib);
    }
  }

  lemma OneMoreListener(done: seq<Listener>, l: Listener, lib: Library)
    requires ListenersOk(done) && ListenerOk(l)
    requires forall d | d in done :: !BindingsOverlap(BindingOf(l), BindingOf(d))
    ensures ListenersOk(done + [l])
    ensures AllListenerWarnings(done + [l], lib) == AllListenerWarnings(done, lib) + ListenerWarnings(l, lib)
  {
    hide ListenerOk, ListenerWarnings, BindingsOverlap, Apart;
    assert BindingsOf(done + [l]) == BindingsOf(done) + [BindingOf(l)];
    ApartAppend(BindingsOf(done), BindingOf(l));
    assert (done + [l])[..|done|] == done;
  }

  lemma {:induction false} ListenersAreOk(raws: seq<Raw<RawListener>>, done: seq<Listener>, warnings: seq<Warning>,
      lib: Library)
    requires ListenersOk(done) && warnings == AllListenerWarnings(done, lib)
    ensures var r := CleanListeners(raws, done, warnings, lib);
      r.Ok? ==>
        && |r.value.value| == |done| + |raws| && ListenersOk(r.value.value)
        && r.value.warnings == AllListenerWarnings(r.value.value, lib)
    decreases |raws|
  {
    hide CleanListener, ListenerWarnings, AllListenerWarnings, ListenersOk, BindingsOverlap;
    if raws != [] && CleanListener(raws[0], lib).Ok? {
      var l := CleanListener(raws[0], lib).value;
      ListenerIsOk(raws[0], lib);
      if !exists d | d in done :: BindingsOverlap(BindingOf(l), BindingOf(d)) {
        OneMoreListener(done, l, lib);
        ListenersAreOk(raws[1..], done + [l], warnings + ListenerWarnings(l, lib), lib);
      }
    }
  }

  lemma NoListeners(lib: Library)
    ensures ListenersOk([]) && AllListenerWarnings([], lib) == []
  {
  }

  lemma {:induction false} StripTwice(s: string)
    ensures StripSlashes(StripSlashes(s)) == StripSlashes(s)
  {
  }

  /** The warnings about the public URL depend only on its scheme and port. */
  lemma SameUrlWarnings(u: Url, v: Url, listeners: seq<Listener>)
    requires u.scheme == v.scheme && PublicPort(u) == PublicPort(v)
    ensures UrlWarnings(u, listeners) == UrlWarnings(v, listeners)
  {
  }

  lemma ManagementIsClean(raw: Raw<RawManagement>, lib: Library)
    requires Lawful(lib)
    ensures var r := CleanManagement(raw, lib);
      r.Ok? ==> ManagementOk(r.value.value, lib) && r.value.warnings == ManagementWarnings(r.value.value, lib)
  {
    hide CleanListeners, ListenersOk, AllListenerWarnings, StripSlashes, UrlAccepted, UrlWarnings, PublicPort,
      AccessWarnings;
    if CleanManagement(raw, lib).Ok? {
      var m := raw.value;
      NoListeners(lib);
      ListenersAreOk(m.listeners.value, [], [], lib);
      var url := m.publicUrl.value;
      assert UrlStable(lib, url);
      StripTwice(url);
      SameUrlWarnings(lib.url(url), lib.url(StripSlashes(url)),
        CleanListeners(m.listeners.value, [], [], lib).value.value);
    }
  }

  lemma ZeroTierIsClean(raw: Raw<RawZeroTier>, lib: Library)
    ensures CleanZeroTier(raw, lib).Ok? ==> ZeroTierOk(CleanZeroTier(raw, lib).value)
  {
  }

  lemma ControllerIsClean(raw: Raw<RawController>, lib: Library)
    ensures CleanController(raw, lib).Ok? ==> ControllerOk(CleanController(raw, lib).value)
  {
  }

  lemma RelayIsClean(raw: Raw<RawRelay>, lib: Library)
    ensures CleanRelay(raw, lib).Ok? ==> RelayOk(CleanRelay(raw, lib).value)
  {
    hide RequireCidrs;
    if raw.Given? {
      CidrsLength(raw.value.allowedSourceCidrs, "relayServer.allowedSourceCidrs", lib);
    }
  }

  lemma ClientIsClean(raw: Raw<RawClient>, lib: Library)
    requires Lawful(lib)
    ensures CleanClient(raw, lib).Ok? ==> ClientOk(CleanClient(raw, lib).value, lib)
  {
    if CleanClient(raw, lib).Ok? && CustomMode(raw.value.mode.value) {
      var h := Get(raw.value.host, "").value;
      if lib.literal(h).None? {
        assert HostStable(lib, h);
      }
    }
  }

  /** Whatever is accepted is clean, and its warnings can be read off the result. */
  lemma AcceptedIsClean(raw: RawConfig, lib: Library)
    requires Lawful(lib)
    ensures var r := Validate(raw, lib);
      r.Ok? ==> Clean(r.value.value, lib) && r.value.warnings == Warnings(r.value.value, lib)
  {
    hide CleanManagement, CleanZeroTier, CleanController, CleanRelay, CleanClient, ManagementOk, ZeroTierOk,
      ControllerOk, RelayOk, ClientOk;
    hide Lawful, ManagementWarnings, ControllerWarnings, RelayWarnings, ClientWarnings, ConflictFree;
    ManagementIsClean(raw.management, lib);
    ZeroTierIsClean(raw.zerotier, lib);
    ControllerIsClean(raw.controller, lib);
    RelayIsClean(raw.relayServer, lib);
    ClientIsClean(raw.relayClient, lib);
  }

  // ---------------------------------------------------------------------
  // Clean configurations are fixed points
  // ---------------------------------------------------------------------

  function RawNets(nets: seq<Net>, lib: Library): seq<Raw<string>> {
    if nets == [] then [] else [Given(lib.showNet(nets[0]))] + RawNets(nets[1..], lib)
  }

  function RawListenerOf(l: Listener, lib: Library): Raw<RawListener> {
    Given(RawListener(Given(lib.show(l.address)), Given(l.port), Given(l.tlsMode), Given(RawNets(l.allowedCidrs, lib))))
  }

  function RawListeners(ls: seq<Listener>, lib: Library): (r: seq<Raw<RawListener>>)
    ensures |r| == |ls|
  {
    if ls == [] then [] else [RawListenerOf(ls[0], lib)] + RawListeners(ls[1..], lib)
  }

  function RawManagementOf(m: Management, lib: Library): Raw<RawManagement> {
    Given(RawManagement(
      Given(m.publicUrl), Given(RawListeners(m.listeners, lib)), Given(m.allowZeroTier), Given(m.zeroTierInterface),
      Given(m.zeroTierAddress), Given(m.sessionMaxAgeSeconds), Given(m.loginAttempts), Given(m.loginLockoutSeconds)))
  }

  function RawZeroTierOf(z: ZeroTier, lib: Library): Raw<RawZeroTier> {
    Given(RawZeroTier(
      Given(z.enabled), Given(lib.show(z.bindAddress)), Given(z.publicPort), Given(z.secondaryPort),
      Given(z.tertiaryPort),
      Given(z.allowSecondaryPort), Given(z.portMappingEnabled)))
  }

  function RawControllerOf(c: Controller, lib: Library): Raw<RawController> {
    Given(RawController(Given(c.exposure), Given(lib.show(c.bindAddress)), Given(c.port)))
  }

  function RawRelayOf(r: Relay, lib: Library): Raw<RawRelay> {
    Given(RawRelay(
      Given(r.enabled), Given(lib.show(r.bindAddress)), Given(r.port), Given(RawNets(r.allowedSourceCidrs, lib)),
      Given(r.maxConnections), Given(r.maxConnectionsPerIp), Given(r.packetsPerSecond), Given(r.bytesPerSecond),
      Given(r.globalPacketsPerSecond), Given(r.globalBytesPerSecond), Given(r.handshakeTimeoutSeconds),
      Given(r.idleTimeoutSeconds), Given(r.maxDestinations), Given(r.minDestinationPort)))
  }

  function RawClientOf(c: Client): Raw<RawClient> {
    Given(RawClient(Given(c.mode), Given(c.host), Given(c.port)))
  }

  /** The request that asks for a configuration as it is stored. */
  function RawOf(c: Config, lib: Library): RawConfig {
    RawConfig(
      RawManagementOf(c.management, lib), RawZeroTierOf(c.zerotier, lib), RawControllerOf(c.controller, lib),
      RawRelayOf(c.relayServer, lib), RawClientOf(c.relayClient), false)
  }

  lemma {:induction false} NetsAgain(nets: seq<Net>, name: string, lib: Library)
    requires ParsesWhatItShows(lib)
    ensures |RawNets(nets, lib)| == |nets| && NetsOf(RawNets(nets, lib), name, lib) == Ok(nets)
  {
    if nets != [] {
      NetsAgain(nets[1..], name, lib);
      assert RawNets(nets, lib)[1..] == RawNets(nets[1..], lib);
      assert nets == [nets[0]] + nets[1..];
    }
  }

  lemma ListenerAgain(l: Listener, lib: Library)
    requires ParsesWhatItShows(lib) && ListenerOk(l)
    ensures CleanListener(RawListenerOf(l, lib), lib) == Ok(l)
  {
    hide NetsOf, RawNets;
    NetsAgain(l.allowedCidrs, "listener.allowedCidrs", lib);
  }

  lemma SplitListeners(done: seq<Listener>, l: Listener, rest: seq<Listener>)
    requires ListenersOk(done + ([l] + rest))
    ensures ListenerOk(l) && ListenersOk(done + [l])
    ensures forall d | d in done :: !BindingsOverlap(BindingOf(l), BindingOf(d))
  {
    hide ListenerOk, BindingsOverlap;
    var all, part := done + ([l] + rest), done + [l];
    assert all[|done|] == l;
    forall x | x in part ensures ListenerOk(x) {
      assert x in all;
    }
    forall i, j | 0 <= i < j < |part| ensures !BindingsOverlap(BindingsOf(part)[i], BindingsOf(part)[j]) {
      assert part[i] == all[i] && part[j] == all[j];
      assert !BindingsOverlap(BindingsOf(all)[i], BindingsOf(all)[j]);
    }
    assert BindingsOf(part) == BindingsOf(done) + [BindingOf(l)];
    ApartAppend(BindingsOf(done), BindingOf(l));
    forall d | d in done ensures !BindingsOverlap(BindingOf(l), BindingOf(d)) {
      var i :| 0 <= i < |done| && done[i] == d;
      assert BindingsOf(done)[i] == BindingOf(d);
    }
  }

  lemma SameBindingOverlaps(l: Listener, d: Listener)
    requires !BindingsOverlap(BindingOf(l), BindingOf(d))
    ensures !(d.address == l.address && d.port == l.port)
  {
  }

  lemma {:induction false} ListenersAgain(ls: seq<Listener>, done: seq<Listener>, warnings: seq<Warning>, lib: Library)
    requires ParsesWhatItShows(lib) && ListenersOk(done + ls) && ListenersOk(done) &&
      warnings == AllListenerWarnings(done, lib)
    ensures CleanListeners(RawListeners(ls, lib), done, warnings, lib) ==
      Ok(Checked(done + ls, AllListenerWarnings(done + ls, lib)))
    decreases |ls|
  {
    hide CleanListener, RawListenerOf, ListenerWarnings, AllListenerWarnings, ListenersOk, BindingsOverlap,
      ParsesWhatItShows, ListenerOk;
    if ls == [] {
      assert done + ls == done;
    } else {
      var l := ls[0];
      assert ls == [l] + ls[1..];
      SplitListeners(done, l, ls[1..]);
      ListenerAgain(l, lib);
      forall d | d in done ensures !(d.address == l.address && d.port == l.port) {
        SameBindingOverlaps(l, d);
      }
      OneMoreListener(done, l, lib);
      assert (done + [l]) + ls[1..] == done + ls;
      assert RawListeners(ls, lib)[1..] == RawListeners(ls[1..], lib);
      ListenersAgain(ls[1..], done + [l], warnings + ListenerWarnings(l, lib), lib);
    }
  }

  lemma ManagementAgain(m: Management, lib: Library)
    requires ParsesWhatItShows(lib) && ManagementOk(m, lib)
    ensures CleanManagement(RawManagementOf(m, lib), lib) == Ok(Checked(m, ManagementWarnings(m, lib)))
  {
    hide CleanListeners, RawListeners, ListenersOk, AllListenerWarnings, StripSlashes, UrlAccepted, UrlWarnings,
      AccessWarnings;
    NoListeners(lib);
    assert [] + m.listeners == m.listeners;
    ListenersAgain(m.listeners, [], [], lib);
    RawListenersLength(m.listeners, lib);
  }

  lemma RawListenersLength(ls: seq<Listener>, lib: Library)
    ensures |RawListeners(ls, lib)| == |ls|
  {
  }

  lemma RelayAgain(r: Relay, lib: Library)
    requires ParsesWhatItShows(lib) && RelayOk(r)
    ensures CleanRelay(RawRelayOf(r, lib), lib) == Ok(r)
  {
    hide NetsOf, RawNets, RequireInt, PortOk;
    NetsAgain(r.allowedSourceCidrs, "relayServer.allowedSourceCidrs", lib);
    PortAgain(r.port, "relayServer.port");
    PortAgain(r.minDestinationPort, "relayServer.minDestinationPort");
    ConnectionsAgain(r);
    RatesAgain(r);
    TimeoutsAgain(r);
  }

  lemma PortAgain(port: int, name: string)
    requires PortOk(port)
    ensures RequireInt(Given(port), name, 1, 65535) == Ok(port)
  {
  }

  lemma ConnectionsAgain(r: Relay)
    requires RelayOk(r)
    ensures RequireInt(Given(r.maxConnections), "relayServer.maxConnections", 1, 4096) == Ok(r.maxConnections)
    ensures RequireInt(Given(r.maxConnectionsPerIp), "relayServer.maxConnectionsPerIp", 1, 256) ==
      Ok(r.maxConnectionsPerIp)
    ensures RequireInt(Given(r.maxDestinations), "relayServer.maxDestinations", 1, 1024) == Ok(r.maxDestinations)
  {
  }

  lemma RatesAgain(r: Relay)
    requires RelayOk(r)
    ensures RequireInt(Given(r.packetsPerSecond), "relayServer.packetsPerSecond", 1, 100000) == Ok(r.packetsPerSecond)
    ensures RequireInt(Given(r.bytesPerSecond), "relayServer.bytesPerSecond", 1024, 1073741824) == Ok(r.bytesPerSecond)
    ensures RequireInt(Given(r.globalPacketsPerSecond), "relayServer.globalPacketsPerSecond", 1, 1000000) ==
      Ok(r.globalPacketsPerSecond)
    ensures RequireInt(Given(r.globalBytesPerSecond), "relayServer.globalBytesPerSecond", 1024, 10737418240) ==
      Ok(r.globalBytesPerSecond)
  {
  }

  lemma TimeoutsAgain(r: Relay)
    requires RelayOk(r)
    ensures RequireInt(Given(r.handshakeTimeoutSeconds), "relayServer.handshakeTimeoutSeconds", 1, 60) ==
      Ok(r.handshakeTimeoutSeconds)
    ensures RequireInt(Given(r.idleTimeoutSeconds), "relayServer.idleTimeoutSeconds", 30, 3600) ==
      Ok(r.idleTimeoutSeconds)
  {
  }

  lemma ZeroTierAgain(z: ZeroTier, lib: Library)
    requires ParsesWhatItShows(lib) && ZeroTierOk(z)
    ensures CleanZeroTier(RawZeroTierOf(z, lib), lib) == Ok(z)
  {
  }

  lemma ControllerAgain(c: Controller, lib: Library)
    requires ParsesWhatItShows(lib) && ControllerOk(c)
    ensures CleanController(RawControllerOf(c, lib), lib) == Ok(c)
  {
  }

  /** A stored host can be submitted again unless its canonical form outgrew the limit. */
  predicate HostFits(c: Client) {
    CustomMode(c.mode) ==> |c.host| <= 253
  }

  lemma ClientAgain(c: Client, lib: Library)
    requires ParsesWhatItShows(lib) && ClientOk(c, lib)
    ensures CleanClient(RawClientOf(c), lib) == if HostFits(c) then Ok(c) else Err("relayClient.host")
  {
  }

  lemma CleanIsFixed(c: Config, lib: Library)
    requires Lawful(lib) && Clean(c, lib)
    ensures Validate(RawOf(c, lib), lib) ==
      if HostFits(c.relayClient) then Ok(Checked(c, Warnings(c, lib))) else Err("relayClient.host")
  {
    hide CleanManagement, CleanZeroTier, CleanController, CleanRelay, CleanClient, ManagementOk, ZeroTierOk,
      ControllerOk, RelayOk, ClientOk;
    hide HostFits, ManagementWarnings, ControllerWarnings, RelayWarnings, ClientWarnings, ConflictFree;
    hide RawManagementOf, RawZeroTierOf, RawControllerOf, RawRelayOf, RawClientOf;
    ManagementAgain(c.management, lib);
    ZeroTierAgain(c.zerotier, lib);
    ControllerAgain(c.controller, lib);
    RelayAgain(c.relayServer, lib);
    ClientAgain(c.relayClient, lib);
    AllGiven(c, lib);
  }

  lemma AllGiven(c: Config, lib: Library)
    ensures var r := RawOf(c, lib);
      r.management.Given? && r.zerotier.Given? && r.controller.Given? && r.relayServer.Given? && r.relayClient.Given?
  {
  }

  /**
   * Validating a validated configuration gives it back, warnings included, exactly when the canonical host is not too
   * long.
   */
  lemma ValidateTwice(raw: RawConfig, lib: Library)
    requires Lawful(lib) && Validate(raw, lib).Ok?
    ensures var r := Validate(raw, lib);
      Validate(RawOf(r.value.value, lib), lib) == r <==> HostFits(r.value.value.relayClient)
  {
    hide Lawful, Clean, Validate, Warnings, HostFits, RawOf;
    AcceptedIsClean(raw, lib);
    CleanIsFixed(Validate(raw, lib).value.value, lib);
  }

  // ---------------------------------------------------------------------
  // Accepted bindings do not collide
  // ---------------------------------------------------------------------

  /** Every TCP socket the stack binds on the host. */
  function Bindings(c: Config, lib: Library): seq<Binding>
    requires ManagementOk(c.management, lib)
  {
    BindingsOf(EffectiveListeners(c.management, lib)) +
    (if c.relayServer.enabled then [RelayBinding(c)] else []) +
    (if c.controller.exposure == "direct" then [ControllerBinding(c)] else [])
  }

  /** The added ZeroTier listener is a wildcard that no listener covers, and a listener of its version uses its port. */
  predicate WildcardCollides(m: Management, lib: Library) {
    && m.allowZeroTier && m.zeroTierAddress != "" && |m.listeners| > 0 && lib.literal(m.zeroTierAddress).Some?
    && var selected := lib.literal(m.zeroTierAddress).value;
      && Unspecified(selected)
      && (forall l | l in m.listeners :: !(Unspecified(l.address) && SameVersion(l.address, selected)))
      && exists l | l in m.listeners :: SameVersion(l.address, selected) && l.port == m.listeners[0].port
  }

  lemma ShowIsInjective(a: Ip, b: Ip, lib: Library)
    requires ParsesWhatItShows(lib) && lib.show(a) == lib.show(b)
    ensures a == b
  {
    assert Some(a) == lib.literal(lib.show(a));
    assert Some(b) == lib.literal(lib.show(b));
  }

  lemma BindingMember(ls: seq<Listener>, b: Binding)
    ensures ApartFrom(b, BindingsOf(ls)) <==> forall l | l in ls :: !BindingsOverlap(b, BindingOf(l))
  {
    hide BindingsOverlap;
    var bs := BindingsOf(ls);
    if ApartFrom(b, bs) {
      forall l | l in ls ensures !BindingsOverlap(b, BindingOf(l)) {
        var i :| 0 <= i < |ls| && ls[i] == l;
        assert !BindingsOverlap(b, bs[i]);
      }
    }
    if forall l | l in ls :: !BindingsOverlap(b, BindingOf(l)) {
      forall i | 0 <= i < |bs| ensures !BindingsOverlap(b, bs[i]) {
        assert ls[i] in ls;
      }
    }
  }

  lemma EffectiveApart(m: Management, lib: Library)
    requires Lawful(lib) && ManagementOk(m, lib)
    ensures Apart(BindingsOf(EffectiveListeners(m, lib))) <==> !WildcardCollides(m, lib)
  {
    hide UrlAccepted, StripSlashes, Apart, ListenerOk;
    if m.allowZeroTier && m.zeroTierAddress != "" {
      var selected := lib.literal(m.zeroTierAddress).value;
      if Covered(m, selected, lib) {
        CoveredDoesNotCollide(m, selected, lib);
      } else {
        var added := m.listeners[0].(address := selected);
        assert BindingsOf(m.listeners + [added]) == BindingsOf(m.listeners) + [BindingOf(added)];
        ApartAppend(BindingsOf(m.listeners), BindingOf(added));
        BindingMember(m.listeners, BindingOf(added));
        AddedOverlaps(m, selected, lib);
      }
    }
  }

  lemma CoveredDoesNotCollide(m: Management, selected: Ip, lib: Library)
    requires ParsesWhatItShows(lib) && Covered(m, selected, lib) && lib.literal(m.zeroTierAddress) == Some(selected)
    requires lib.show(selected) == m.zeroTierAddress
    ensures !WildcardCollides(m, lib)
  {
    var l :| l in m.listeners &&
      (lib.show(l.address) == m.zeroTierAddress || (Unspecified(l.address) && SameVersion(l.address, selected)));
    if lib.show(l.address) == m.zeroTierAddress {
      ShowIsInjective(l.address, selected, lib);
    }
  }

  lemma AddedOverlaps(m: Management, selected: Ip, lib: Library)
    requires !Covered(m, selected, lib) && lib.literal(m.zeroTierAddress) == Some(selected) &&
      lib.show(selected) == m.zeroTierAddress
    requires m.allowZeroTier && m.zeroTierAddress != "" && |m.listeners| > 0
    ensures
      (forall l | l in m.listeners :: !BindingsOverlap(Binding(selected, m.listeners[0].port), BindingOf(l))) <==>
      !WildcardCollides(m, lib)
  {
    var b := Binding(selected, m.listeners[0].port);
    if l :| l in m.listeners && BindingsOverlap(b, BindingOf(l)) {
      assert l.address != selected;
      assert Unspecified(selected);
    }
    if WildcardCollides(m, lib) {
      var l :| l in m.listeners && SameVersion(l.address, selected) && l.port == m.listeners[0].port;
      assert BindingsOverlap(b, BindingOf(l));
    }
  }

  /**
   * The sockets of an accepted configuration are pairwise disjoint, except exactly when the ZeroTier address is an
   * uncovered wildcard and the port it inherits is used by a listener of its version.
   */
  lemma AcceptedBindings(raw: RawConfig, lib: Library)
    requires Lawful(lib) && Validate(raw, lib).Ok?
    ensures var c := Validate(raw, lib).value.value;
      ManagementOk(c.management, lib) && (Apart(Bindings(c, lib)) <==> !WildcardCollides(c.management, lib))
  {
    hide Lawful, Validate, ManagementOk, ZeroTierOk, ControllerOk, RelayOk, ClientOk, BindingsOverlap,
      WildcardCollides, Apart, ApartFrom, EffectiveListeners;
    AcceptedIsClean(raw, lib);
    var c := Validate(raw, lib).value.value;
    EffectiveDefined(c.management, lib);
    EffectiveApart(c.management, lib);
    var bs := BindingsOf(EffectiveListeners(c.management, lib));
    ApartAppend(bs, RelayBinding(c));
    ApartAppend(bs, ControllerBinding(c));
    ApartAppend(bs + [RelayBinding(c)], ControllerBinding(c));
    OverlapSymmetric(RelayBinding(c), ControllerBinding(c));
    ApartFromAppend(ControllerBinding(c), bs, RelayBinding(c));
    assert bs + [] == bs;
    assert (bs + [RelayBinding(c)]) + [] == bs + [RelayBinding(c)];
  }

  lemma EffectiveDefined(m: Management, lib: Library)
    requires ManagementOk(m, lib)
    ensures |m.listeners| > 0 && (m.allowZeroTier && m.zeroTierAddress != "" ==> lib.literal(m.zeroTierAddress).Some?)
  {
  }

  lemma ApartFromAppend(b: Binding, bs: seq<Binding>, last: Binding)
    ensures ApartFrom(b, bs + [last]) <==> ApartFrom(b, bs) && !BindingsOverlap(b, last)
  {
    hide BindingsOverlap;
    var all := bs + [last];
    if ApartFrom(b, all) {
      forall i | 0 <= i < |bs| ensures !BindingsOverlap(b, bs[i]) {
        assert !BindingsOverlap(b, all[i]);
      }
      assert !BindingsOverlap(b, all[|bs|]);
    }
  }

  // ---------------------------------------------------------------------
  // The two exceptions happen
  // ---------------------------------------------------------------------

  const LOOPBACK: Ip := V4(0x7F00_0001)
  const ANYWHERE: Ip := V4(0)

  function ExampleManagement(url: string, allow: bool, ztInterface: string, ztAddress: string): Management {
    Management(url, [Listener(LOOPBACK, 3443, "self-signed", [])], allow, ztInterface, ztAddress, 28800, 5, 900)
  }

  /** The initial configuration with the given management and client sections. */
  function Example(m: Management, client: Client): Config {
    Config(m, ZeroTier(true, ANYWHERE, 9993, 0, 0, true, true), Controller("internal", LOOPBACK, 9993),
      Relay(false, ANYWHERE, 443, [], 128, 4, 200, 2097152, 2000, 20971520, 10, 300, 64, 1025), client)
  }

  lemma ExampleManagementOk(url: string, allow: bool, ztInterface: string, ztAddress: string, lib: Library)
    requires |url| <= 512 && UrlAccepted(lib.url(url)) && StripSlashes(url) == url
    requires allow ==> lib.isInterface(ztInterface)
    requires allow ==> lib.literal(ztAddress).Some? && lib.show(lib.literal(ztAddress).value) == ztAddress
    ensures ManagementOk(ExampleManagement(url, allow, ztInterface, ztAddress), lib)
  {
    hide UrlAccepted, StripSlashes;
    assert ListenersOk(ExampleManagement(url, allow, ztInterface, ztAddress).listeners);
  }

  lemma ExampleIsClean(m: Management, client: Client, lib: Library)
    requires ManagementOk(m, lib) && ClientOk(client, lib)
    ensures Clean(Example(m, client), lib)
  {
    hide ManagementOk, ClientOk;
    EffectiveDefined(m, lib);
  }

  /** A wildcard ZeroTier address is accepted although the listener it adds overlaps the first one. */
  lemma WildcardIsAccepted(url: string, ztInterface: string, lib: Library)
    requires Lawful(lib) && |url| <= 512 && UrlAccepted(lib.url(url)) && StripSlashes(url) == url &&
      lib.isInterface(ztInterface)
    ensures var c := Example(ExampleManagement(url, true, ztInterface, lib.show(ANYWHERE)), Client("off", "", 443));
      && Validate(RawOf(c, lib), lib).Ok? && Validate(RawOf(c, lib), lib).value.value == c
      && ManagementOk(c.management, lib) && !Apart(Bindings(c, lib))
  {
    hide *;
    ShowsZero(lib);
    var m, off := ExampleManagement(url, true, ztInterface, lib.show(ANYWHERE)), Client("off", "", 443);
    var c := Example(m, off);
    ExampleManagementOk(url, true, ztInterface, lib.show(ANYWHERE), lib);
    OffIsOk(lib);
    ExampleIsClean(m, off, lib);
    OffFits();
    ExampleParts(m, off);
    CleanIsFixed(c, lib);
    ExampleCollides(url, ztInterface, lib);
    AcceptedBindings(RawOf(c, lib), lib);
  }

  lemma OffIsOk(lib: Library)
    ensures ClientOk(Client("off", "", 443), lib)
  {
  }

  lemma OffFits()
    ensures HostFits(Client("off", "", 443))
  {
  }

  lemma ExampleParts(m: Management, client: Client)
    ensures Example(m, client).management == m && Example(m, client).relayClient == client
  {
  }

  lemma ExampleCollides(url: string, ztInterface: string, lib: Library)
    requires Lawful(lib)
    ensures WildcardCollides(ExampleManagement(url, true, ztInterface, lib.show(ANYWHERE)), lib)
  {
    var m := ExampleManagement(url, true, ztInterface, lib.show(ANYWHERE));
    assert m.listeners[0] in m.listeners;
  }

  lemma ShowsZero(lib: Library)
    requires Lawful(lib)
    ensures lib.literal(lib.show(ANYWHERE)) == Some(ANYWHERE) && lib.show(ANYWHERE) != ""
  {
  }

  /**
   * An address literal whose canonical form is longer than 253 characters is accepted once and refused the second
   * time.
   */
  lemma LongHostIsRefusedLater(url: string, ip: Ip, host: string, lib: Library)
    requires Lawful(lib) && |url| <= 512 && UrlAccepted(lib.url(url)) && StripSlashes(url) == url
    requires 0 < |host| <= 253 < |lib.show(ip)| && lib.literal(host) == Some(ip)
    ensures exists raw: RawConfig ::
      Validate(raw, lib).Ok? && Validate(RawOf(Validate(raw, lib).value.value, lib), lib) == Err("relayClient.host")
  {
    hide *;
    var client := Client("custom-auto", lib.show(ip), 443);
    var m := ExampleManagement(url, false, "", "");
    var c := Example(m, client);
    ExampleManagementOk(url, false, "", "", lib);
    LongHost(ip, lib);
    ExampleIsClean(m, client, lib);
    ExampleParts(m, client);
    SameWithShortHost(c, host, ip, lib);
    CleanIsFixed(c, lib);
    var raw := RawOf(c, lib).(relayClient := RawClientOf(Client("custom-auto", host, 443)));
    assert Validate(raw, lib).Ok? &&
      Validate(RawOf(Validate(raw, lib).value.value, lib), lib) == Err("relayClient.host");
  }

  lemma LongHost(ip: Ip, lib: Library)
    requires Lawful(lib) && |lib.show(ip)| > 253
    ensures ClientOk(Client("custom-auto", lib.show(ip), 443), lib) &&
      !HostFits(Client("custom-auto", lib.show(ip), 443))
  {
  }

  lemma SameWithShortHost(c: Config, host: string, ip: Ip, lib: Library)
    requires Lawful(lib) && Clean(c, lib) && c.relayClient == Client("custom-auto", lib.show(ip), 443)
    requires 0 < |host| <= 253 && lib.literal(host) == Some(ip)
    ensures var r := Validate(RawOf(c, lib).(relayClient := RawClientOf(Client("custom-auto", host, 443))), lib);
      r.Ok? && r.value.value == c
  {
    hide CleanManagement, CleanZeroTier, CleanController, CleanRelay, ManagementOk, ZeroTierOk, ControllerOk, RelayOk,
      ClientOk;
    hide ManagementWarnings, ControllerWarnings, RelayWarnings, ConflictFree, RawManagementOf, RawZeroTierOf,
      RawControllerOf, RawRelayOf;
    ManagementAgain(c.management, lib);
    ZeroTierAgain(c.zerotier, lib);
    ControllerAgain(c.controller, lib);
    RelayAgain(c.relayServer, lib);
    AllGiven(c, lib);
  }
}
