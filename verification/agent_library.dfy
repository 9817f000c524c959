/** A library that keeps the laws the agent relies on: dotted quads, IPv6 groups with a zone, origins and host names. */
module AgentLibrary {
  import opened Basics
  import opened AgentConfig
  import opened Numerals
  import AddressBits

  // ---------------------------------------------------------------------
  // Texts
  // ---------------------------------------------------------------------

  function Dotted(v: nat): string
    requires v < 0x1_0000_0000
  {
    var o := AddressBits.Octets(v);
    Decimal(o[0]) + "." + (Decimal(o[1]) + "." + (Decimal(o[2]) + "." + Decimal(o[3])))
  }

  /** The last `k` hexadecimal digits. */
  function Hex(g: nat, k: nat): (s: string)
    ensures |s| == k
  {
    if k == 0 then "" else Hex(g / 16, k - 1) + [DigitChar(g % 16)]
  }

  function Pow16(k: nat): (p: nat)
    ensures p >= 1
  {
    if k == 0 then 1 else 16 * Pow16(k - 1)
  }

  function Pow65536(k: nat): (p: nat)
    ensures p >= 1
  {
    if k == 0 then 1 else 0x1_0000 * Pow65536(k - 1)
  }

  /** The last `k` groups of sixteen bits, each behind a colon. */
  function Groups(v: nat, k: nat): (s: string)
    ensures |s| == 5 * k
  {
    if k == 0 then "" else Groups(v / 0x1_0000, k - 1) + ":" + Hex(v % 0x1_0000, 4)
  }

  function Show(ip: Ip): string {
    match ip
    case V4(v) => Dotted(v)
    case V6(v, scope) => Groups(v, 8)[1..] + (if scope == "" then "" else "%" + scope)
  }

  function ShowNet(n: Net): string {
    Show(n.base) + "/" + Decimal(n.prefix)
  }

  // ---------------------------------------------------------------------
  // No two addresses or networks have the same text
  // ---------------------------------------------------------------------

  lemma FirstSeparator(a: string, b: string, c: char, x: string, y: string)
    requires c !in b && a + [c] + x == b + [c] + y
    ensures |b| <= |a|
  {
    var s := a + [c] + x;
    assert s[|a|] == c;
    forall i | 0 <= i < |b| ensures s[i] != c {
      assert s == b + [c] + y && s[i] == b[i];
    }
  }

  /** Text up to the first separator, and text behind it. */
  lemma SplitOnce(a: string, b: string, c: char, x: string, y: string)
    requires c !in a && c !in b && a + [c] + x == b + [c] + y
    ensures a == b && x == y
  {
    FirstSeparator(a, b, c, x, y);
    FirstSeparator(b, a, c, y, x);
    var s := a + [c] + x;
    assert a == s[..|a|] && b == s[..|b|];
    assert x == s[|a| + 1..] && y == s[|b| + 1..];
  }

  lemma DottedInjective(v: nat, w: nat)
    requires v < 0x1_0000_0000 && w < 0x1_0000_0000 && Dotted(v) == Dotted(w)
    ensures v == w
  {
    hide Decimal;
    var a, b := AddressBits.Octets(v), AddressBits.Octets(w);
    forall i | 0 <= i < 4 ensures '.' !in Decimal(a[i]) && '.' !in Decimal(b[i]) {
      DecimalDigits(a[i]);
      DecimalDigits(b[i]);
    }
    var x2, y2 := Decimal(a[2]) + "." + Decimal(a[3]), Decimal(b[2]) + "." + Decimal(b[3]);
    var x1, y1 := Decimal(a[1]) + "." + x2, Decimal(b[1]) + "." + y2;
    SplitOnce(Decimal(a[0]), Decimal(b[0]), '.', x1, y1);
    SplitOnce(Decimal(a[1]), Decimal(b[1]), '.', x2, y2);
    SplitOnce(Decimal(a[2]), Decimal(b[2]), '.', Decimal(a[3]), Decimal(b[3]));
    forall i | 0 <= i < 4 ensures a[i] == b[i] {
      DecimalInjective(a[i], b[i]);
    }
    AddressBits.OctetsRoundTrip(v);
    AddressBits.OctetsRoundTrip(w);
  }

  lemma {:induction false} HexInjective(g: nat, h: nat, k: nat)
    requires g < Pow16(k) && h < Pow16(k) && Hex(g, k) == Hex(h, k)
    ensures g == h
  {
    hide DigitChar;
    if k > 0 {
      var x, y := Hex(g, k), Hex(h, k);
      assert x[..k - 1] == Hex(g / 16, k - 1) && y[..k - 1] == Hex(h / 16, k - 1);
      assert x[k - 1] == DigitChar(g % 16) && y[k - 1] == DigitChar(h % 16);
      HexInjective(g / 16, h / 16, k - 1);
      DigitCharInjective(g % 16, h % 16);
    }
  }

  lemma FourDigits()
    ensures Pow16(4) == 0x1_0000
  {
    assert Pow16(2) == 0x100;
  }

  lemma {:induction false} GroupsInjective(v: nat, w: nat, k: nat)
    requires v < Pow65536(k) && w < Pow65536(k) && Groups(v, k) == Groups(w, k)
    ensures v == w
  {
    hide Hex;
    if k > 0 {
      var x, y := Groups(v, k), Groups(w, k);
      assert x[..5 * (k - 1)] == Groups(v / 0x1_0000, k - 1) && y[..5 * (k - 1)] == Groups(w / 0x1_0000, k - 1);
      assert x[5 * k - 4..] == Hex(v % 0x1_0000, 4) && y[5 * k - 4..] == Hex(w % 0x1_0000, 4);
      GroupsInjective(v / 0x1_0000, w / 0x1_0000, k - 1);
      FourDigits();
      HexInjective(v % 0x1_0000, w % 0x1_0000, 4);
    }
  }

  lemma {:induction false} HexDigits(g: nat, k: nat)
    ensures forall c | c in Hex(g, k) :: IsDigitChar(c)
  {
    hide DigitChar, IsDigitChar;
    if k > 0 {
      HexDigits(g / 16, k - 1);
      DigitCharIsDigit(g % 16);
    }
  }

  lemma {:induction false} GroupsText(v: nat, k: nat)
    ensures forall c | c in Groups(v, k) :: IsDigitChar(c) || c == ':'
    ensures k > 0 ==> Groups(v, k)[0] == ':'
    ensures k > 1 ==> ':' in Groups(v, k)[1..]
  {
    hide Hex, IsDigitChar;
    if k > 0 {
      GroupsText(v / 0x1_0000, k - 1);
      HexDigits(v % 0x1_0000, 4);
      var front := Groups(v / 0x1_0000, k - 1);
      if k > 1 {
        assert Groups(v, k)[1..][|front| - 1] == ':';
      }
    }
  }

  lemma EightGroups()
    ensures Pow65536(8) == 0x1_0000_0000_0000_0000_0000_0000_0000_0000
  {
    assert Pow65536(2) == 0x1_0000_0000;
    assert Pow65536(4) == 0x1_0000_0000_0000_0000;
    assert Pow65536(6) == 0x1_0000_0000_0000_0000_0000_0000;
  }

  /** Which characters occur: no slash at all, and a colon exactly in IPv6. */
  lemma ShowText(ip: Ip)
    ensures '/' !in Show(ip) && |Show(ip)| > 0 && IsDigitChar(Show(ip)[0])
    ensures ':' in Show(ip) <==> ip.V6?
    ensures ip.V6? ==> |Show(ip)| >= 39 && '%' !in Show(ip)[..39]
  {
    match ip
    case V4(v) =>
      DottedText(v);
    case V6(v, scope) =>
      GroupsText(v, 8);
      SecondIsDigit(v);
      var g := Groups(v, 8);
      assert Show(ip)[..39] == g[1..];
      assert ':' in Show(ip)[..39];
      forall c | c in g[1..] ensures IsDigitChar(c) || c == ':' {
        assert c in g;
      }
  }

  lemma DottedText(v: nat)
    requires v < 0x1_0000_0000
    ensures |Dotted(v)| > 0 && IsDigitChar(Dotted(v)[0]) && forall c | c in Dotted(v) :: IsDigitChar(c) || c == '.'
  {
    hide Decimal, IsDigitChar;
    var o := AddressBits.Octets(v);
    forall i | 0 <= i < 4 ensures |Decimal(o[i])| > 0 && forall c | c in Decimal(o[i]) :: IsDigitChar(c) {
      DecimalDigits(o[i]);
    }
    assert Dotted(v)[0] == Decimal(o[0])[0];
    assert Decimal(o[0])[0] in Decimal(o[0]);
  }

  lemma {:induction false} SecondDigit(v: nat, k: nat)
    requires k > 0
    ensures IsDigitChar(Groups(v, k)[1])
  {
    hide Hex, IsDigitChar;
    if k == 1 {
      HexDigits(v % 0x1_0000, 4);
      assert Groups(v, k) == ":" + Hex(v % 0x1_0000, 4);
      assert Groups(v, k)[1] == Hex(v % 0x1_0000, 4)[0];
    } else {
      SecondDigit(v / 0x1_0000, k - 1);
      assert Groups(v, k)[1] == Groups(v / 0x1_0000, k - 1)[1];
    }
  }

  lemma SecondIsDigit(v: nat)
    ensures IsDigitChar(Groups(v, 8)[1])
  {
    SecondDigit(v, 8);
  }

  lemma ShowInjective(a: Ip, b: Ip)
    requires Show(a) == Show(b)
    ensures a == b
  {
    hide Dotted, Groups;
    ShowText(a);
    ShowText(b);
    match a
    case V4(v) =>
      DottedInjective(v, b.value);
    case V6(v, scope) =>
      var g, h := Groups(v, 8), Groups(b.value, 8);
      GroupsText(v, 8);
      GroupsText(b.value, 8);
      assert Show(a)[..39] == g[1..] && Show(b)[..39] == h[1..];
      assert g == ":" + g[1..] && h == ":" + h[1..];
      EightGroups();
      GroupsInjective(v, b.value, 8);
      assert Show(a)[39..] == if scope == "" then "" else "%" + scope;
      assert Show(b)[39..] == if b.scope == "" then "" else "%" + b.scope;
      assert scope != "" ==> ("%" + scope)[1..] == scope;
      assert b.scope != "" ==> ("%" + b.scope)[1..] == b.scope;
  }

  lemma ShowNetInjective(m: Net, n: Net)
    requires ShowNet(m) == ShowNet(n)
    ensures m == n
  {
    hide Show, Decimal;
    ShowText(m.base);
    ShowText(n.base);
    SplitOnce(Show(m.base), Show(n.base), '/', Decimal(m.prefix), Decimal(n.prefix));
    ShowInjective(m.base, n.base);
    DecimalInjective(m.prefix, n.prefix);
  }

  // ---------------------------------------------------------------------
  // The library
  // ---------------------------------------------------------------------

  /** `::%zone`, a second way to write the zero address with a zone. */
  predicate ShortZero(s: string) {
    |s| > 3 && s[..3] == "::%" && '%' !in s[3..] && '/' !in s[3..]
  }

  ghost function ParseIp(s: string): Option<Ip> {
    if exists ip: Ip :: Show(ip) == s then
      var ip: Ip :| Show(ip) == s;
      Some(ip)
    else if ShortZero(s) then Some(V6(0, s[3..]))
    else None
  }

  ghost function ParseNet(s: string): Option<Net> {
    if exists n: Net :: ShowNet(n) == s then
      var n: Net :| ShowNet(n) == s;
      Some(n)
    else None
  }

  const SCHEME: string := "https://"

  function WithoutSlash(s: string): string {
    if s != "" && s[|s| - 1] == '/' then s[..|s| - 1] else s
  }

  /** `https://` and a host, perhaps with one slash behind it. */
  predicate IsOrigin(s: string) {
    |s| > 8 && s[..8] == SCHEME && var host := WithoutSlash(s[8..]); host != "" && '/' !in host
  }

  function ParseUrl(s: string): Url {
    if IsOrigin(s) then Url("https", true, if s[|s| - 1] == '/' then "/" else "", false, true, None)
    else Url("", false, "", false, false, None)
  }

  predicate IsName(s: string) {
    0 < |s| <= 253 && forall c | c in s :: 'a' <= c <= 'z'
  }

  ghost function Sample(): Library {
    Library(
      s => ParseIp(s), (ip: Ip) => Show(ip), s => ParseNet(s), (n: Net) => ShowNet(n), s => ParseUrl(s),
      (ip: Ip) => false, (ip: Ip) => ip == LOOPBACK, s => "zt" <= s, s => IsName(s), s => s)
  }

  lemma SampleParses()
    ensures ParsesWhatItShows(Sample())
  {
    hide Show, ShowNet;
    forall ip: Ip ensures ParseIp(Show(ip)) == Some(ip) {
      var other: Ip := ParseIp(Show(ip)).value;
      ShowInjective(ip, other);
    }
    forall n: Net ensures ParseNet(ShowNet(n)) == Some(n) {
      var other: Net := ParseNet(ShowNet(n)).value;
      ShowNetInjective(n, other);
    }
    if exists ip: Ip :: Show(ip) == "" {
      var ip: Ip :| Show(ip) == "";
      ShowText(ip);
    }
  }

  lemma OriginStable(s: string)
    requires IsOrigin(s)
    ensures IsOrigin(StripSlashes(s))
  {
    hide StripSlashes;
    var host := WithoutSlash(s[8..]);
    var t := SCHEME + host;
    assert t == WithoutSlash(s);
    assert t[|t| - 1] == host[|host| - 1];
    assert host[|host| - 1] in host;
    StripOne(s);
    assert t[..8] == SCHEME && t[8..] == host && WithoutSlash(host) == host;
  }

  lemma StripOne(s: string)
    requires var t := WithoutSlash(s); t != "" && t[|t| - 1] != '/'
    ensures StripSlashes(s) == WithoutSlash(s)
  {
  }

  /** The laws hold of a library that parses all addresses and networks, so what is proved from them says something. */
  lemma SampleIsLawful()
    ensures Lawful(Sample())
  {
    hide ParseIp, ParseNet, Show, ShowNet, IsOrigin, StripSlashes, IsName;
    var lib := Sample();
    SampleParses();
    forall h | lib.isHostname(h) && lib.literal(h).None? ensures HostStable(lib, h) {
      NameLength(h);
    }
    forall s | UrlAccepted(lib.url(s)) ensures UrlStable(lib, s) {
      OriginStable(s);
    }
  }

  /** Everything the exceptional cases of validation ask for can be met. */
  lemma SampleReaches(zone: string)
    requires |zone| == 250 && forall c | c in zone :: c == 'z'
    ensures var lib := Sample();
      && UrlAccepted(lib.url("https://p")) && StripSlashes("https://p") == "https://p" && lib.isInterface("zt0")
      && lib.literal("::%" + zone) == Some(V6(0, zone)) && |lib.show(V6(0, zone))| > 253
  {
    var s := "::%" + zone;
    assert s[3..] == zone && s[..3] == "::%" && s[0] == ':';
    assert !exists ip: Ip :: Show(ip) == s by {
      if exists ip: Ip :: Show(ip) == s {
        var ip: Ip :| Show(ip) == s;
        ShowText(ip);
      }
    }
    assert "https://p"[..8] == SCHEME && "https://p"[8..] == "p";
  }

  lemma NameLength(s: string)
    requires IsName(s)
    ensures |s| > 0
  {
  }
}
