/** Rule tables and definitions written out as source text, and what compiling that text gives. */
module RulePrinter {
  import opened Basics
  import opened Numerals
  import opened RuleText
  import opened RuleScanner
  import opened RuleMatches
  import opened RuleActions
  import opened RuleCompiler
  import opened RuleFields

  // ---------------------------------------------------------------------
  // One match
  // ---------------------------------------------------------------------

  /** A word that is neither a keyword nor a variable. */
  predicate PlainText(t: string, lang: Language) {
    && t != "" && t !in lang.reserved && t[0] != '$' && t[0] != '#' && t[|t| - 1] != ';'
    && forall c | c in t :: !IsSpace(c)
  }

  function KindOf(b: MatchBody): MatchKind {
    match b
    case ZtMatch(source, _) => ZtKind(source)
    case NumberMatch(field, _) => NumberKind(field)
    case RandomMatch(_) => RandomKind
    case MacMatch(source, _) => MacKind(source)
    case IpMatch(source, _, _) => IpKind(source)
    case IcmpMatch(_, _) => IcmpKind
    case RangeMatch(range, _, _) => RangeKind(range)
    case TosMatch(_, _, _) => TosKind
    case ChrMatch(_, _) => ChrKind
    case TagMatch(test, _, _) => TagKind(test)
  }

  function NumberWord(field: NumberField): string {
    match field
    case VlanId => "vlan"
    case VlanPcp => "vlanpcp"
    case VlanDei => "vlandei"
    case EtherType => "ethertype"
    case IpProtocol => "ipprotocol"
  }

  function TagTestWord(test: TagTest): string {
    match test
    case TagAnd => "tand"
    case TagOr => "tor"
    case TagXor => "txor"
    case TagDiff => "tdiff"
    case TagEqual => "teq"
    case TagSender => "tseq"
    case TagReceiver => "treq"
  }

  /** The documented keyword of each kind of match. */
  function WordOf(kind: MatchKind): string {
    match kind
    case ZtKind(source) => if source then "ztsrc" else "ztdest"
    case NumberKind(field) => NumberWord(field)
    case RandomKind => "random"
    case MacKind(source) => if source then "macsrc" else "macdest"
    case IpKind(source) => if source then "ipsrc" else "ipdest"
    case IcmpKind => "icmp"
    case RangeKind(SourcePort) => "sport"
    case RangeKind(DestPort) => "dport"
    case RangeKind(FrameSize) => "framesize"
    case TosKind => "iptos"
    case ChrKind => "chr"
    case TagKind(test) => TagTestWord(test)
  }

  /** The bits of a mask from `from` on. */
  function BitsFrom(hi: bv32, lo: bv32, from: nat): (bs: seq<nat>)
    requires from <= 64
    ensures forall b | b in bs :: from <= b < 64 && MaskBit(hi, lo, b)
    ensures forall b | from <= b < 64 && MaskBit(hi, lo, b) :: b in bs
    decreases 64 - from
  {
    if from == 64 then []
    else if MaskBit(hi, lo, from) then [from] + BitsFrom(hi, lo, from + 1)
    else BitsFrom(hi, lo, from + 1)
  }

  function Decimals(bs: seq<nat>): (parts: seq<string>)
    ensures |parts| == |bs| && forall i | 0 <= i < |bs| :: parts[i] == Decimal(bs[i])
  {
    seq(|bs|, i requires 0 <= i < |bs| => Decimal(bs[i]))
  }

  /** A list of bits; a comma alone names none. */
  function BitsText(bs: seq<nat>): string {
    if bs == [] then "," else Joined(Decimals(bs))
  }

  /** The arguments of a match, with `pen` writing the fraction for a probability. */
  function ArgTexts(b: MatchBody, pen: int -> string): (texts: seq<string>)
    requires ValidBody(b)
    ensures |texts| == ArgCount(KindOf(b))
  {
    match b
    case ZtMatch(_, zt) => [zt]
    case NumberMatch(_, value) => [Decimal(value)]
    case RandomMatch(probability) => [pen(probability)]
    case MacMatch(_, mac) => [mac]
    case IpMatch(_, _, ip) => [ip]
    case IcmpMatch(icmpType, code) => [Decimal(icmpType), if code.Some? then Decimal(code.value) else "-1"]
    case RangeMatch(_, start, end) => [Decimal(start) + "-" + Decimal(end)]
    case TosMatch(mask, start, end) => [Decimal(mask), Decimal(start) + "-" + Decimal(end)]
    case ChrMatch(hi, lo) => [BitsText(BitsFrom(hi, lo, 0))]
    case TagMatch(_, id, value) => [Decimal(id), Decimal(value)]
  }

  function BitSet(hi: bv32, lo: bv32): set<int> {
    set b | 0 <= b < 64 && MaskBit(hi, lo, b)
  }

  /** What can be written: addresses the patterns accept, probabilities the pen can write, masks `Math.abs` spares. */
  predicate WritableBody(b: MatchBody, pen: int -> string, lang: Language) {
    && ValidBody(b)
    && match b
       case RandomMatch(p) => PlainText(pen(p), lang) && lang.float(pen(p)) * 4294967295.0 == p as real
       case IpMatch(_, v6, ip) =>
         var address := ip[..IndexOf(ip, '/')];
         PlainText(ip, lang) && if v6 then lang.isIpv6(address) else !lang.isIpv6(address) && lang.isIpv4(address)
       case ChrMatch(hi, lo) => TopAlone(BitSet(hi, lo))
       case _ => true
  }

  /** Reserved words are short, start with a letter and are not the digits of an address. */
  predicate ReservedAreWords(lang: Language) {
    forall w | w in lang.reserved :: |w| <= 10 && w != "" && 'a' <= w[0] <= 'z' && !(AllHex(w) && |w| == 10)
  }

  /** No name of a type, a protocol or a bit starts with a digit. */
  predicate NamesAreWords(lang: Language) {
    && (forall t | t in lang.etherTypes :: t == "" || !('0' <= t[0] <= '9'))
    && (forall t | t in lang.protocols :: t == "" || !('0' <= t[0] <= '9'))
    && (forall t | t in lang.bits :: t == "" || !('0' <= t[0] <= '9'))
  }

  predicate TagsAreWords(tags: map<string, Tag>) {
    forall t | t in tags :: t == "" || !('0' <= t[0] <= '9')
  }

  /** The documented keywords stand for what they are documented for. */
  ghost predicate WordsKnown(lang: Language) {
    && (forall kind :: Lower(WordOf(kind)) in lang.words && lang.words[Lower(WordOf(kind))] == Keyword(kind))
    && (forall word | word in {And, Not, Or} ::
          Lower(LeadText(word)) in lang.words && lang.words[Lower(LeadText(word))] == word)
  }

  function LeadText(word: MatchWord): string {
    match word
    case Not => "not"
    case Or => "or"
    case _ => "and"
  }

  lemma DecimalFirst(n: nat)
    ensures '0' <= Decimal(n)[0] <= '9'
  {
    DecimalDigits(n);
    assert Decimal(n)[0] in Decimal(n);
  }

  // ---------------------------------------------------------------------
  // The fields come back
  // ---------------------------------------------------------------------

  lemma NumberReads(b: MatchBody, e: Elem, pen: int -> string, scope: Scope)
    requires NamesAreWords(scope.lang) && WritableBody(b, pen, scope.lang) && b.NumberMatch? &&
      Reads(e, ArgTexts(b, pen)[0])
    ensures RenderMatch(KindOf(b), [e], scope.tags, scope.lang) == Ok(b)
  {
    hide RenderMatch, Decimal;
    DecimalFirst(b.value);
    assert Number(b.value, false) == Decimal(b.value);
    NumberFields(b.field, b.value, false, e, e, scope.tags, scope.lang);
  }

  /** The twelve digits of a MAC text. */
  function MacDigits(mac: string): (digits: string)
    requires |mac| == 17
    ensures |digits| == 12
  {
    seq(12, i requires 0 <= i < 12 => mac[i + i / 2])
  }

  lemma MacIsPairs(mac: string)
    requires |mac| == 17 && forall i | 0 <= i < 17 :: if i % 3 == 2 then mac[i] == ':' else IsHex(mac[i])
    ensures AllHex(MacDigits(mac)) && Pairs(MacDigits(mac)) == mac
  {
    hide Pairs;
    var digits := MacDigits(mac);
    forall i | 0 <= i < 12 ensures IsHex(digits[i]) {
      assert (i + i / 2) % 3 != 2;
    }
    PairsAt(digits, 0);
    forall i | 0 <= i < 17 ensures Pairs(digits)[i] == mac[i] {
      PairsAt(digits, i);
      assert i % 3 != 2 ==> i - i / 3 + (i - i / 3) / 2 == i;
    }
  }

  lemma AddressReads(b: MatchBody, e: Elem, pen: int -> string, scope: Scope)
    requires WritableBody(b, pen, scope.lang) && (b.ZtMatch? || b.MacMatch? || b.IpMatch?)
    requires Reads(e, ArgTexts(b, pen)[0])
    ensures RenderMatch(KindOf(b), [e], scope.tags, scope.lang) == Ok(b)
  {
    hide RenderMatch, Pairs, MacDigits, PlainText, AllHex;
    match b
    case ZtMatch(source, zt) =>
      assert AllHex(e.text);
      ZtFields(source, e, scope.tags, scope.lang);
    case MacMatch(source, mac) =>
      MacIsPairs(mac);
      MacFields(source, MacDigits(mac), e, scope.tags, scope.lang);
    case IpMatch(source, _, ip) =>
      var slash := IndexOf(ip, '/');
      var address, mask := ip[..slash], ip[slash + 1..];
      assert ip == address + "/" + mask;
      IpFields(source, address, mask, e, Tok(address, 0, 0), scope.tags, scope.lang);
  }

  lemma RandomReads(b: MatchBody, e: Elem, pen: int -> string, scope: Scope)
    requires WritableBody(b, pen, scope.lang) && b.RandomMatch? && Reads(e, ArgTexts(b, pen)[0])
    ensures RenderMatch(KindOf(b), [e], scope.tags, scope.lang) == Ok(b)
  {
    hide RenderMatch, PlainText;
    var x, p := scope.lang.float(e.text), b.probability;
    Share(x, p);
    RandomField(e, scope.tags, scope.lang);
    var q := RenderMatch(RandomKind, [e], scope.tags, scope.lang).value.probability;
    assert q as real <= p as real < q as real + 1.0;
  }

  lemma Share(x: real, p: int)
    requires x * 4294967295.0 == p as real && 0 <= p <= U32_MAX
    ensures 0.0 <= x <= 1.0
  {
  }

  lemma RangeReads(b: MatchBody, e: Elem, pen: int -> string, scope: Scope)
    requires WritableBody(b, pen, scope.lang) && b.RangeMatch? && Reads(e, ArgTexts(b, pen)[0])
    ensures RenderMatch(KindOf(b), [e], scope.tags, scope.lang) == Ok(b)
  {
    hide RenderMatch, Decimal;
    assert Number(b.start, false) == Decimal(b.start) && Number(b.end, false) == Decimal(b.end);
    RangeFields(b.range, b.start, b.end, false, false, e, Tok(Decimal(b.start), 0, 0), scope.tags, scope.lang);
  }

  lemma PairReads(b: MatchBody, d: Elem, e: Elem, pen: int -> string, scope: Scope)
    requires TagsAreWords(scope.tags) && WritableBody(b, pen, scope.lang) &&
      (b.IcmpMatch? || b.TosMatch? || b.TagMatch?)
    requires Reads(d, ArgTexts(b, pen)[0]) && Reads(e, ArgTexts(b, pen)[1])
    ensures RenderMatch(KindOf(b), [d, e], scope.tags, scope.lang) == Ok(b)
  {
    hide RenderMatch, Decimal;
    match b
    case IcmpMatch(icmpType, code) =>
      assert Number(icmpType, false) == Decimal(icmpType);
      var c: Option<nat> := if code.Some? then Some(code.value) else None;
      IcmpFields(icmpType, false, c, false, d, e, scope.tags, scope.lang);
    case TosMatch(mask, start, end) =>
      assert Number(mask, false) == Decimal(mask);
      assert Number(start, false) == Decimal(start) && Number(end, false) == Decimal(end);
      TosFields(mask, false, start, end, false, false, d, e, Tok(Decimal(start), 0, 0), scope.tags, scope.lang);
    case TagMatch(test, id, value) =>
      DecimalFirst(id);
      assert Number(id, false) == Decimal(id) && Number(value, false) == Decimal(value);
      TagNumbers(test, id, false, value, false, d, e, scope.tags, scope.lang);
  }

  // ---------------------------------------------------------------------
  // Masks
  // ---------------------------------------------------------------------

  lemma DecimalPieces(bs: seq<nat>, seps: set<char>)
    requires forall c | c in seps :: !('0' <= c <= '9')
    ensures forall p | p in Decimals(bs) :: Piece(p, seps)
  {
    hide Decimal;
    forall p | p in Decimals(bs) ensures Piece(p, seps) {
      var i :| 0 <= i < |bs| && p == Decimal(bs[i]);
      DecimalDigits(bs[i]);
    }
  }

  lemma SplitBits(bs: seq<nat>)
    ensures SplitRuns(BitsText(bs), {','}) == if bs == [] then ["", ""] else Decimals(bs)
  {
    hide SplitRuns, Decimals;
    if bs == [] {
      assert "," == "" + [','] + "";
      SplitFirst("", ',', "", {','});
      SplitLast("", {','});
    } else {
      DecimalPieces(bs, {','});
      SplitJoined(Decimals(bs), "", {','});
      assert Joined(Decimals(bs)) + "" == Joined(Decimals(bs));
    }
  }

  function ToSet(bs: seq<nat>): set<int> {
    set b | b in bs
  }

  lemma {:induction false} NamedDecimals(bs: seq<nat>, lang: Language)
    requires NamesAreWords(lang) && forall b | b in bs :: b < 64
    ensures NamedBits(Decimals(bs), lang.bits) == Some(ToSet(bs))
  {
    hide Decimal, ParseNum;
    if bs == [] {
      assert Decimals(bs) == [] && ToSet(bs) == {};
    } else {
      var rest := bs[1..];
      assert Decimals(bs)[1..] == Decimals(rest);
      assert forall b | b in rest :: b in bs;
      NamedDecimals(rest, lang);
      DecimalFirst(bs[0]);
      assert Number(bs[0], false) == Decimal(bs[0]);
      NumberIsRead(bs[0], false);
      assert bs[0] in bs;
      assert ToSet(bs) == {bs[0] as int} + ToSet(rest);
    }
  }

  lemma SameAt(m: bv32, n: bv32, a: bv32)
    requires a & (a - 1) == 0 && Meets(m, a) == Meets(n, a)
    ensures !Meets(m ^ n, a)
  {
  }

  lemma NothingDiffers(m: bv32, n: bv32)
    requires (m ^ n) & (0x8000_0000 - 1) == 0 && (m ^ n) < 0x8000_0000
    ensures m == n
  {
  }

  /** A 32-bit pattern is determined by its bits. */
  lemma SameBits(m: bv32, n: bv32)
    requires forall b | 0 <= b < 32 :: Raised(m, b) <==> Raised(n, b)
    ensures m == n
  {
    hide Meets, Bit;
    var x := m ^ n;
    forall b | 0 <= b < 32 ensures !Raised(x, b) {
      assert Raised(m, b) <==> Raised(n, b);
      IsPower(b);
      SameAt(m, n, Bit(b));
    }
    NoLowerBits(x, 31);
    TopValue();
    TopBit(x);
    NothingDiffers(m, n);
  }

  lemma SameMask(hi: bv32, lo: bv32, hi': bv32, lo': bv32)
    requires forall b | 0 <= b < 64 :: MaskBit(hi, lo, b) <==> MaskBit(hi', lo', b)
    ensures hi == hi' && lo == lo'
  {
    hide Raised;
    forall b | 0 <= b < 32 ensures (Raised(hi, b) <==> Raised(hi', b)) && (Raised(lo, b) <==> Raised(lo', b)) {
      assert MaskBit(hi, lo, b) <==> MaskBit(hi', lo', b);
      assert MaskBit(hi, lo, b + 32) <==> MaskBit(hi', lo', b + 32);
    }
    SameBits(hi, hi');
    SameBits(lo, lo');
  }

  lemma ChrReads(b: MatchBody, e: Elem, pen: int -> string, scope: Scope)
    requires NamesAreWords(scope.lang) && WritableBody(b, pen, scope.lang) && b.ChrMatch? &&
      Reads(e, ArgTexts(b, pen)[0])
    ensures RenderMatch(KindOf(b), [e], scope.tags, scope.lang) == Ok(b)
  {
    hide RenderMatch, MaskBit, SplitRuns, Decimals, NamedBits, TopAlone, BitsText;
    var bs := BitsFrom(b.hi, b.lo, 0);
    assert ToSet(bs) == BitSet(b.hi, b.lo);
    NamedList(bs, scope.lang);
    ChrExact(e, scope.tags, scope.lang);
    var r := RenderMatch(ChrKind, [e], scope.tags, scope.lang).value;
    forall k | 0 <= k < 64 ensures MaskBit(r.hi, r.lo, k) <==> MaskBit(b.hi, b.lo, k) {
    }
    SameMask(r.hi, r.lo, b.hi, b.lo);
  }

  lemma NamedList(bs: seq<nat>, lang: Language)
    requires NamesAreWords(lang) && forall b | b in bs :: b < 64
    ensures NamedBits(SplitRuns(BitsText(bs), {','}), lang.bits) == Some(ToSet(bs))
  {
    hide SplitRuns, Decimals;
    SplitBits(bs);
    NamedDecimals(bs, lang);
    if bs == [] {
      assert ["", ""][1..] == [""] && [""][1..] == [];
      assert NamedBits(["", ""], lang.bits) == NamedBits([""], lang.bits) == Some({});
    }
  }

  /** Whatever can be written is read back, field by field. */
  lemma BodyReads(b: MatchBody, args: seq<Elem>, pen: int -> string, scope: Scope)
    requires NamesAreWords(scope.lang) && TagsAreWords(scope.tags) && WritableBody(b, pen, scope.lang)
    requires |args| == ArgCount(KindOf(b)) && (forall a | a in args :: a.Tok?)
    requires forall i | 0 <= i < |args| :: Reads(args[i], ArgTexts(b, pen)[i])
    ensures RenderMatch(KindOf(b), args, scope.tags, scope.lang) == Ok(b)
  {
    hide RenderMatch, ArgTexts, WritableBody, NamesAreWords, TagsAreWords;
    if |args| == 1 {
      assert args == [args[0]];
      match b
      case NumberMatch(_, _) => NumberReads(b, args[0], pen, scope);
      case RandomMatch(_) => RandomReads(b, args[0], pen, scope);
      case RangeMatch(_, _, _) => RangeReads(b, args[0], pen, scope);
      case ChrMatch(_, _) => ChrReads(b, args[0], pen, scope);
      case _ => AddressReads(b, args[0], pen, scope);
    } else {
      assert args == [args[0], args[1]];
      PairReads(b, args[0], args[1], pen, scope);
    }
  }

  // ---------------------------------------------------------------------
  // Blocks of matches
  // ---------------------------------------------------------------------

  function W(text: string): Elem {
    Tok(text, 0, 0)
  }

  function WordElems(texts: seq<string>): (es: seq<Elem>)
    ensures |es| == |texts| && forall i | 0 <= i < |es| :: es[i] == W(texts[i])
  {
    seq(|texts|, i requires 0 <= i < |texts| => W(texts[i]))
  }

  predicate WritableMatch(r: Rule, pen: int -> string, lang: Language) {
    r.Match? && WritableBody(r.body, pen, lang)
  }

  function MatchElems(r: Rule, pen: int -> string): seq<Elem>
    requires r.Match? && ValidBody(r.body)
  {
    Optional(r.not, Not) + (Optional(r.or, Or) + KeywordElems(r.body, pen))
  }

  function Optional(written: bool, word: MatchWord): seq<Elem> {
    if written then [W(LeadText(word))] else []
  }

  function KeywordElems(b: MatchBody, pen: int -> string): seq<Elem>
    requires ValidBody(b)
  {
    [W(WordOf(KindOf(b)))] + WordElems(ArgTexts(b, pen))
  }

  predicate AllWritable(rs: seq<Rule>, pen: int -> string, lang: Language) {
    forall i | 0 <= i < |rs| :: WritableMatch(rs[i], pen, lang)
  }

  predicate AllMatches(rs: seq<Rule>) {
    forall i | 0 <= i < |rs| :: rs[i].Match? && ValidBody(rs[i].body)
  }

  function MatchesElems(rs: seq<Rule>, pen: int -> string): seq<Elem>
    requires AllMatches(rs)
  {
    if rs == [] then [] else MatchElems(rs[0], pen) + MatchesElems(rs[1..], pen)
  }

  /** The arguments that a match is written with are words like any other. */
  lemma ArgsPlain(b: MatchBody, pen: int -> string, lang: Language)
    requires ReservedAreWords(lang) && WritableBody(b, pen, lang)
    ensures forall t | t in ArgTexts(b, pen) :: PlainText(t, lang)
  {
    hide Decimal, BitsText;
    match b
    case ZtMatch(_, zt) => HexPlain(zt, lang);
    case NumberMatch(_, value) => DecimalPlain(value, lang);
    case RandomMatch(_) =>
    case MacMatch(_, mac) => MacPlain(mac, lang);
    case IpMatch(_, _, _) =>
    case IcmpMatch(t, code) =>
      DecimalPlain(t, lang);
      if code.Some? {
        DecimalPlain(code.value, lang);
      }
    case RangeMatch(_, start, end) => RangePlain(start, end, lang);
    case TosMatch(mask, start, end) =>
      DecimalPlain(mask, lang);
      RangePlain(start, end, lang);
    case ChrMatch(hi, lo) => BitsPlain(BitsFrom(hi, lo, 0), lang);
    case TagMatch(_, id, value) =>
      DecimalPlain(id, lang);
      DecimalPlain(value, lang);
  }

  lemma DigitsPlain(t: string, lang: Language)
    requires ReservedAreWords(lang) && t != "" && forall c | c in t :: '0' <= c <= '9' || c == '-' || c == ','
    ensures PlainText(t, lang)
  {
    assert t[0] in t && t[|t| - 1] in t;
  }

  lemma DecimalPlain(n: nat, lang: Language)
    requires ReservedAreWords(lang)
    ensures PlainText(Decimal(n), lang)
  {
    DecimalDigits(n);
    DigitsPlain(Decimal(n), lang);
  }

  lemma RangePlain(a: nat, b: nat, lang: Language)
    requires ReservedAreWords(lang)
    ensures PlainText(Decimal(a) + "-" + Decimal(b), lang)
  {
    DecimalDigits(a);
    DecimalDigits(b);
    DigitsPlain(Decimal(a) + "-" + Decimal(b), lang);
  }

  lemma HexPlain(t: string, lang: Language)
    requires ReservedAreWords(lang) && AllHex(t) && |t| == 10
    ensures PlainText(t, lang)
  {
    assert t[0] in t && t[9] in t;
  }

  lemma MacPlain(t: string, lang: Language)
    requires ReservedAreWords(lang) && |t| == 17
    requires forall i | 0 <= i < 17 :: if i % 3 == 2 then t[i] == ':' else IsHex(t[i])
    ensures PlainText(t, lang)
  {
  }

  lemma {:induction false} JoinedDigits(bs: seq<nat>)
    ensures forall c | c in Joined(Decimals(bs)) :: '0' <= c <= '9' || c == ','
    ensures bs != [] ==> Joined(Decimals(bs)) != ""
  {
    hide Decimal;
    if bs != [] {
      DecimalDigits(bs[0]);
      JoinedDigits(bs[1..]);
      assert Decimals(bs)[1..] == Decimals(bs[1..]);
    }
  }

  lemma BitsPlain(bs: seq<nat>, lang: Language)
    requires ReservedAreWords(lang)
    ensures PlainText(BitsText(bs), lang)
  {
    hide Decimals;
    JoinedDigits(bs);
    DigitsPlain(BitsText(bs), lang);
  }

  lemma {:induction false} ArgumentsRead(prev: Elem, es: seq<Elem>, texts: seq<string>, scope: Scope)
    requires |texts| <= |es| && forall i | 0 <= i < |texts| :: Reads(es[i], texts[i]) && PlainText(texts[i], scope.lang)
    ensures Arguments(prev, es, |texts|, scope) == Ok(es[..|texts|])
    decreases |texts|
  {
    if texts != [] {
      assert Reads(es[0], texts[0]) && PlainText(texts[0], scope.lang);
      ArgumentsRead(es[0], es[1..], texts[1..], scope);
      assert es[..|texts|] == [es[0]] + es[1..][..|texts| - 1];
    } else {
      assert es[..0] == [];
    }
  }

  /** A keyword and its arguments, whatever stands behind them. */
  lemma KeywordReads(b: MatchBody, es: seq<Elem>, pen: int -> string, scope: Scope)
    requires Regular(scope) && WritableBody(b, pen, scope.lang) && |es| >= 1 + ArgCount(KindOf(b))
    requires Reads(es[0], WordOf(KindOf(b)))
    requires forall i | 0 <= i < ArgCount(KindOf(b)) :: Reads(es[1 + i], ArgTexts(b, pen)[i])
    ensures Classify(es[0], scope.lang) == Known(Keyword(KindOf(b)))
    ensures RenderKeyword(es, KindOf(b), scope) == Ok(b)
  {
    hide RenderMatch, ArgTexts, ValidBody, NamesAreWords, TagsAreWords, ReservedAreWords, PlainText, Lower, WordOf;
    var n, texts := ArgCount(KindOf(b)), ArgTexts(b, pen);
    ArgsPlain(b, pen, scope.lang);
    forall i | 0 <= i < n ensures Reads(es[1..][i], texts[i]) && PlainText(texts[i], scope.lang) {
      assert es[1..][i] == es[1 + i] && texts[i] in texts;
    }
    ArgumentsRead(es[0], es[1..], texts, scope);
    var args := es[1..][..n];
    forall i | 0 <= i < n ensures Reads(args[i], texts[i]) {
      assert args[i] == es[1 + i];
    }
    BodyReads(b, args, pen, scope);
    WordNonEmpty(KindOf(b));
  }

  lemma WordNonEmpty(kind: MatchKind)
    ensures WordOf(kind) != ""
  {
  }

  ghost predicate Regular(scope: Scope) {
    && NamesAreWords(scope.lang) && TagsAreWords(scope.tags) && ReservedAreWords(scope.lang) && WordsKnown(scope.lang)
  }

  lemma EraseParts(es: seq<Elem>, a: seq<Elem>, b: seq<Elem>)
    requires Erase(es) == a + b
    ensures |es| == |a| + |b| && Erase(es[..|a|]) == a && Erase(es[|a|..]) == b
    ensures forall i | 0 <= i < |a| :: EraseElem(es[i]) == a[i]
  {
    hide EraseElem;
    var all := Erase(es);
    assert |all| == |es|;
    forall i | 0 <= i < |a| ensures EraseElem(es[i]) == a[i] {
      assert all[i] == a[i];
    }
    forall i | 0 <= i < |b| ensures EraseElem(es[|a| + i]) == b[i] {
      assert all[|a| + i] == b[i];
    }
    assert Erase(es[..|a|]) == a;
    assert Erase(es[|a|..]) == b;
  }

  lemma PeelLead(word: MatchWord, es: seq<Elem>, not: bool, or: bool, more: seq<Elem>, scope: Scope)
    requires Regular(scope) && word in {And, Not, Or} && Erase(es) == [W(LeadText(word))] + more
    ensures es != [] && Erase(es[1..]) == more
    ensures Matches(es, not, or, scope) == Matches(es[1..], not || word == Not, or || word == Or, scope)
  {
    hide RenderKeyword, Lower, NamesAreWords, TagsAreWords, ReservedAreWords;
    EraseParts(es, [W(LeadText(word))], more);
    assert EraseElem(es[0]) == W(LeadText(word));
    assert Classify(es[0], scope.lang) == Known(word);
  }

  lemma PeelKeyword(b: MatchBody, es: seq<Elem>, not: bool, or: bool, more: seq<Elem>, pen: int -> string, scope: Scope)
    requires Regular(scope) && WritableBody(b, pen, scope.lang) && Erase(es) == KeywordElems(b, pen) + more
    ensures var k := |KeywordElems(b, pen)|;
      && |es| >= k && Erase(es[k..]) == more
      && Matches(es, not, or, scope) == Prepend([Match(not, or, b)], Matches(es[k..], false, false, scope))
  {
    hide RenderKeyword, Lower, NamesAreWords, TagsAreWords, ReservedAreWords, WordsKnown, ArgTexts, ValidBody, WordOf;
    var a := KeywordElems(b, pen);
    EraseParts(es, a, more);
    assert EraseElem(es[0]) == a[0];
    forall i | 0 <= i < ArgCount(KindOf(b)) ensures Reads(es[1 + i], ArgTexts(b, pen)[i]) {
      assert EraseElem(es[1 + i]) == a[1 + i];
    }
    KeywordReads(b, es, pen, scope);
  }

  lemma MatchReads(r: Rule, es: seq<Elem>, more: seq<Elem>, pen: int -> string, scope: Scope)
    requires Regular(scope) && WritableMatch(r, pen, scope.lang) && Erase(es) == MatchElems(r, pen) + more
    ensures var k := |MatchElems(r, pen)|;
      && |es| >= k && Erase(es[k..]) == more
      && Matches(es, false, false, scope) == Prepend([r], Matches(es[k..], false, false, scope))
  {
    hide Matches, Regular, ValidBody, KeywordElems, Erase, Optional;
    var body := KeywordElems(r.body, pen);
    var a, b := Optional(r.not, Not), Optional(r.or, Or);
    assert MatchElems(r, pen) + more == a + (b + (body + more));
    PeelOptional(r.not, Not, es, false, false, b + (body + more), scope);
    var es1 := es[|a|..];
    PeelOptional(r.or, Or, es1, r.not, false, body + more, scope);
    var es2 := es1[|b|..];
    PeelKeyword(r.body, es2, r.not, r.or, more, pen, scope);
    assert es2[|body|..] == es[|MatchElems(r, pen)|..];
  }

  lemma PeelOptional(
      written: bool, word: MatchWord, es: seq<Elem>, not: bool, or: bool, more: seq<Elem>, scope: Scope)
    requires Regular(scope) && word in {Not, Or} && Erase(es) == Optional(written, word) + more
    ensures var n := |Optional(written, word)|;
      && |es| >= n && Erase(es[n..]) == more
      && Matches(es, not, or, scope) ==
         Matches(es[n..], not || (written && word == Not), or || (written && word == Or), scope)
  {
    hide Matches, Regular;
    if written {
      PeelLead(word, es, not, or, more, scope);
    } else {
      assert [] + more == more && es[0..] == es;
    }
  }

  /** A written block of matches renders as those matches. */
  lemma {:induction false} MatchesRead(rs: seq<Rule>, es: seq<Elem>, pen: int -> string, scope: Scope)
    requires Regular(scope) && AllWritable(rs, pen, scope.lang) && AllMatches(rs) && Erase(es) == MatchesElems(rs, pen)
    ensures Matches(es, false, false, scope) == Output(rs, None)
    decreases |rs|
  {
    hide Regular, MatchElems, WritableBody, ValidBody;
    if rs == [] {
      assert es == [];
    } else {
      assert WritableMatch(rs[0], pen, scope.lang);
      MatchReads(rs[0], es, MatchesElems(rs[1..], pen), pen, scope);
      MatchesRead(rs[1..], es[|MatchElems(rs[0], pen)|..], pen, scope);
      assert rs == [rs[0]] + rs[1..];
    }
  }

  // ---------------------------------------------------------------------
  // Rule tables
  // ---------------------------------------------------------------------

  /** Matches and the action they lead to. */
  datatype Entry = Entry(matches: seq<Rule>, action: Rule)

  function ActionWordOf(action: Rule): ActionWord
    requires !action.Match?
  {
    match action
    case Act(verdict) => Plain(verdict)
    case CopyTo(watch, _, _) => Copy(watch)
    case DivertTo(_) => Divert
  }

  /** The documented keyword of each action. */
  function ActionText(word: ActionWord): string {
    match word
    case Include => "include"
    case Plain(Drop) => "drop"
    case Plain(Accept) => "accept"
    case Plain(Break) => "break"
    case Copy(watch) => if watch then "watch" else "tee"
    case Divert => "redirect"
  }

  ghost predicate ActionsKnown(lang: Language) {
    forall word :: Lower(ActionText(word)) in lang.actions && lang.actions[Lower(ActionText(word))] == word
  }

  /** A word that stays one word. */
  predicate WordText(t: string) {
    t != "" && t[0] != '#' && t[|t| - 1] != ';' && forall c | c in t :: !IsSpace(c)
  }

  predicate WritableAction(action: Rule) {
    && !action.Match? && ValidRule(action)
    && (action.CopyTo? ==> WordText(action.address)) && (action.DivertTo? ==> WordText(action.address))
  }

  predicate WritableEntry(e: Entry, pen: int -> string, lang: Language) {
    AllWritable(e.matches, pen, lang) && AllMatches(e.matches) && WritableAction(e.action)
  }

  /** The action's own arguments. `and` says nothing; it keeps a block from being empty. */
  function OwnWords(action: Rule): seq<Elem>
    requires WritableAction(action)
  {
    match action
    case Act(_) => [W("and")]
    case CopyTo(_, address, length) => [W(if length < 0 then "-1" else Decimal(length)), W(address)]
    case DivertTo(address) => [W(address)]
  }

  function EntryElems(e: Entry, pen: int -> string): seq<Elem>
    requires AllMatches(e.matches) && WritableAction(e.action)
  {
    [W(ActionText(ActionWordOf(e.action))), Block(OwnWords(e.action) + MatchesElems(e.matches, pen))]
  }

  predicate WritableTable(entries: seq<Entry>, pen: int -> string, lang: Language) {
    forall i | 0 <= i < |entries| :: WritableEntry(entries[i], pen, lang)
  }

  function TableElems(entries: seq<Entry>, pen: int -> string, lang: Language): seq<Elem>
    requires WritableTable(entries, pen, lang)
  {
    if entries == [] then [] else EntryElems(entries[0], pen) + TableElems(entries[1..], pen, lang)
  }

  function Table(entries: seq<Entry>): seq<Rule> {
    if entries == [] then [] else entries[0].matches + [entries[0].action] + Table(entries[1..])
  }

  lemma EraseBlock(e: Elem, inner: seq<Elem>)
    requires EraseElem(e) == Block(inner)
    ensures e.Block? && Erase(e.elems) == inner
  {
    hide EraseElem;
    assert e.Block? by { TokStaysTok(e); }
    BlockErases(e.elems);
  }

  lemma TokStaysTok(e: Elem)
    ensures EraseElem(e).Tok? == e.Tok?
  {
  }

  lemma BlockErases(es: seq<Elem>)
    ensures EraseElem(Block(es)) == Block(Erase(es))
  {
    assert Erase(es) == seq(|es|, i requires 0 <= i < |es| => EraseElem(es[i]));
  }

  /** The clause of one entry. */
  lemma ClauseReads(e: Entry, ts: seq<Elem>, pen: int -> string, scope: Scope)
    requires Regular(scope) && WritableEntry(e, pen, scope.lang) && |ts| >= 2 && ts[1].Block?
    requires Erase(ts[1].elems) == OwnWords(e.action) + MatchesElems(e.matches, pen)
    ensures HasBlock(ts)
    ensures Clause(ts, ActionWordOf(e.action), scope) == Output(e.matches + [e.action], None)
  {
    hide Matches, Regular, AllWritable, AllMatches, Erase;
    var ms, own := ts[1].elems, OwnWords(e.action);
    EraseParts(ms, own, MatchesElems(e.matches, pen));
    MatchesRead(e.matches, ms[|own|..], pen, scope);
    assert EraseElem(ms[0]) == own[0];
    match e.action
    case Act(verdict) =>
      assert own == [W(LeadText(And))];
      PeelLead(And, ms, false, false, MatchesElems(e.matches, pen), scope);
    case CopyTo(_, address, length) =>
      assert EraseElem(ms[1]) == own[1];
      LengthReads(length);
    case DivertTo(address) =>
  }

  lemma LengthReads(length: int)
    requires length >= -1
    ensures ParseNum(if length < 0 then "-1" else Decimal(length)) == length
  {
    hide ParseNum;
    MinusOne();
    if length >= 0 {
      NumberIsRead(length, false);
    }
  }

  lemma EntryReads(e: Entry, ts: seq<Elem>, more: seq<Elem>, macros: Macros, pen: int -> string, scope: Scope,
      stack: nat)
    requires Regular(scope) && ActionsKnown(scope.lang) && WritableEntry(e, pen, scope.lang)
    requires Erase(ts) == EntryElems(e, pen) + more
    ensures |ts| >= 2 && Erase(ts[2..]) == more
    ensures Actions(ts, macros, scope, stack) ==
      Prepend(e.matches + [e.action], Actions(ts[2..], macros, scope, stack))
  {
    hide Clause, Regular, AllWritable, AllMatches, ValidRule, WordText, MatchesElems, OwnWords, Lower, Resolve;
    EraseParts(ts, EntryElems(e, pen), more);
    assert EraseElem(ts[0]) == EntryElems(e, pen)[0] && EraseElem(ts[1]) == EntryElems(e, pen)[1];
    EraseBlock(ts[1], OwnWords(e.action) + MatchesElems(e.matches, pen));
    ClauseReads(e, ts, pen, scope);
    var word := ActionWordOf(e.action);
    assert ts[0].text == ActionText(word) != "";
    assert ActionOf(ts[0], scope.lang) == Action(word);
  }

  /** A written table renders as that table, whatever macros there are. */
  lemma {:induction false} TableReads(
      entries: seq<Entry>, ts: seq<Elem>, macros: Macros, pen: int -> string, scope: Scope, stack: nat)
    requires Regular(scope) && ActionsKnown(scope.lang) && WritableTable(entries, pen, scope.lang)
    requires Erase(ts) == TableElems(entries, pen, scope.lang)
    ensures Actions(ts, macros, scope, stack) == Output(Table(entries), None)
    decreases |entries|
  {
    hide Regular, ActionsKnown, WritableEntry, EntryElems, Clause, Resolve;
    if entries == [] {
      assert ts == [];
    } else {
      assert WritableEntry(entries[0], pen, scope.lang);
      EntryReads(entries[0], ts, TableElems(entries[1..], pen, scope.lang), macros, pen, scope, stack);
      TableReads(entries[1..], ts[2..], macros, pen, scope, stack);
    }
  }

  // ---------------------------------------------------------------------
  // Tags
  // ---------------------------------------------------------------------

  datatype DefaultDraft = NoValue | NumberValue(n: nat) | EnumValue(i: nat) | FlagValue(i: nat)

  /** A tag as one would describe it: its identifier, its enums and flags with their values, and its default. */
  datatype TagDraft = TagDraft(
    name: string, id: nat, enums: seq<(string, nat)>, flags: seq<(string, bv32)>, default: DefaultDraft)

  predicate NameText(t: string, lang: Language) {
    PlainText(t, lang) && ValidName(t, lang) && Lower(t) == t
  }

  /** Earlier names do not come again. */
  predicate FreshNames<T>(known: set<string>, pairs: seq<(string, T)>) {
    && (forall i | 0 <= i < |pairs| :: pairs[i].0 !in known)
    && (forall i, j | 0 <= i < j < |pairs| :: pairs[i].0 != pairs[j].0)
  }

  predicate WritableEnums(enums: seq<(string, nat)>, lang: Language) {
    forall i | 0 <= i < |enums| :: NameText(enums[i].0, lang) && enums[i].1 <= U32_MAX
  }

  predicate WritableFlags(flags: seq<(string, bv32)>, lang: Language) {
    forall i | 0 <= i < |flags| :: NameText(flags[i].0, lang) && flags[i].1 != 0
  }

  function NamesIn<T>(pairs: seq<(string, T)>): set<string> {
    set i | 0 <= i < |pairs| :: pairs[i].0
  }

  predicate WritableDefault(d: TagDraft) {
    match d.default
    case NoValue => true
    case NumberValue(n) => n <= U32_MAX
    case EnumValue(i) => i < |d.enums|
    case FlagValue(i) => i < |d.flags| && d.flags[i].0 !in NamesIn(d.enums)
  }

  predicate WritableTag(d: TagDraft, lang: Language) {
    && NameText(d.name, lang) && d.id <= U32_MAX
    && WritableEnums(d.enums, lang) && FreshNames({}, d.enums)
    && WritableFlags(d.flags, lang) && FreshNames({}, d.flags)
    && WritableDefault(d)
  }

  function EnumElems(enums: seq<(string, nat)>): seq<Elem> {
    if enums == [] then []
    else [W("enum"), W(Decimal(enums[0].1)), W(enums[0].0)] + EnumElems(enums[1..])
  }

  function FlagElems(flags: seq<(string, bv32)>): seq<Elem> {
    if flags == [] then []
    else [W("flag"), W(BitsText(BitsFrom(0, flags[0].1, 0))), W(flags[0].0)] + FlagElems(flags[1..])
  }

  function DefaultElems(d: TagDraft): seq<Elem>
    requires WritableDefault(d)
  {
    match d.default
    case NoValue => []
    case NumberValue(n) => [W("default"), W(Decimal(n))]
    case EnumValue(i) => [W("default"), W(d.enums[i].0)]
    case FlagValue(i) => [W("default"), W(d.flags[i].0)]
  }

  function TagElems(d: TagDraft): seq<Elem>
    requires WritableDefault(d)
  {
    [W(d.name)] + ([W("id"), W(Decimal(d.id))] + (EnumElems(d.enums) + (FlagElems(d.flags) + DefaultElems(d))))
  }

  function Added<T>(m: map<string, T>, pairs: seq<(string, T)>): map<string, T>
    decreases |pairs|
  {
    if pairs == [] then m else Added(m[pairs[0].0 := pairs[0].1], pairs[1..])
  }

  function EnumPairs(enums: seq<(string, nat)>): (r: seq<(string, int)>)
    ensures |r| == |enums| && forall i | 0 <= i < |r| :: r[i] == (enums[i].0, enums[i].1 as int)
  {
    seq(|enums|, i requires 0 <= i < |enums| => (enums[i].0, enums[i].1 as int))
  }

  /** The tag that a draft describes. */
  function TagFrom(d: TagDraft): Tag
    requires WritableDefault(d)
  {
    Tag(d.id,
        match d.default
        case NoValue => NoDefault
        case NumberValue(n) => Default(if n < 0x8000_0000 then n else n - 0x1_0000_0000)
        case EnumValue(i) => Default(d.enums[i].1)
        case FlagValue(i) => Default(Signed(d.flags[i].1)),
        Added(map[], EnumPairs(d.enums)), Added(map[], d.flags))
  }

  /** The words of a tag definition stand for what they are documented for. */
  ghost predicate TagWordsKnown(lang: Language) {
    && Lower("id") in lang.tagWords && lang.tagWords[Lower("id")] == TagId
    && Lower("default") in lang.tagWords && lang.tagWords[Lower("default")] == TagDefaultWord
    && Lower("flag") in lang.tagWords && lang.tagWords[Lower("flag")] == TagFlag
    && Lower("enum") in lang.tagWords && lang.tagWords[Lower("enum")] == TagEnum
    && (forall word :: Lower(ActionText(word)) !in lang.tagWords)
  }

  lemma {:induction false} AddedHas<T>(m: map<string, T>, pairs: seq<(string, T)>, i: nat)
    requires i < |pairs| && FreshNames({}, pairs)
    ensures pairs[i].0 in Added(m, pairs) && Added(m, pairs)[pairs[i].0] == pairs[i].1
    decreases |pairs|
  {
    var m' := m[pairs[0].0 := pairs[0].1];
    if i == 0 {
      AddedKeeps(m', pairs[1..], pairs[0].0);
    } else {
      AddedHas(m', pairs[1..], i - 1);
    }
  }

  lemma {:induction false} AddedKeeps<T>(m: map<string, T>, pairs: seq<(string, T)>, name: string)
    requires forall i | 0 <= i < |pairs| :: pairs[i].0 != name
    ensures name in Added(m, pairs) <==> name in m
    ensures name in m ==> Added(m, pairs)[name] == m[name]
    decreases |pairs|
  {
    if pairs != [] {
      AddedKeeps(m[pairs[0].0 := pairs[0].1], pairs[1..], name);
    }
  }

  /** One directive read, the rest to come. */
  lemma DirectiveStep(ts: seq<Elem>, st: TagState, st': TagState, n: nat, lang: Language)
    requires n <= |ts| && ts != [] && n > 0 && TagStep(ts, st, lang) == Ok(st') && n == TagWordLength(ts[0], lang)
    ensures TagBody(ts, st, lang) == TagBody(ts[n..], st', lang)
  {
    hide TagStep, TagWordLength;
  }

  lemma EnumReads(name: string, value: nat, ts: seq<Elem>, more: seq<Elem>, st: TagState, lang: Language)
    requires TagWordsKnown(lang) && NameText(name, lang) && value <= U32_MAX && name !in st.enums
    requires Erase(ts) == [W("enum"), W(Decimal(value)), W(name)] + more
    ensures |ts| >= 3 && Erase(ts[3..]) == more
    ensures TagBody(ts, st, lang) == TagBody(ts[3..], st.(enums := st.enums[name := value]), lang)
  {
    hide Erase, Lower, ParseNum, Decimal, ValidName, TagBody;
    var a := [W("enum"), W(Decimal(value)), W(name)];
    EraseParts(ts, a, more);
    assert EraseElem(ts[0]) == a[0] && EraseElem(ts[1]) == a[1] && EraseElem(ts[2]) == a[2];
    NumberIsRead(value, false);
    DirectiveStep(ts, st, st.(enums := st.enums[name := value]), 3, lang);
  }

  lemma {:induction false} EnumsRead(enums: seq<(string, nat)>, ts: seq<Elem>, more: seq<Elem>, st: TagState,
      lang: Language)
    requires TagWordsKnown(lang) && WritableEnums(enums, lang) && FreshNames(st.enums.Keys, enums)
    requires Erase(ts) == EnumElems(enums) + more
    ensures |ts| >= 3 * |enums| && Erase(ts[3 * |enums|..]) == more
    ensures TagBody(ts, st, lang) ==
      TagBody(ts[3 * |enums|..], st.(enums := Added(st.enums, EnumPairs(enums))), lang)
    decreases |enums|
  {
    hide Erase, TagBody, NameText, TagWordsKnown, Decimal;
    if enums == [] {
      assert EnumElems(enums) + more == more && ts[0..] == ts;
    } else {
      var head, rest := enums[0], enums[1..];
      var a := [W("enum"), W(Decimal(head.1)), W(head.0)];
      assert EnumElems(enums) + more == a + (EnumElems(rest) + more);
      EnumReads(head.0, head.1, ts, EnumElems(rest) + more, st, lang);
      var st' := st.(enums := st.enums[head.0 := head.1]);
      EnumsRead(rest, ts[3..], more, st', lang);
      assert EnumPairs(enums)[1..] == EnumPairs(rest);
      assert ts[3..][3 * |rest|..] == ts[3 * |enums|..];
    }
  }

  // ---------------------------------------------------------------------
  // Flags
  // ---------------------------------------------------------------------

  function RaiseAll(m: bv32, bs: seq<nat>): bv32
    decreases |bs|
  {
    if bs == [] then m else RaiseAll(Raise(m, bs[0]), bs[1..])
  }

  lemma {:induction false} RaisedAll(m: bv32, bs: seq<nat>, b: nat)
    requires b < 32 && forall k | k in bs :: k < 32
    ensures Raised(RaiseAll(m, bs), b) <==> Raised(m, b) || b in bs
    decreases |bs|
  {
    hide Raise, Raised;
    if bs != [] {
      assert bs[0] in bs && forall k | k in bs[1..] :: k in bs;
      RaiseBit(m, bs[0], b);
      RaisedAll(Raise(m, bs[0]), bs[1..], b);
      assert bs == [bs[0]] + bs[1..];
    }
  }

  lemma {:induction false} FlagMaskReads(bs: seq<nat>, m: bv32, flags: map<string, bv32>)
    requires (forall b | b in bs :: b < 32) && forall f | f in flags :: f == "" || !('0' <= f[0] <= '9')
    ensures FlagMask(Decimals(bs), m, flags) == Some(RaiseAll(m, bs))
    decreases |bs|
  {
    hide Decimal, Raise, ParseNum, Lower;
    if bs == [] {
      assert Decimals(bs) == [];
    } else {
      var rest := bs[1..];
      assert Decimals(bs)[1..] == Decimals(rest) && bs[0] in bs && forall b | b in rest :: b in bs;
      DecimalDigits(bs[0]);
      LowerDigits(Decimal(bs[0]));
      DecimalFirst(bs[0]);
      assert Number(bs[0], false) == Decimal(bs[0]);
      NumberIsRead(bs[0], false);
      FlagMaskReads(rest, Raise(m, bs[0]), flags);
    }
  }

  lemma NoBits(b: nat)
    ensures !Raised(0, b)
  {
  }

  /** The bits of a mask, raised again. */
  lemma MaskComesBack(m: bv32)
    ensures var bs := BitsFrom(0, m, 0); (forall b | b in bs :: b < 32) && RaiseAll(0, bs) == m
    ensures m != 0 ==> BitsFrom(0, m, 0) != []
  {
    hide Raise, Raised, RaiseAll;
    var bs := BitsFrom(0, m, 0);
    forall b | b in bs ensures b < 32 {
      if b >= 32 {
        NoBits(b - 32);
      }
    }
    forall b | 0 <= b < 32 ensures Raised(RaiseAll(0, bs), b) <==> Raised(m, b) {
      RaisedAll(0, bs, b);
      NoBits(b);
      assert MaskBit(0, m, b) <==> b in bs;
    }
    SameBits(RaiseAll(0, bs), m);
    if bs == [] {
      NothingRaised();
    }
  }

  lemma NothingRaised()
    ensures RaiseAll(0, []) == 0
  {
  }

  predicate FlagNamesAreWords(flags: map<string, bv32>) {
    forall f | f in flags :: f == "" || !('0' <= f[0] <= '9')
  }

  lemma FlagReads(name: string, mask: bv32, ts: seq<Elem>, more: seq<Elem>, st: TagState, lang: Language)
    requires TagWordsKnown(lang) && NameText(name, lang) && mask != 0 && name !in st.flags &&
      FlagNamesAreWords(st.flags)
    requires Erase(ts) == [W("flag"), W(BitsText(BitsFrom(0, mask, 0))), W(name)] + more
    ensures |ts| >= 3 && Erase(ts[3..]) == more
    ensures TagBody(ts, st, lang) == TagBody(ts[3..], st.(flags := st.flags[name := mask]), lang)
  {
    hide Erase, Lower, SplitRuns, ValidName, TagBody, BitsText, RaiseAll, FlagMask;
    var bs := BitsFrom(0, mask, 0);
    var a := [W("flag"), W(BitsText(bs)), W(name)];
    EraseParts(ts, a, more);
    assert EraseElem(ts[0]) == a[0] && EraseElem(ts[1]) == a[1] && EraseElem(ts[2]) == a[2];
    MaskComesBack(mask);
    SplitBits(bs);
    FlagMaskReads(bs, 0, st.flags);
    DirectiveStep(ts, st, st.(flags := st.flags[name := mask]), 3, lang);
  }

  lemma {:induction false} FlagsRead(flags: seq<(string, bv32)>, ts: seq<Elem>, more: seq<Elem>, st: TagState,
      lang: Language)
    requires TagWordsKnown(lang) && WritableFlags(flags, lang) && FreshNames(st.flags.Keys, flags)
    requires FlagNamesAreWords(st.flags) && Erase(ts) == FlagElems(flags) + more
    ensures |ts| >= 3 * |flags| && Erase(ts[3 * |flags|..]) == more
    ensures TagBody(ts, st, lang) == TagBody(ts[3 * |flags|..], st.(flags := Added(st.flags, flags)), lang)
    decreases |flags|
  {
    hide Erase, TagBody, TagWordsKnown, BitsText, BitsFrom, PlainText, Lower;
    if flags == [] {
      assert FlagElems(flags) + more == more && ts[0..] == ts;
    } else {
      var head, rest := flags[0], flags[1..];
      var a := [W("flag"), W(BitsText(BitsFrom(0, head.1, 0))), W(head.0)];
      assert FlagElems(flags) + more == a + (FlagElems(rest) + more);
      FlagReads(head.0, head.1, ts, FlagElems(rest) + more, st, lang);
      var st' := st.(flags := st.flags[head.0 := head.1]);
      FlagsRead(rest, ts[3..], more, st', lang);
      assert ts[3..][3 * |rest|..] == ts[3 * |flags|..];
    }
  }

  /** The bits a flag list names: the bits of the flags defined before, and numbered ones. */
  function FlagBits(parts: seq<string>, flags: map<string, bv32>): Option<set<nat>> {
    if parts == [] then Some({})
    else
      var b := Lower(parts[0]);
      match FlagBits(parts[1..], flags)
      case None => None
      case Some(more) =>
        if b in flags then Some((set k: nat | k < 32 && Raised(flags[b], k)) + more)
        else if 0 <= ParseNum(b) <= 31 then Some({ParseNum(b)} + more)
        else None
  }

  lemma JoinedBit(m: bv32, n: bv32, k: nat)
    ensures Raised(Join(m, n), k) <==> Raised(m, k) || Raised(n, k)
  {
    hide Bit;
    JoinMeets(m, n, Bit(k));
  }

  lemma JoinMeets(m: bv32, n: bv32, a: bv32)
    ensures Meets(Join(m, n), a) <==> Meets(m, a) || Meets(n, a)
  {
    hide Meets, Join;
    if Meets(m, a) {
      JoinLeft(m, n, a);
    } else if Meets(n, a) {
      JoinRight(m, n, a);
    } else {
      JoinNeither(m, n, a);
    }
  }

  lemma JoinLeft(m: bv32, n: bv32, a: bv32)
    requires Meets(m, a)
    ensures Meets(Join(m, n), a)
  {
  }

  lemma JoinRight(m: bv32, n: bv32, a: bv32)
    requires Meets(n, a)
    ensures Meets(Join(m, n), a)
  {
  }

  lemma JoinNeither(m: bv32, n: bv32, a: bv32)
    requires !Meets(m, a) && !Meets(n, a)
    ensures !Meets(Join(m, n), a)
  {
  }

  /** A flag definition is refused exactly if it names an unknown bit, and its mask is the union of what it names. */
  lemma {:induction false} FlagIsUnion(parts: seq<string>, m: bv32, flags: map<string, bv32>, k: nat)
    requires k < 32
    ensures FlagMask(parts, m, flags).Some? == FlagBits(parts, flags).Some?
    ensures FlagMask(parts, m, flags).Some? ==>
      (Raised(FlagMask(parts, m, flags).value, k) <==> Raised(m, k) || k in FlagBits(parts, flags).value)
    decreases |parts|
  {
    hide Raise, Raised, Join, ParseNum, Lower;
    if parts != [] {
      var b := Lower(parts[0]);
      if b in flags {
        JoinedBit(m, flags[b], k);
        FlagIsUnion(parts[1..], Join(m, flags[b]), flags, k);
      } else if 0 <= ParseNum(b) <= 31 {
        RaiseBit(m, ParseNum(b), k);
        FlagIsUnion(parts[1..], Raise(m, ParseNum(b)), flags, k);
      }
    }
  }

  // ---------------------------------------------------------------------
  // Whole tags
  // ---------------------------------------------------------------------

  /** What the directives have collected before the default. */
  function Collected(d: TagDraft, default: Option<Elem>): TagState {
    TagState(d.id, default, Added(map[], EnumPairs(d.enums)), Added(map[], d.flags))
  }

  lemma IdReads(id: nat, ts: seq<Elem>, more: seq<Elem>, lang: Language)
    requires TagWordsKnown(lang) && id <= U32_MAX && Erase(ts) == [W("id"), W(Decimal(id))] + more
    ensures |ts| >= 2 && Erase(ts[2..]) == more
    ensures TagBody(ts, NEW_TAG, lang) == TagBody(ts[2..], NEW_TAG.(id := id), lang)
  {
    hide Erase, Lower, ParseNum, Decimal, TagBody;
    var a := [W("id"), W(Decimal(id))];
    EraseParts(ts, a, more);
    assert EraseElem(ts[0]) == a[0] && EraseElem(ts[1]) == a[1];
    NumberIsRead(id, false);
    DirectiveStep(ts, NEW_TAG, NEW_TAG.(id := id), 2, lang);
  }

  lemma DefaultReads(d: TagDraft, ts: seq<Elem>, lang: Language)
    requires TagWordsKnown(lang) && WritableDefault(d) && Erase(ts) == DefaultElems(d)
    ensures d.default.NoValue? ==> TagBody(ts, Collected(d, None), lang) == Ok(Collected(d, None))
    ensures !d.default.NoValue? ==> |ts| == 2 && Reads(ts[1], DefaultElems(d)[1].text)
    ensures !d.default.NoValue? ==> TagBody(ts, Collected(d, None), lang) == Ok(Collected(d, Some(ts[1])))
  {
    hide Lower, Decimal, Added, EnumPairs;
    if !d.default.NoValue? {
      var a := DefaultElems(d);
      assert a + [] == a;
      EraseParts(ts, a, []);
      assert EraseElem(ts[0]) == a[0] && EraseElem(ts[1]) == a[1];
      DirectiveStep(ts, Collected(d, None), Collected(d, Some(ts[1])), 2, lang);
    }
  }

  lemma DefaultNumber(text: string, n: nat, st: TagState)
    requires text == Decimal(n) && n <= U32_MAX && st.default.Some? && Reads(st.default.value, text)
    requires text !in st.enums && text !in st.flags
    ensures DefaultOf(st) == Default(if n < 0x8000_0000 then n else n - 0x1_0000_0000)
  {
    hide Decimal, ParseInt, DigitsValue;
    DecimalDigits(n);
    DecimalValue(n);
    ParseDigits(text, 10);
    assert text[0] in text && (|text| >= 2 ==> text[1] in text);
    assert TrimLeft(text) == text;
  }

  lemma {:induction false} AddedOnly<T>(m: map<string, T>, pairs: seq<(string, T)>, name: string)
    requires name in Added(m, pairs) && name !in m
    ensures exists i :: 0 <= i < |pairs| && pairs[i].0 == name
    decreases |pairs|
  {
    if pairs != [] && name != pairs[0].0 {
      AddedOnly(m[pairs[0].0 := pairs[0].1], pairs[1..], name);
      var i :| 0 <= i < |pairs[1..]| && pairs[1..][i].0 == name;
      assert pairs[i + 1].0 == name;
    }
  }

  lemma NumberIsNoName<T>(pairs: seq<(string, T)>, n: nat, lang: Language)
    requires forall i | 0 <= i < |pairs| :: NameText(pairs[i].0, lang)
    ensures Decimal(n) !in Added(map[], pairs)
  {
    hide Decimal, PlainText, Added;
    DecimalFirst(n);
    if Decimal(n) in Added(map[], pairs) {
      AddedOnly(map[], pairs, Decimal(n));
    }
  }

  lemma DefaultComesBack(d: TagDraft, ts: seq<Elem>, lang: Language)
    requires TagWordsKnown(lang) && WritableTag(d, lang) && Erase(ts) == DefaultElems(d)
    ensures var r := TagBody(ts, Collected(d, None), lang);
      r.Ok? && Tag(r.value.id, DefaultOf(r.value), r.value.enums, r.value.flags) == TagFrom(d)
  {
    hide Erase, Lower, Decimal, Added, TagBody, NameText, Signed;
    DefaultReads(d, ts, lang);
    var enums := EnumPairs(d.enums);
    match d.default
    case NoValue =>
    case NumberValue(n) =>
      NumberIsNoName(enums, n, lang);
      NumberIsNoName(d.flags, n, lang);
      DefaultNumber(ts[1].text, n, Collected(d, Some(ts[1])));
    case EnumValue(i) => AddedHas(map[], enums, i);
    case FlagValue(i) =>
      AddedHas(map[], d.flags, i);
      if d.flags[i].0 in Added(map[], enums) {
        AddedOnly(map[], enums, d.flags[i].0);
      }
  }

  /** A written tag definition is read as the tag it describes. */
  lemma TagReads(d: TagDraft, block: seq<Elem>, p: Program, lang: Language)
    requires TagWordsKnown(lang) && WritableTag(d, lang) && Erase(block) == TagElems(d) && d.name !in p.tags
    ensures block != [] && TagOf(block, p, lang) == Ok(p.(tags := p.tags[d.name := TagFrom(d)]))
  {
    hide Erase, Lower, TagWordsKnown, WritableEnums, WritableFlags, EnumElems, FlagElems, DefaultElems, TagBody, Added;
    hide DefaultOf, ValidName, Decimal;
    var tail := FlagElems(d.flags) + DefaultElems(d);
    var a := [W("id"), W(Decimal(d.id))] + (EnumElems(d.enums) + tail);
    EraseParts(block, [W(d.name)], a);
    assert EraseElem(block[0]) == W(d.name);
    var ts := block[1..];
    IdReads(d.id, ts, EnumElems(d.enums) + tail, lang);
    EnumsRead(d.enums, ts[2..], tail, NEW_TAG.(id := d.id), lang);
    var ts3 := ts[2..][3 * |d.enums|..];
    var st := NEW_TAG.(id := d.id, enums := Added(map[], EnumPairs(d.enums)));
    FlagsRead(d.flags, ts3, DefaultElems(d), st, lang);
    DefaultComesBack(d, ts3[3 * |d.flags|..], lang);
  }

  // ---------------------------------------------------------------------
  // Capabilities
  // ---------------------------------------------------------------------

  datatype CapDraft = CapDraft(name: string, id: nat, default: bool, entries: seq<Entry>)

  predicate WritableCap(d: CapDraft, pen: int -> string, lang: Language) {
    NameText(d.name, lang) && d.id <= U32_MAX && WritableTable(d.entries, pen, lang)
  }

  function CapElems(d: CapDraft, pen: int -> string, lang: Language): seq<Elem>
    requires WritableTable(d.entries, pen, lang)
  {
    [W(d.name)] + ([W("id"), W(Decimal(d.id))] +
                   ((if d.default then [W("default")] else []) + TableElems(d.entries, pen, lang)))
  }

  /** A capability as pass 2 leaves it, with a tree that is the written table. */
  ghost predicate CapShows(cap: CapTree, d: CapDraft, pen: int -> string, lang: Language)
    requires WritableTable(d.entries, pen, lang)
  {
    cap.name == d.name && cap.id == d.id && cap.default == d.default &&
    Erase(cap.tree) == TableElems(d.entries, pen, lang)
  }

  lemma NoDirective(e: Elem, word: ActionWord, lang: Language)
    requires TagWordsKnown(lang) && (e.Block? || Reads(e, ActionText(word)))
    ensures !IsWord(e, TagId, lang) && !IsWord(e, TagDefaultWord, lang)
  {
    hide Lower;
  }

  /** Rules are no directives, so they all become part of the tree. */
  lemma {:induction false} RulesStay(
      entries: seq<Entry>, ts: seq<Elem>, st: CapState, caps: seq<CapTree>, pen: int -> string, lang: Language)
    requires TagWordsKnown(lang) && WritableTable(entries, pen, lang) && Erase(ts) == TableElems(entries, pen, lang)
    ensures CapBody(ts, st, caps, lang) == Ok(st.(tree := st.tree + ts))
    decreases |entries|
  {
    hide IsWord, WritableEntry, EntryElems, TagWordsKnown;
    if entries == [] {
      assert ts == [] && st.tree + ts == st.tree;
    } else {
      var word := EntryParts(entries[0], ts, TableElems(entries[1..], pen, lang), pen, lang);
      NoDirective(ts[0], word, lang);
      NoDirective(ts[1], Include, lang);
      assert ts[1..][0] == ts[1] && ts[1..][1..] == ts[2..];
      var st1 := st.(tree := st.tree + [ts[0]]);
      var st2 := st1.(tree := st1.tree + [ts[1]]);
      assert CapBody(ts, st, caps, lang) == CapBody(ts[1..], st1, caps, lang) == CapBody(ts[2..], st2, caps, lang);
      RulesStay(entries[1..], ts[2..], st2, caps, pen, lang);
      assert st2.tree + ts[2..] == st.tree + ts;
    }
  }

  lemma CapIdReads(id: nat, ts: seq<Elem>, more: seq<Elem>, caps: seq<CapTree>, lang: Language)
    requires TagWordsKnown(lang) && id <= U32_MAX && !IdTaken(id, caps)
    requires Erase(ts) == [W("id"), W(Decimal(id))] + more
    ensures |ts| >= 2 && Erase(ts[2..]) == more
    ensures CapBody(ts, NEW_CAP, caps, lang) == CapBody(ts[2..], NEW_CAP.(id := id), caps, lang)
  {
    hide Erase, Lower, ParseNum, Decimal, IdTaken;
    var a := [W("id"), W(Decimal(id))];
    EraseParts(ts, a, more);
    assert EraseElem(ts[0]) == a[0] && EraseElem(ts[1]) == a[1];
    NumberIsRead(id, false);
  }

  lemma CapDefaultReads(default: bool, ts: seq<Elem>, more: seq<Elem>, st: CapState, caps: seq<CapTree>, lang: Language)
    requires TagWordsKnown(lang) && !st.default && Erase(ts) == (if default then [W("default")] else []) + more
    ensures var n := if default then 1 else 0;
      && |ts| >= n && Erase(ts[n..]) == more
      && CapBody(ts, st, caps, lang) == CapBody(ts[n..], st.(default := default), caps, lang)
  {
    hide Erase, Lower;
    if default {
      EraseParts(ts, [W("default")], more);
      assert EraseElem(ts[0]) == W("default");
    } else {
      assert ts[0..] == ts && [] + more == more;
    }
  }

  /** A written capability is read as the one it describes. */
  lemma CapReads(d: CapDraft, block: seq<Elem>, p: Program, pen: int -> string, lang: Language)
    requires TagWordsKnown(lang) && WritableCap(d, pen, lang) && Erase(block) == CapElems(d, pen, lang)
    requires !NameTaken(d.name, p.caps) && !IdTaken(d.id, p.caps)
    ensures block != [] && CapOf(block, p, lang).Ok?
    ensures var q := CapOf(block, p, lang).value;
      && q == p.(caps := q.caps) && |q.caps| == |p.caps| + 1 && q.caps[..|p.caps|] == p.caps
      && CapShows(q.caps[|p.caps|], d, pen, lang)
  {
    hide Erase, Lower, TagWordsKnown, WritableTable, TableElems, CapBody, ValidName, Decimal, IdTaken, NameTaken;
    var rules := TableElems(d.entries, pen, lang);
    var tail := (if d.default then [W("default")] else []) + rules;
    EraseParts(block, [W(d.name)], [W("id"), W(Decimal(d.id))] + tail);
    assert EraseElem(block[0]) == W(d.name);
    var ts := block[1..];
    CapIdReads(d.id, ts, tail, p.caps, lang);
    var st := NEW_CAP.(id := d.id);
    CapDefaultReads(d.default, ts[2..], rules, st, p.caps, lang);
    var ts2 := ts[2..][(if d.default then 1 else 0)..];
    RulesStay(d.entries, ts2, st.(default := d.default), p.caps, pen, lang);
    assert [] + ts2 == ts2;
    assert CapBody(ts, NEW_CAP, p.caps, lang) == Ok(CapState(d.id, d.default, ts2));
  }

  // ---------------------------------------------------------------------
  // Programs
  // ---------------------------------------------------------------------

  datatype Draft = Draft(tags: seq<TagDraft>, caps: seq<CapDraft>, base: seq<Entry>)

  predicate WritableTags(tags: seq<TagDraft>, lang: Language) {
    && (forall i | 0 <= i < |tags| :: WritableTag(tags[i], lang))
    && (forall i, j | 0 <= i < j < |tags| :: tags[i].name != tags[j].name)
  }

  predicate WritableCaps(caps: seq<CapDraft>, pen: int -> string, lang: Language) {
    && (forall i | 0 <= i < |caps| :: WritableCap(caps[i], pen, lang))
    && (forall i, j | 0 <= i < j < |caps| :: caps[i].name != caps[j].name && caps[i].id != caps[j].id)
  }

  predicate WritableDraft(d: Draft, pen: int -> string, lang: Language) {
    WritableTags(d.tags, lang) && WritableCaps(d.caps, pen, lang) && WritableTable(d.base, pen, lang)
  }

  function TagDefs(tags: seq<TagDraft>, lang: Language): seq<Elem>
    requires WritableTags(tags, lang)
  {
    if tags == [] then [] else [W("tag"), Block(TagElems(tags[0]))] + TagDefs(tags[1..], lang)
  }

  function CapDefs(caps: seq<CapDraft>, pen: int -> string, lang: Language): seq<Elem>
    requires WritableCaps(caps, pen, lang)
  {
    if caps == [] then [] else [W("cap"), Block(CapElems(caps[0], pen, lang))] + CapDefs(caps[1..], pen, lang)
  }

  function ProgramElems(d: Draft, pen: int -> string, lang: Language): seq<Elem>
    requires WritableDraft(d, pen, lang)
  {
    TagDefs(d.tags, lang) + (CapDefs(d.caps, pen, lang) + TableElems(d.base, pen, lang))
  }

  /** The tables that a draft describes. */
  function TagTable(known: map<string, Tag>, tags: seq<TagDraft>, lang: Language): map<string, Tag>
    requires WritableTags(tags, lang)
    decreases |tags|
  {
    if tags == [] then known else TagTable(known[tags[0].name := TagFrom(tags[0])], tags[1..], lang)
  }

  function CapTable(caps: seq<CapDraft>): (r: seq<Cap>)
    ensures |r| == |caps|
  {
    seq(|caps|, i requires 0 <= i < |caps| =>
      Cap(caps[i].name, caps[i].id, caps[i].default, Table(caps[i].entries)))
  }

  ghost predicate DefinitionsKnown(lang: Language) {
    && Lower("tag") in lang.definitions && lang.definitions[Lower("tag")] == DefineTag
    && Lower("cap") in lang.definitions && lang.definitions[Lower("cap")] == DefineCap
    && (forall word :: Lower(ActionText(word)) !in lang.definitions)
  }

  lemma DefinitionStep(es: seq<Elem>, what: Definition, p: Program, q: Program, lang: Language)
    requires HasBlock(es) && IsDefinition(es[0], lang) && lang.definitions[Lower(es[0].text)] == what
    requires Define(what, es[1].elems, p, lang) == Ok(q)
    ensures Split(es, p, lang) == Split(es[2..], q, lang)
  {
    hide Define;
  }

  lemma BlockIsRead(es: seq<Elem>, text: string, inner: seq<Elem>, more: seq<Elem>)
    requires Erase(es) == [W(text), Block(inner)] + more && inner != []
    ensures HasBlock(es) && Reads(es[0], text) && Erase(es[1].elems) == inner && Erase(es[2..]) == more
  {
    hide Erase;
    EraseParts(es, [W(text), Block(inner)], more);
    assert EraseElem(es[0]) == [W(text), Block(inner)][0] && EraseElem(es[1]) == [W(text), Block(inner)][1];
    EraseBlock(es[1], inner);
    LengthStays(es[1].elems);
  }

  lemma LengthStays(es: seq<Elem>)
    ensures |Erase(es)| == |es|
  {
  }

  lemma {:induction false} TagsSplit(tags: seq<TagDraft>, es: seq<Elem>, more: seq<Elem>, p: Program, lang: Language)
    requires TagWordsKnown(lang) && DefinitionsKnown(lang) && WritableTags(tags, lang)
    requires (forall i | 0 <= i < |tags| :: tags[i].name !in p.tags) && Erase(es) == TagDefs(tags, lang) + more
    ensures |es| >= 2 * |tags| && Erase(es[2 * |tags|..]) == more
    ensures Split(es, p, lang) == Split(es[2 * |tags|..], p.(tags := TagTable(p.tags, tags, lang)), lang)
    decreases |tags|
  {
    hide Erase, Split, TagWordsKnown, WritableTag, TagElems, TagFrom, Lower, TagOf;
    if tags == [] {
      assert es[0..] == es && [] + more == more;
    } else {
      var d, rest := tags[0], TagDefs(tags[1..], lang);
      TagElemsSome(d, lang);
      assert TagDefs(tags, lang) + more == [W("tag"), Block(TagElems(d))] + (rest + more);
      BlockIsRead(es, "tag", TagElems(d), rest + more);
      TagReads(d, es[1].elems, p, lang);
      var q := p.(tags := p.tags[d.name := TagFrom(d)]);
      DefinitionStep(es, DefineTag, p, q, lang);
      TagsSplit(tags[1..], es[2..], more, q, lang);
      assert es[2..][2 * |tags[1..]|..] == es[2 * |tags|..];
    }
  }

  lemma TagElemsSome(d: TagDraft, lang: Language)
    requires WritableTag(d, lang)
    ensures WritableDefault(d) && TagElems(d) != []
  {
    hide EnumElems, FlagElems, DefaultElems;
  }

  /** What stands in the table of capabilities for the drafts that were read. */
  ghost predicate CapsShow(trees: seq<CapTree>, caps: seq<CapDraft>, pen: int -> string, lang: Language)
    requires WritableCaps(caps, pen, lang)
  {
    |trees| == |caps| && forall i | 0 <= i < |caps| ::
      WritableTable(caps[i].entries, pen, lang) && CapShows(trees[i], caps[i], pen, lang)
  }

  predicate CapsFresh(trees: seq<CapTree>, caps: seq<CapDraft>) {
    forall i | 0 <= i < |caps| :: !NameTaken(caps[i].name, trees) && !IdTaken(caps[i].id, trees)
  }

  lemma FreshAfter(trees: seq<CapTree>, tree: CapTree, caps: seq<CapDraft>, pen: int -> string, lang: Language)
    requires caps != [] && WritableCaps(caps, pen, lang) && CapsFresh(trees, caps)
    requires tree.name == caps[0].name && tree.id == caps[0].id
    ensures CapsFresh(trees + [tree], caps[1..])
  {
    hide WritableCap;
    var all, rest := trees + [tree], caps[1..];
    forall i | 0 <= i < |rest| ensures !NameTaken(rest[i].name, all) && !IdTaken(rest[i].id, all) {
      assert rest[i] == caps[i + 1];
      assert !NameTaken(caps[i + 1].name, trees) && !IdTaken(caps[i + 1].id, trees);
    }
  }

  lemma {:induction false} CapsSplit(
      caps: seq<CapDraft>, es: seq<Elem>, more: seq<Elem>, p: Program, pen: int -> string, lang: Language)
    returns (trees: seq<CapTree>)
    requires TagWordsKnown(lang) && DefinitionsKnown(lang) && WritableCaps(caps, pen, lang) && CapsFresh(p.caps, caps)
    requires Erase(es) == CapDefs(caps, pen, lang) + more
    ensures |es| >= 2 * |caps| && Erase(es[2 * |caps|..]) == more && CapsShow(trees, caps, pen, lang)
    ensures Split(es, p, lang) == Split(es[2 * |caps|..], p.(caps := p.caps + trees), lang)
    decreases |caps|
  {
    hide Erase, Split, TagWordsKnown, CapElems, CapShows, Lower, CapOf, CapsFresh, WritableTable, NameTaken, IdTaken;
    hide NameText;
    if caps == [] {
      trees := [];
      assert es[0..] == es && [] + more == more && p.caps + trees == p.caps;
    } else {
      var d, rest := caps[0], CapDefs(caps[1..], pen, lang);
      assert WritableCap(d, pen, lang);
      assert CapDefs(caps, pen, lang) + more == [W("cap"), Block(CapElems(d, pen, lang))] + (rest + more);
      CapElemsSome(d, pen, lang);
      BlockIsRead(es, "cap", CapElems(d, pen, lang), rest + more);
      FirstFresh(p.caps, caps);
      CapReads(d, es[1].elems, p, pen, lang);
      var q := CapOf(es[1].elems, p, lang).value;
      DefinitionStep(es, DefineCap, p, q, lang);
      var tree := q.caps[|p.caps|];
      assert q.caps == p.caps + [tree];
      ShowsNames(tree, d, pen, lang);
      FreshAfter(p.caps, tree, caps, pen, lang);
      var later := CapsSplit(caps[1..], es[2..], more, q, pen, lang);
      trees := [tree] + later;
      assert es[2..][2 * |caps[1..]|..] == es[2 * |caps|..];
      assert (p.caps + [tree]) + later == p.caps + trees;
    }
  }

  lemma FirstFresh(trees: seq<CapTree>, caps: seq<CapDraft>)
    requires caps != [] && CapsFresh(trees, caps)
    ensures !NameTaken(caps[0].name, trees) && !IdTaken(caps[0].id, trees)
  {
  }

  lemma ShowsNames(tree: CapTree, d: CapDraft, pen: int -> string, lang: Language)
    requires WritableTable(d.entries, pen, lang) && CapShows(tree, d, pen, lang)
    ensures tree.name == d.name && tree.id == d.id
  {
  }

  lemma CapElemsSome(d: CapDraft, pen: int -> string, lang: Language)
    requires WritableTable(d.entries, pen, lang)
    ensures CapElems(d, pen, lang) != []
  {
    hide TableElems;
  }

  lemma NoDefinition(e: Elem, word: ActionWord, lang: Language)
    requires DefinitionsKnown(lang) && (e.Block? || Reads(e, ActionText(word)))
    ensures !IsDefinition(e, lang)
  {
    hide Lower;
  }

  /** Rules define nothing, so they are the base rules. */
  lemma {:induction false} RulesAreBase(entries: seq<Entry>, es: seq<Elem>, p: Program, pen: int -> string,
      lang: Language)
    requires DefinitionsKnown(lang) && WritableTable(entries, pen, lang) && Erase(es) == TableElems(entries, pen, lang)
    ensures Split(es, p, lang) == Ok(p.(base := p.base + es))
    decreases |entries|
  {
    hide IsDefinition, WritableEntry, EntryElems, DefinitionsKnown, Split, Erase;
    if entries == [] {
      LengthStays(es);
      NothingToSplit(p, lang);
      assert es == [] && p.base + es == p.base;
    } else {
      var word := EntryParts(entries[0], es, TableElems(entries[1..], pen, lang), pen, lang);
      NoDefinition(es[0], word, lang);
      NoDefinition(es[1], Include, lang);
      assert es[1..][0] == es[1] && es[1..][1..] == es[2..];
      var p1 := p.(base := p.base + [es[0]]);
      var p2 := p1.(base := p1.base + [es[1]]);
      BaseStep(es, p, lang);
      BaseStep(es[1..], p1, lang);
      RulesAreBase(entries[1..], es[2..], p2, pen, lang);
      assert p2.base + es[2..] == p.base + es;
    }
  }

  lemma EntryParts(e: Entry, ts: seq<Elem>, more: seq<Elem>, pen: int -> string, lang: Language)
    returns (word: ActionWord)
    requires WritableEntry(e, pen, lang) && Erase(ts) == EntryElems(e, pen) + more
    ensures |ts| >= 2 && Reads(ts[0], ActionText(word)) && ts[1].Block? && Erase(ts[2..]) == more
  {
    hide AllWritable, AllMatches, ValidRule, WordText, OwnWords, MatchesElems;
    word := ActionWordOf(e.action);
    EraseParts(ts, EntryElems(e, pen), more);
    assert EraseElem(ts[0]) == EntryElems(e, pen)[0] && EraseElem(ts[1]) == EntryElems(e, pen)[1];
  }

  lemma NothingToSplit(p: Program, lang: Language)
    ensures Split([], p, lang) == Ok(p)
  {
  }

  lemma BaseStep(es: seq<Elem>, p: Program, lang: Language)
    requires es != [] && !IsDefinition(es[0], lang)
    ensures Split(es, p, lang) == Split(es[1..], p.(base := p.base + [es[0]]), lang)
  {
  }

  /** The keyword tables are as documented. */
  ghost predicate Documented(lang: Language) {
    && NamesAreWords(lang) && ReservedAreWords(lang) && WordsKnown(lang) && ActionsKnown(lang)
    && TagWordsKnown(lang) && DefinitionsKnown(lang)
  }

  /** Pass 2 finds the tags, the capabilities and the base rules of a written program. */
  lemma ProgramSplits(d: Draft, es: seq<Elem>, pen: int -> string, lang: Language) returns (p: Program)
    requires Documented(lang) && WritableDraft(d, pen, lang) && Erase(es) == ProgramElems(d, pen, lang)
    ensures Split(es, EMPTY, lang) == Ok(p)
    ensures p.tags == TagTable(map[], d.tags, lang) && CapsShow(p.caps, d.caps, pen, lang)
    ensures Erase(p.base) == TableElems(d.base, pen, lang)
  {
    hide Erase, Split, TagWordsKnown, DefinitionsKnown, WritableTags, WritableCaps, WritableTable, TagTable, CapsShow;
    hide TableElems, TagDefs, CapDefs;
    var rules := TableElems(d.base, pen, lang);
    TagsSplit(d.tags, es, CapDefs(d.caps, pen, lang) + rules, EMPTY, lang);
    var es1, p1 := es[2 * |d.tags|..], EMPTY.(tags := TagTable(map[], d.tags, lang));
    var trees := CapsSplit(d.caps, es1, rules, p1, pen, lang);
    var es2, p2 := es1[2 * |d.caps|..], p1.(caps := [] + trees);
    RulesAreBase(d.base, es2, p2, pen, lang);
    assert [] + es2 == es2 && [] + trees == trees;
    p := p2.(base := es2);
  }

  // ---------------------------------------------------------------------
  // Compiling a written program
  // ---------------------------------------------------------------------

  lemma {:induction false} TagTableWords(known: map<string, Tag>, tags: seq<TagDraft>, lang: Language)
    requires WritableTags(tags, lang) && TagsAreWords(known)
    ensures TagsAreWords(TagTable(known, tags, lang))
    decreases |tags|
  {
    hide TagFrom, PlainText, Lower, WritableEnums, WritableFlags, WritableDefault;
    if tags != [] {
      assert WritableTag(tags[0], lang);
      TagTableWords(known[tags[0].name := TagFrom(tags[0])], tags[1..], lang);
    }
  }

  lemma {:induction false} CapsRender(
      caps: seq<CapDraft>, trees: seq<CapTree>, p: Program, pen: int -> string, lang: Language, stack: nat)
    requires Regular(TopScope(p, lang)) && ActionsKnown(lang) && WritableCaps(caps, pen, lang)
    requires CapsShow(trees, caps, pen, lang)
    ensures RenderCaps(trees, p, lang, stack) == Ok(CapTable(caps))
    decreases |caps|
  {
    hide Regular, ActionsKnown, WritableTable, Erase, Actions, WritableCap;
    if caps != [] {
      assert CapShows(trees[0], caps[0], pen, lang);
      TableReads(caps[0].entries, trees[0].tree, p.macros, pen, TopScope(p, lang), stack);
      CapsRender(caps[1..], trees[1..], p, pen, lang, stack);
      assert CapTable(caps) == [CapTable(caps)[0]] + CapTable(caps[1..]);
    } else {
      assert CapTable(caps) == [];
    }
  }

  /** A tree that is a written program compiles to exactly the tables it describes, on every stack. */
  lemma ProgramReads(d: Draft, es: seq<Elem>, pen: int -> string, lang: Language, stack: nat)
    requires Documented(lang) && WritableDraft(d, pen, lang) && Erase(es) == ProgramElems(d, pen, lang)
    ensures CompileTree(es, lang, stack) ==
      Ok(Compiled(Table(d.base), CapTable(d.caps), TagTable(map[], d.tags, lang)))
  {
    hide Erase, Split, NamesAreWords, ReservedAreWords, WordsKnown, ActionsKnown, TagWordsKnown, DefinitionsKnown;
    hide WritableTags, WritableCaps, WritableTable, TagTable, CapsShow, TableElems, RenderCaps, Actions, TagsAreWords;
    var p := ProgramSplits(d, es, pen, lang);
    NoTags();
    TagTableWords(map[], d.tags, lang);
    CapsRender(d.caps, p.caps, p, pen, lang, stack);
    TableReads(d.base, p.base, p.macros, pen, TopScope(p, lang), stack);
  }

  lemma NoTags()
    ensures TagsAreWords(map[])
  {
  }
}
