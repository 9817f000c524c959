/** Pass 3, matches: `_renderMatches` turns a block of match words into table entries. */
module RuleMatches {
  import opened Basics
  import opened RuleText
  import opened RuleScanner

  // ---------------------------------------------------------------------
  // Keywords, tables and results
  // ---------------------------------------------------------------------

  datatype NumberField = VlanId | VlanPcp | VlanDei | EtherType | IpProtocol
  datatype RangeField = SourcePort | DestPort | FrameSize
  datatype TagTest = TagAnd | TagOr | TagXor | TagDiff | TagEqual | TagSender | TagReceiver

  datatype MatchKind =
    | ZtKind(source: bool)
    | NumberKind(field: NumberField)
    | RandomKind
    | MacKind(source: bool)
    | IpKind(source: bool)
    | IcmpKind
    | RangeKind(range: RangeField)
    | TosKind
    | ChrKind
    | TagKind(test: TagTest)

  function ArgCount(kind: MatchKind): (n: nat)
    ensures n == 1 || n == 2
  {
    match kind
    case IcmpKind | TosKind | TagKind(_) => 2
    case _ => 1
  }

  datatype MatchWord = And | Not | Or | Keyword(kind: MatchKind)
  datatype ActionWord = Include | Plain(verdict: Verdict) | Copy(watch: bool) | Divert
  datatype Verdict = Drop | Accept | Break
  datatype Definition = DefineMacro | DefineTag | DefineCap
  datatype TagWord = TagId | TagDefaultWord | TagFlag | TagEnum

  /** The keyword tables, and the regular expressions and float parser as uninterpreted functions. */
  datatype Language = Language(
    reserved: set<string>,
    words: map<string, MatchWord>,
    actions: map<string, ActionWord>,
    definitions: map<string, Definition>,
    tagWords: map<string, TagWord>,
    etherTypes: map<string, int>,
    protocols: map<string, int>,
    bits: map<string, int>,
    isIpv6: string -> bool,
    isIpv4: string -> bool,
    float: string -> real,
    alphanumeric: char -> bool)

  datatype Tag = Tag(id: int, default: TagDefault, enums: map<string, int>, flags: map<string, bv32>)
  datatype TagDefault = NoDefault | Default(value: int) | BlockDefault

  /** Where an error is reported. For a block the source reports inner elements instead of numbers. */
  datatype Where = At(line: int, col: int) | AtBlock | Nowhere

  datatype Problem =
    | UnrecognizedMatch | MissingArgument | ReservedArgument | UndefinedVariable
    | BadAddress | BadNumber | BadMac | MissingNetmask | BadIp | BadIcmpType | BadIcmpCode
    | BadRange | BadMask | BadBit | BadTagId | BadTagValue
    | MissingMacroName | MacroNotFound | MissingParameter | BadLength | BadTarget
    | MissingCopyArguments | MissingDivertTarget | UnrecognizedAction
    | MissingDefinition | BadName | ReservedName | DuplicateName
    | DuplicateId | MissingValue | BadId | DuplicateDefault | BadFlagBit | BadEnumValue | UnknownTagKeyword | MissingId
    | Exception | StackOverflow

  datatype Error = Error(at: Where, what: Problem)
  type Result<+T> = Fallible<T, Error>

  datatype MatchBody =
    | ZtMatch(source: bool, zt: string)
    | NumberMatch(field: NumberField, value: int)
    | RandomMatch(probability: int)
    | MacMatch(source: bool, mac: string)
    | IpMatch(source: bool, v6: bool, ip: string)
    | IcmpMatch(icmpType: int, code: Option<int>)
    | RangeMatch(range: RangeField, start: int, end: int)
    | TosMatch(mask: int, start: int, end: int)
    | ChrMatch(hi: bv32, lo: bv32)
    | TagMatch(test: TagTest, id: int, value: int)

  datatype Rule =
    | Match(not: bool, or: bool, body: MatchBody)
    | Act(verdict: Verdict)
    | CopyTo(watch: bool, address: string, length: int)
    | DivertTo(address: string)

  function WhereOf(e: Elem): Where {
    match e
    case Tok(_, line, col) => At(line, col)
    case Block(_) => AtBlock
  }

  function Failure<T>(e: Elem, what: Problem): Result<T> {
    Err(Error(WhereOf(e), what))
  }

  // ---------------------------------------------------------------------
  // One match
  // ---------------------------------------------------------------------

  const U32_MAX: int := 0xffff_ffff

  /** A JavaScript number holding the 32-bit pattern `m`. */
  function Signed(m: bv32): int {
    if m < 0x8000_0000 then m as int else m as int - 0x1_0000_0000
  }

  /** The pattern of `Math.abs` of that number. */
  function AbsMask(m: bv32): bv32 {
    if m < 0x8000_0000 then m else 0 - m
  }

  /** `1 << k` */
  function Bit(k: nat): bv32 {
    if k == 0 then 1 else Bit(k - 1) << 1
  }

  function Join(m: bv32, u: bv32): bv32 {
    m | u
  }

  predicate Meets(m: bv32, u: bv32) {
    m & u != 0
  }

  function Raise(m: bv32, k: nat): bv32 {
    Join(m, Bit(k))
  }

  predicate Raised(m: bv32, k: nat) {
    Meets(m, Bit(k))
  }

  /** The mask bits named by a comma separated list. */
  function ChrBits(parts: seq<string>, hi: bv32, lo: bv32, bits: map<string, int>): Option<(bv32, bv32)>
  {
    if parts == [] then Some((hi, lo))
    else if parts[0] == "" then ChrBits(parts[1..], hi, lo, bits)
    else
      var bit := if parts[0] in bits then bits[parts[0]] else ParseNum(parts[0]);
      if bit < 0 || bit > 63 then None
      else if bit >= 32 then ChrBits(parts[1..], Raise(hi, bit - 32), lo, bits)
      else ChrBits(parts[1..], hi, Raise(lo, bit), bits)
  }

  /** "a-b" or a single number; None for more than one dash. A leading dash is a sign. */
  function ParseRange(text: string): Option<(int, int)> {
    if IndexOf(text, '-') > 0 then
      var i := IndexOf(text, '-');
      var right := text[i + 1..];
      if '-' in right then None else Some((ParseNum(text[..i]), ParseNum(right)))
    else
      Some((ParseNum(text), ParseNum(text)))
  }

  function NumberValue(field: NumberField, text: string, lang: Language): int {
    match field
    case EtherType => if text in lang.etherTypes then lang.etherTypes[text] else ParseNum(text)
    case IpProtocol => if text in lang.protocols then lang.protocols[text] else ParseNum(text)
    case _ => ParseNum(text)
  }

  function Probability(x: real): (p: int)
    ensures 0 <= p <= U32_MAX
  {
    var clamped := if x < 0.0 then 0.0 else if x > 1.0 then 1.0 else x;
    assert 0.0 <= clamped <= 1.0;
    assert 0.0 <= 4294967295.0 * clamped <= 4294967295.0;
    (4294967295.0 * clamped).Floor
  }

  function TagValue(tag: Tag, text: string): int {
    if text in tag.flags then Signed(tag.flags[text])
    else if text in tag.enums then tag.enums[text]
    else ParseNum(text)
  }

  /** The entry for one match keyword and its arguments. */
  function RenderMatch(kind: MatchKind, args: seq<Elem>, tags: map<string, Tag>, lang: Language): Result<MatchBody>
    requires |args| == ArgCount(kind) && forall a | a in args :: a.Tok?
  {
    var text := args[0].text;
    match kind
    case ZtKind(source) =>
      var zt := HexDigits(Lower(text));
      if |zt| != 10 then Failure(args[0], BadAddress) else Ok(ZtMatch(source, zt))
    case NumberKind(field) =>
      var num := NumberValue(field, text, lang);
      if num < 0 || num > U32_MAX then Failure(args[0], BadNumber) else Ok(NumberMatch(field, num))
    case RandomKind => Ok(RandomMatch(Probability(lang.float(text))))
    case MacKind(source) =>
      var mac := MacText(HexDigits(Lower(text)));
      if |mac| != 17 then Failure(args[0], BadMac) else Ok(MacMatch(source, mac))
    case IpKind(source) =>
      var slash := IndexOf(text, '/');
      if slash <= 0 then Failure(args[0], MissingNetmask)
      else if lang.isIpv6(text[..slash]) then Ok(IpMatch(source, true, text))
      else if lang.isIpv4(text[..slash]) then Ok(IpMatch(source, false, text))
      else Failure(args[0], BadIp)
    case IcmpKind =>
      var icmpType, icmpCode := ParseNum(text), ParseNum(args[1].text);
      if icmpType < 0 || icmpType > 0xff then Failure(args[0], BadIcmpType)
      else if icmpCode > 0xff then Failure(args[1], BadIcmpCode)
      else Ok(IcmpMatch(icmpType, if icmpCode < 0 then None else Some(icmpCode)))
    case RangeKind(range) =>
      (match ParseRange(text)
       case None => Failure(args[0], BadRange)
       case Some((start, end)) =>
         if start < 0 || start > 0xffff || end < 0 || end > 0xffff || end < start then Failure(args[0], BadRange)
         else Ok(RangeMatch(range, start, end)))
    case TosKind =>
      var mask := ParseNum(text);
      if mask < 0 || mask > 0xff then Failure(args[0], BadMask)
      else
        (match ParseRange(args[1].text)
         case None => Failure(args[1], BadRange)
         case Some((start, end)) =>
           if start < 0 || start > 0xff || end < 0 || end > 0xff || end < start then Failure(args[1], BadRange)
           else Ok(TosMatch(mask, start, end)))
    case ChrKind =>
      (match ChrBits(SplitRuns(text, {','}), 0, 0, lang.bits)
       case None => Failure(args[0], BadBit)
       case Some((hi, lo)) => Ok(ChrMatch(AbsMask(hi), AbsMask(lo))))
    case TagKind(test) =>
      var known := text in tags;
      var id := if known then tags[text].id else ParseNum(text);
      var value := if known then TagValue(tags[text], args[1].text) else ParseNum(args[1].text);
      if id < 0 || id > U32_MAX then Failure(args[0], BadTagId)
      else if value < 0 || value > U32_MAX then Failure(args[1], BadTagValue)
      else Ok(TagMatch(test, id, value))
  }

  /** The ranges every rendered match respects. */
  predicate ValidBody(b: MatchBody) {
    match b
    case ZtMatch(_, zt) => |zt| == 10 && AllHex(zt)
    case NumberMatch(_, v) => 0 <= v <= U32_MAX
    case RandomMatch(p) => 0 <= p <= U32_MAX
    case MacMatch(_, mac) => |mac| == 17 && forall i | 0 <= i < 17 ::
      if i % 3 == 2 then mac[i] == ':' else IsHex(mac[i])
    case IpMatch(_, _, ip) => IndexOf(ip, '/') > 0
    case IcmpMatch(t, code) => 0 <= t <= 0xff && (code.Some? ==> 0 <= code.value <= 0xff)
    case RangeMatch(_, start, end) => 0 <= start <= end <= 0xffff
    case TosMatch(mask, start, end) => 0 <= mask <= 0xff && 0 <= start <= end <= 0xff
    case ChrMatch(_, _) => true
    case TagMatch(_, id, value) => 0 <= id <= U32_MAX && 0 <= value <= U32_MAX
  }

  predicate ValidRule(r: Rule) {
    match r
    case Match(_, _, body) => ValidBody(body)
    case Act(_) => true
    case CopyTo(_, address, length) => |address| == 10 && -1 <= length <= 0xffff
    case DivertTo(address) => |address| == 10
  }

  lemma RenderedMatchIsValid(kind: MatchKind, args: seq<Elem>, tags: map<string, Tag>, lang: Language)
    requires |args| == ArgCount(kind) && forall a | a in args :: a.Tok?
    ensures RenderMatch(kind, args, tags, lang).Ok? ==> ValidBody(RenderMatch(kind, args, tags, lang).value)
  {
    if kind.MacKind? {
      var digits := HexDigits(Lower(args[0].text));
      var mac := MacText(digits);
      forall i | 0 <= i < |mac| && i % 3 != 2 ensures IsHex(mac[i]) {
        assert mac[i] == digits[i - i / 3];
        assert digits[i - i / 3] in digits;
      }
    }
  }

  // ---------------------------------------------------------------------
  // Characteristic masks
  // ---------------------------------------------------------------------

  /** The bits that a list names, or nothing if a name is unknown or out of range. */
  function NamedBits(parts: seq<string>, bits: map<string, int>): Option<set<int>> {
    if parts == [] then Some({})
    else if parts[0] == "" then NamedBits(parts[1..], bits)
    else
      var bit := if parts[0] in bits then bits[parts[0]] else ParseNum(parts[0]);
      if bit < 0 || bit > 63 then None
      else
        match NamedBits(parts[1..], bits)
        case None => None
        case Some(more) => Some({bit} + more)
  }

  predicate MaskBit(hi: bv32, lo: bv32, b: int)
    requires 0 <= b < 64
  {
    if b >= 32 then Raised(hi, b - 32) else Raised(lo, b)
  }

  lemma {:induction false} BitsNonZero(k: nat)
    requires k < 32
    ensures Bit(k) != 0
    decreases 32 - k
  {
    if k == 31 {
      TopValue();
    } else {
      BitsNonZero(k + 1);
      ShiftedFrom(Bit(k));
    }
  }

  lemma TopValue()
    ensures Bit(31) == 0x8000_0000
  {
    assert Bit(4) == 0x10;
    assert Bit(8) == 0x100;
    assert Bit(12) == 0x1000;
    assert Bit(16) == 0x1_0000;
    assert Bit(20) == 0x10_0000;
    assert Bit(24) == 0x100_0000;
    assert Bit(28) == 0x1000_0000;
  }

  lemma ShiftedFrom(m: bv32)
    ensures m << 1 != 0 ==> m != 0
  {
  }

  lemma ShiftTogether(m: bv32, n: bv32)
    requires !Meets(m, n)
    ensures !Meets(m << 1, n << 1)
  {
  }

  lemma ShiftIsEven(m: bv32)
    ensures !Meets(1, m << 1)
  {
  }

  lemma {:induction false} BitsDisjoint(j: nat, k: nat)
    requires j < k
    ensures !Meets(Bit(j), Bit(k))
  {
    hide Meets;
    if j == 0 {
      ShiftIsEven(Bit(k - 1));
    } else {
      BitsDisjoint(j - 1, k - 1);
      ShiftTogether(Bit(j - 1), Bit(k - 1));
    }
  }

  lemma JoinOther(m: bv32, u: bv32, v: bv32)
    requires !Meets(u, v)
    ensures Meets(Join(m, u), v) == Meets(m, v)
  {
  }

  lemma JoinSelf(m: bv32, u: bv32)
    requires u != 0
    ensures Meets(Join(m, u), u)
  {
  }

  lemma MeetsBoth(u: bv32, v: bv32)
    ensures Meets(u, v) == Meets(v, u)
  {
  }

  lemma RaiseSelf(m: bv32, k: nat)
    requires k < 32
    ensures Raised(Raise(m, k), k)
  {
    hide Bit, Meets, Join;
    BitsNonZero(k);
    JoinSelf(m, Bit(k));
  }

  lemma BitsApart(j: nat, k: nat)
    requires j != k
    ensures !Meets(Bit(j), Bit(k))
  {
    hide Bit, Meets;
    if j < k {
      BitsDisjoint(j, k);
    } else {
      BitsDisjoint(k, j);
      MeetsBoth(Bit(j), Bit(k));
    }
  }

  lemma RaiseOther(m: bv32, k: nat, b: nat)
    requires k != b
    ensures Raised(Raise(m, k), b) == Raised(m, b)
  {
    hide Bit, Meets, Join;
    BitsApart(k, b);
    JoinOther(m, Bit(k), Bit(b));
  }

  lemma RaiseBit(m: bv32, k: nat, b: nat)
    requires k < 32 && b < 32
    ensures Raised(Raise(m, k), b) <==> Raised(m, b) || b == k
  {
    hide Raise, Raised;
    if k == b {
      RaiseSelf(m, k);
    } else {
      RaiseOther(m, k, b);
    }
  }

  /** The mask that the loop builds is the union of the named bits. */
  lemma {:induction false} ChrIsUnion(parts: seq<string>, hi: bv32, lo: bv32, bits: map<string, int>)
    ensures ChrBits(parts, hi, lo, bits).Some? == NamedBits(parts, bits).Some?
    ensures ChrBits(parts, hi, lo, bits).Some? ==>
      forall b | 0 <= b < 64 ::
        MaskBit(ChrBits(parts, hi, lo, bits).value.0, ChrBits(parts, hi, lo, bits).value.1, b) <==>
        MaskBit(hi, lo, b) || b in NamedBits(parts, bits).value
  {
    hide Raise, Raised, ParseNum;
    if parts != [] {
      if parts[0] == "" {
        ChrIsUnion(parts[1..], hi, lo, bits);
      } else {
        var bit := if parts[0] in bits then bits[parts[0]] else ParseNum(parts[0]);
        if 0 <= bit < 64 {
          var hi' := if bit >= 32 then Raise(hi, bit - 32) else hi;
          var lo' := if bit >= 32 then lo else Raise(lo, bit);
          forall b | 0 <= b < 64 ensures MaskBit(hi', lo', b) <==> MaskBit(hi, lo, b) || b == bit {
            if bit >= 32 && b >= 32 {
              RaiseBit(hi, bit - 32, b - 32);
            } else if bit < 32 && b < 32 {
              RaiseBit(lo, bit, b);
            }
          }
          ChrIsUnion(parts[1..], hi', lo', bits);
        }
      }
    }
  }

  lemma TopBit(m: bv32)
    ensures Raised(m, 31) <==> m >= 0x8000_0000
  {
    TopValue();
    TopOf(m);
  }

  lemma TopOf(m: bv32)
    ensures Meets(m, 0x8000_0000) <==> m >= 0x8000_0000
  {
  }

  /** A power of two stays one when shifted, and doubles the mask below it. */
  lemma PowerStep(a: bv32)
    requires a & (a - 1) == 0
    ensures (a << 1) & ((a << 1) - 1) == 0 && (a << 1) - 1 == (a - 1) | a
  {
  }

  lemma {:induction false} IsPower(k: nat)
    ensures Bit(k) & (Bit(k) - 1) == 0
  {
    if k > 0 {
      IsPower(k - 1);
      PowerStep(Bit(k - 1));
    }
  }

  lemma {:induction false} NoLowerBits(m: bv32, n: nat)
    requires forall b | 0 <= b < n :: !Raised(m, b)
    ensures m & (Bit(n) - 1) == 0
  {
    if n == 0 {
      assert Bit(0) - 1 == 0;
    } else {
      NoLowerBits(m, n - 1);
      assert !Raised(m, n - 1);
      IsPower(n - 1);
      PowerStep(Bit(n - 1));
      JoinBelow(m, Bit(n - 1));
    }
  }

  lemma JoinBelow(m: bv32, a: bv32)
    requires m & (a - 1) == 0 && !Meets(m, a)
    ensures m & ((a - 1) | a) == 0
  {
  }

  lemma OnlyTop(m: bv32)
    requires m & (0x8000_0000 - 1) == 0 && m >= 0x8000_0000
    ensures m == 0x8000_0000
  {
  }

  /** A half mask keeps its bits under `Math.abs` if the top bit is clear or alone. */
  lemma AbsKeeps(m: bv32)
    requires Raised(m, 31) ==> forall b | 0 <= b < 31 :: !Raised(m, b)
    ensures AbsMask(m) == m
  {
    hide Raised, Bit;
    TopBit(m);
    if Raised(m, 31) {
      NoLowerBits(m, 31);
      TopValue();
      OnlyTop(m);
    }
  }

  /** Otherwise it loses the top bit. */
  lemma AbsLoses(m: bv32, k: nat)
    requires k < 31 && Raised(m, 31) && Raised(m, k)
    ensures !Raised(AbsMask(m), 31)
  {
    hide Bit;
    TopBit(m);
    TopBit(AbsMask(m));
    TopValue();
    BitsDisjoint(k, 31);
    NegatedBelow(m, Bit(k));
  }

  lemma NegatedBelow(m: bv32, u: bv32)
    requires m >= 0x8000_0000 && Meets(m, u) && !Meets(u, 0x8000_0000)
    ensures 0 - m < 0x8000_0000
  {
  }

  /** Neither bit 63 nor bit 31 is named together with another bit of its half. */
  predicate TopAlone(named: set<int>) {
    && (63 in named ==> forall b | b in named :: b == 63 || b < 32)
    && (31 in named ==> forall b | b in named :: b == 31 || b >= 32)
  }

  lemma HalfExact(m: bv32, bits: set<int>)
    requires forall b | 0 <= b < 32 :: Raised(m, b) <==> b in bits
    ensures (forall b | 0 <= b < 32 :: Raised(AbsMask(m), b) <==> b in bits) <==>
            (31 in bits ==> forall b | 0 <= b < 31 :: b !in bits)
  {
    hide Raised, AbsMask;
    if 31 in bits && exists b | 0 <= b < 31 :: b in bits {
      var b :| 0 <= b < 31 && b in bits;
      AbsLoses(m, b);
    } else {
      AbsKeeps(m);
    }
  }

  lemma {:induction false} NamedInRange(parts: seq<string>, bits: map<string, int>)
    ensures NamedBits(parts, bits).Some? ==> forall b | b in NamedBits(parts, bits).value :: 0 <= b < 64
  {
    hide ParseNum;
    if parts != [] {
      NamedInRange(parts[1..], bits);
    }
  }

  /**
   * A `chr` match is rendered exactly when all its names are known, and its mask then has exactly the named bits if
   * and only if neither bit 63 nor bit 31 is named together with another bit of its half.
   */
  lemma ChrExact(arg: Elem, tags: map<string, Tag>, lang: Language)
    requires arg.Tok?
    ensures var named := NamedBits(SplitRuns(arg.text, {','}), lang.bits);
      var r := RenderMatch(ChrKind, [arg], tags, lang);
      && (r.Ok? <==> named.Some?)
      && (r.Ok? ==> r.value.ChrMatch?)
      && (r.Ok? ==>
            ((forall b | 0 <= b < 64 :: MaskBit(r.value.hi, r.value.lo, b) <==> b in named.value) <==>
              TopAlone(named.value)))
  {
    hide Raised, AbsMask, ChrBits, NamedBits;
    var parts := SplitRuns(arg.text, {','});
    ChrIsUnion(parts, 0, 0, lang.bits);
    NamedInRange(parts, lang.bits);
    if NamedBits(parts, lang.bits).Some? {
      var named := NamedBits(parts, lang.bits).value;
      var (hi, lo) := ChrBits(parts, 0, 0, lang.bits).value;
      NothingRaised();
      var low, high := set b | b in named && b < 32, set b | b in named && b >= 32 :: b - 32;
      forall b | 0 <= b < 32 ensures (Raised(lo, b) <==> b in low) && (Raised(hi, b) <==> b in high) {
        assert MaskBit(hi, lo, b) <==> MaskBit(0, 0, b) || b in named;
        assert MaskBit(hi, lo, b + 32) <==> MaskBit(0, 0, b + 32) || b + 32 in named;
        assert b in high <==> b + 32 in named;
      }
      HalfExact(lo, low);
      HalfExact(hi, high);
      HalvesAlone(low, high, named);
      HalvesTogether(AbsMask(hi), AbsMask(lo), low, high, named);
    }
  }

  lemma NothingRaised()
    ensures forall b | 0 <= b < 64 :: !MaskBit(0, 0, b)
  {
    forall k: nat ensures !Raised(0, k) {
      MeetsNothing(Bit(k));
    }
  }

  lemma MeetsNothing(u: bv32)
    ensures !Meets(0, u)
  {
  }

  lemma HalvesAlone(low: set<int>, high: set<int>, named: set<int>)
    requires forall b | b in named :: 0 <= b < 64
    requires low == (set b | b in named && b < 32) && high == (set b | b in named && b >= 32 :: b - 32)
    ensures TopAlone(named) <==>
      (31 in low ==> forall b | 0 <= b < 31 :: b !in low) && (31 in high ==> forall b | 0 <= b < 31 :: b !in high)
  {
    assert 31 in high <==> 63 in named by {
      assert 63 in named ==> 63 - 32 in high;
    }
    if TopAlone(named) {
      forall b | 0 <= b < 31 && 63 in named ensures b !in high {
        assert b in high ==> b + 32 in named;
      }
    } else if 63 in named && exists b | b in named :: b != 63 && b >= 32 {
      var b :| b in named && b != 63 && b >= 32;
      assert b - 32 in high;
    } else {
      var b :| b in named && b != 31 && b < 32;
      assert b in low;
    }
  }

  lemma HalvesTogether(hi: bv32, lo: bv32, low: set<int>, high: set<int>, named: set<int>)
    requires forall b | b in named :: 0 <= b < 64
    requires low == (set b | b in named && b < 32) && high == (set b | b in named && b >= 32 :: b - 32)
    ensures (forall b | 0 <= b < 64 :: MaskBit(hi, lo, b) <==> b in named) <==>
      (forall b | 0 <= b < 32 :: Raised(lo, b) <==> b in low) &&
        (forall b | 0 <= b < 32 :: Raised(hi, b) <==> b in high)
  {
    hide Raised;
    assert forall b :: b in high <==> b + 32 in named && b >= 0;
    if forall b | 0 <= b < 64 :: MaskBit(hi, lo, b) <==> b in named {
      forall b | 0 <= b < 32 ensures (Raised(lo, b) <==> b in low) && (Raised(hi, b) <==> b in high) {
        assert MaskBit(hi, lo, b) <==> b in named;
        assert MaskBit(hi, lo, b + 32) <==> b + 32 in named;
      }
    }
  }

  /** "inbound,multicast" names bits 63 and 62, but the rendered mask has bit 62 alone. */
  lemma InboundIsLost(bits: map<string, int>)
    requires "inbound" in bits && bits["inbound"] == 63 && "multicast" in bits && bits["multicast"] == 62
    ensures ChrBits(["inbound", "multicast"], 0, 0, bits) == Some((0xC000_0000, 0))
    ensures AbsMask(0xC000_0000) == 0x4000_0000
  {
    var parts := ["inbound", "multicast"];
    assert parts[1..] == ["multicast"] && parts[1..][1..] == [];
    TopTwo();
    assert ChrBits(parts[1..][1..], 0xC000_0000, 0, bits) == Some((0xC000_0000, 0));
    assert ChrBits(parts[1..], 0x8000_0000, 0, bits) == Some((0xC000_0000, 0));
  }

  lemma TopTwo()
    ensures Raise(0, 31) == 0x8000_0000 && Raise(0x8000_0000, 30) == 0xC000_0000
  {
    TopValue();
    assert Bit(28) == 0x1000_0000 by {
      assert Bit(4) == 0x10;
      assert Bit(8) == 0x100;
      assert Bit(12) == 0x1000;
      assert Bit(16) == 0x1_0000;
      assert Bit(20) == 0x10_0000;
      assert Bit(24) == 0x100_0000;
    }
    assert Bit(30) == 0x4000_0000;
  }

  // ---------------------------------------------------------------------
  // A block of matches
  // ---------------------------------------------------------------------

  /** What is fixed while one macro body or rule tree is rendered. */
  datatype Scope = Scope(params: map<string, string>, tags: map<string, Tag>, lang: Language)

  /** Rules rendered so far, and the error that stopped rendering. */
  datatype Output = Output(rules: seq<Rule>, err: Option<Error>)

  datatype MatchClass = Skip | Known(word: MatchWord) | Unknown

  function Classify(e: Elem, lang: Language): MatchClass {
    if e.Block? || e.text == "" then Skip
    else if Lower(e.text) in lang.words then Known(lang.words[Lower(e.text)])
    else Unknown
  }

  predicate IsVariable(text: string) {
    text != "" && text[0] == '$'
  }

  /** One argument: a variable is looked up once, and its value is not looked at again. */
  function Argument(prev: Elem, e: Elem, scope: Scope): (r: Result<Elem>)
    ensures r.Ok? ==> r.value.Tok?
  {
    if e.Block? || e.text in scope.lang.reserved || e.text == "" then Failure(prev, ReservedArgument)
    else if !IsVariable(e.text) then Ok(e)
    else if e.text in scope.params then Ok(Tok(scope.params[e.text], e.line, e.col))
    else Failure(e, UndefinedVariable)
  }

  /** The `n` arguments at the head of `es`, which stand behind `prev`. */
  function Arguments(prev: Elem, es: seq<Elem>, n: nat, scope: Scope): (r: Result<seq<Elem>>)
    ensures r.Ok? ==> n <= |es| && |r.value| == n && forall a | a in r.value :: a.Tok?
    decreases n
  {
    if n == 0 then Ok([])
    else if es == [] then Failure(prev, MissingArgument)
    else
      match Argument(prev, es[0], scope)
      case Err(error) => Err(error)
      case Ok(arg) =>
        match Arguments(es[0], es[1..], n - 1, scope)
        case Err(error) => Err(error)
        case Ok(args) => Ok([arg] + args)
  }

  function Prepend(rules: seq<Rule>, out: Output): Output {
    Output(rules + out.rules, out.err)
  }

  function Stop(error: Error): Output {
    Output([], Some(error))
  }

  /** One keyword with its arguments, given the words that stood before it. */
  function RenderKeyword(es: seq<Elem>, kind: MatchKind, scope: Scope): Result<MatchBody>
    requires es != []
  {
    match Arguments(es[0], es[1..], ArgCount(kind), scope)
    case Err(error) => Err(error)
    case Ok(args) => RenderMatch(kind, args, scope.tags, scope.lang)
  }

  /** The entries of a block, given whether `not` and `or` are pending. */
  function Matches(es: seq<Elem>, not: bool, or: bool, scope: Scope): Output
    decreases |es|
  {
    if es == [] then Output([], None)
    else
      match Classify(es[0], scope.lang)
      case Skip | Known(And) => Matches(es[1..], not, or, scope)
      case Known(Not) => Matches(es[1..], true, or, scope)
      case Known(Or) => Matches(es[1..], not, true, scope)
      case Unknown => Stop(Error(WhereOf(es[0]), UnrecognizedMatch))
      case Known(Keyword(kind)) =>
        match RenderKeyword(es, kind, scope)
        case Err(error) => Stop(error)
        case Ok(body) => Prepend([Match(not, or, body)], Matches(es[1 + ArgCount(kind)..], false, false, scope))
  }

  method CollectArgs(mtree: seq<Elem>, at: nat, argCount: nat, scope: Scope) returns (r: Result<seq<Elem>>)
    requires at < |mtree|
    ensures r == Arguments(mtree[at], mtree[at + 1..], argCount, scope)
  {
    var args: seq<Elem> := [];
    var k, i := at, 0;
    assert forall more: seq<Elem> :: args + more == more;
    while i < argCount
      invariant 0 <= i <= argCount && k == at + i < |mtree|
      invariant forall a | a in args :: a.Tok?
      invariant Arguments(mtree[at], mtree[at + 1..], argCount, scope) ==
        match Arguments(mtree[k], mtree[k + 1..], argCount - i, scope)
        case Err(error) => Err(error)
        case Ok(more) => Ok(args + more)
    {
      k, i := k + 1, i + 1;
      if k >= |mtree| {
        return Failure(mtree[k - 1], MissingArgument);
      }
      assert mtree[k..][1..] == mtree[k + 1..];
      var arg := Argument(mtree[k - 1], mtree[k], scope);
      if arg.Err? {
        return Err(arg.error);
      }
      assert forall more: seq<Elem> :: (args + [arg.value]) + more == args + ([arg.value] + more);
      args := args + [arg.value];
    }
    assert args + [] == args;
    return Ok(args);
  }

  /** `_renderMatches`, which appends to the rules it is given. */
  method RenderMatches(mtree: seq<Elem>, rules0: seq<Rule>, scope: Scope) returns (rules: seq<Rule>, err: Option<Error>)
    ensures Output(rules, err) == Prepend(rules0, Matches(mtree, false, false, scope))
  {
    hide Arguments, RenderMatch, ArgCount;
    rules := rules0;
    var not, or := false, false;
    var k := 0;
    assert mtree[0..] == mtree;
    while k < |mtree|
      invariant 0 <= k <= |mtree|
      invariant Prepend(rules0, Matches(mtree, false, false, scope)) ==
        Prepend(rules, Matches(mtree[k..], not, or, scope))
    {
      assert mtree[k..][0] == mtree[k] && mtree[k..][1..] == mtree[k + 1..];
      match Classify(mtree[k], scope.lang) {
        case Skip =>
        case Known(And) =>
        case Known(Not) => not := true;
        case Known(Or) => or := true;
        case Unknown => return rules, Some(Error(WhereOf(mtree[k]), UnrecognizedMatch));
        case Known(Keyword(kind)) =>
          var args := CollectArgs(mtree, k, ArgCount(kind), scope);
          if args.Err? {
            return rules, Some(args.error);
          }
          var body := RenderMatch(kind, args.value, scope.tags, scope.lang);
          if body.Err? {
            return rules, Some(body.error);
          }
          PrependTwice(rules, [Match(not, or, body.value)],
            Matches(mtree[k + 1 + ArgCount(kind)..], false, false, scope));
          assert mtree[k..][1 + ArgCount(kind)..] == mtree[k + 1 + ArgCount(kind)..];
          rules := rules + [Match(not, or, body.value)];
          k := k + ArgCount(kind);
          not, or := false, false;
      }
      k := k + 1;
    }
    err := None;
  }

  lemma PrependTwice(a: seq<Rule>, b: seq<Rule>, out: Output)
    ensures Prepend(a, Prepend(b, out)) == Prepend(a + b, out)
  {
    assert a + (b + out.rules) == (a + b) + out.rules;
  }

  // ---------------------------------------------------------------------
  // `not` and `or`
  // ---------------------------------------------------------------------

  /** A match as written: the words before the keyword, and the keyword with its arguments. */
  datatype Segment = Segment(lead: seq<Elem>, keyword: MatchKind, rest: seq<Elem>)

  predicate IsLead(e: Elem, lang: Language) {
    var c := Classify(e, lang);
    c.Skip? || (c.Known? && !c.word.Keyword?)
  }

  function LeadLength(es: seq<Elem>, lang: Language): (n: nat)
    ensures n <= |es|
    ensures forall i | 0 <= i < n :: IsLead(es[i], lang)
    ensures n < |es| ==> !IsLead(es[n], lang)
  {
    if es == [] || !IsLead(es[0], lang) then 0 else 1 + LeadLength(es[1..], lang)
  }

  /** Cuts a block at its match keywords; stops at a word that is no keyword or a keyword short of arguments. */
  function Segments(es: seq<Elem>, lang: Language): seq<Segment>
    decreases |es|
  {
    var n := LeadLength(es, lang);
    if n == |es| then []
    else
      match Classify(es[n], lang)
      case Known(Keyword(kind)) =>
        if |es| < n + 1 + ArgCount(kind) then []
        else [Segment(es[..n], kind, es[n..])] + Segments(es[n + 1 + ArgCount(kind)..], lang)
      case _ => []
  }

  /** Whether a word was written somewhere in `es`. */
  predicate Written(es: seq<Elem>, word: MatchWord, lang: Language) {
    exists i | 0 <= i < |es| :: Classify(es[i], lang) == Known(word)
  }

  /** The words in front of a match only set the flags. */
  lemma {:induction false} MatchesAfterLead(es: seq<Elem>, not: bool, or: bool, scope: Scope)
    ensures var n := LeadLength(es, scope.lang);
      Matches(es, not, or, scope) ==
        Matches(es[n..], not || Written(es[..n], Not, scope.lang), or || Written(es[..n], Or, scope.lang), scope)
    decreases |es|
  {
    hide RenderKeyword;
    var lang := scope.lang;
    var n := LeadLength(es, lang);
    if n == 0 {
      assert es[0..] == es;
    } else {
      var tail := es[1..];
      assert es[..n] == [es[0]] + tail[..n - 1] && es[n..] == tail[n - 1..];
      WrittenCons(es[0], tail[..n - 1], Not, lang);
      WrittenCons(es[0], tail[..n - 1], Or, lang);
      var c := Classify(es[0], lang);
      MatchesAfterLead(tail, not || c == Known(Not), or || c == Known(Or), scope);
    }
  }

  lemma WrittenCons(e: Elem, es: seq<Elem>, word: MatchWord, lang: Language)
    ensures Written([e] + es, word, lang) == (Classify(e, lang) == Known(word) || Written(es, word, lang))
  {
    var all := [e] + es;
    if Classify(e, lang) == Known(word) {
      assert Classify(all[0], lang) == Known(word);
    } else if Written(es, word, lang) {
      var i :| 0 <= i < |es| && Classify(es[i], lang) == Known(word);
      assert Classify(all[i + 1], lang) == Known(word);
    } else {
      assert forall i | 0 < i < |all| :: all[i] == es[i - 1];
    }
  }

  /** The j-th entry belongs to the j-th written match, and carries `not` and `or` exactly when written before it. */
  predicate Faithful(rule: Rule, seg: Segment, scope: Scope) {
    && seg.rest != []
    && rule.Match?
    && rule.not == Written(seg.lead, Not, scope.lang)
    && rule.or == Written(seg.lead, Or, scope.lang)
    && RenderKeyword(seg.rest, seg.keyword, scope) == Ok(rule.body)
  }

  /** A match keyword that renders: one entry and one segment, then the rest of the block. */
  lemma MatchStep(es: seq<Elem>, not: bool, or: bool, scope: Scope)
    requires es != [] && !IsLead(es[0], scope.lang) && Matches(es, not, or, scope).err.None?
    ensures var c := Classify(es[0], scope.lang);
      && c.Known? && c.word.Keyword?
      && var kind := c.word.kind;
      && 1 + ArgCount(kind) <= |es|
      && RenderKeyword(es, kind, scope).Ok?
      && Matches(es, not, or, scope) ==
         Prepend([Match(not, or, RenderKeyword(es, kind, scope).value)],
           Matches(es[1 + ArgCount(kind)..], false, false, scope))
  {
    hide RenderMatch;
  }

  predicate AllFaithful(rules: seq<Rule>, segs: seq<Segment>, scope: Scope) {
    |rules| == |segs| && forall j | 0 <= j < |rules| :: Faithful(rules[j], segs[j], scope)
  }

  lemma FaithfulCons(rule: Rule, rules: seq<Rule>, seg: Segment, segs: seq<Segment>, scope: Scope)
    requires Faithful(rule, seg, scope) && AllFaithful(rules, segs, scope)
    ensures AllFaithful([rule] + rules, [seg] + segs, scope)
  {
    hide Faithful;
    var rules', segs' := [rule] + rules, [seg] + segs;
    forall j | 0 <= j < |rules'| ensures Faithful(rules'[j], segs'[j], scope) {
      if j > 0 {
        assert rules'[j] == rules[j - 1] && segs'[j] == segs[j - 1];
      }
    }
  }

  lemma SegmentStep(es: seq<Elem>, lang: Language, kind: MatchKind)
    requires var n := LeadLength(es, lang);
      n + 1 + ArgCount(kind) <= |es| && Classify(es[n], lang) == Known(Keyword(kind))
    ensures var n := LeadLength(es, lang);
      Segments(es, lang) == [Segment(es[..n], kind, es[n..])] + Segments(es[n + 1 + ArgCount(kind)..], lang)
  {
    hide Classify, ArgCount, LeadLength;
  }

  lemma {:induction false} FlagsExact(es: seq<Elem>, scope: Scope)
    requires Matches(es, false, false, scope).err.None?
    ensures AllFaithful(Matches(es, false, false, scope).rules, Segments(es, scope.lang), scope)
    decreases |es|
  {
    hide RenderMatch, Written, RenderKeyword, Classify, ArgCount, AllFaithful, IsLead, Matches, Segments;
    var n := LeadLength(es, scope.lang);
    MatchesAfterLead(es, false, false, scope);
    if n < |es| {
      var rest := es[n..];
      var not, or := Written(es[..n], Not, scope.lang), Written(es[..n], Or, scope.lang);
      assert rest[0] == es[n];
      MatchStep(rest, not, or, scope);
      var kind := Classify(es[n], scope.lang).word.kind;
      var later := es[n + 1 + ArgCount(kind)..];
      assert rest[1 + ArgCount(kind)..] == later;
      FlagsExact(later, scope);
      SegmentStep(es, scope.lang, kind);
      var rule, seg := Match(not, or, RenderKeyword(rest, kind, scope).value), Segment(es[..n], kind, rest);
      FaithfulCons(rule, Matches(later, false, false, scope).rules, seg, Segments(later, scope.lang), scope);
    } else {
      NoneFaithful(es, scope);
    }
  }

  lemma NoneFaithful(es: seq<Elem>, scope: Scope)
    requires LeadLength(es, scope.lang) == |es|
    ensures AllFaithful(Matches(es, false, false, scope).rules, Segments(es, scope.lang), scope)
  {
    MatchesAfterLead(es, false, false, scope);
    assert es[|es|..] == [];
  }

  lemma {:induction false} MatchesAreValid(es: seq<Elem>, not: bool, or: bool, scope: Scope)
    ensures forall r | r in Matches(es, not, or, scope).rules :: r.Match? && ValidRule(r)
    decreases |es|
  {
    hide ValidBody, RenderMatch;
    if es != [] {
      match Classify(es[0], scope.lang)
      case Skip | Known(And) => MatchesAreValid(es[1..], not, or, scope);
      case Known(Not) => MatchesAreValid(es[1..], true, or, scope);
      case Known(Or) => MatchesAreValid(es[1..], not, true, scope);
      case Unknown =>
      case Known(Keyword(kind)) =>
        var args := Arguments(es[0], es[1..], ArgCount(kind), scope);
        if args.Ok? && RenderMatch(kind, args.value, scope.tags, scope.lang).Ok? {
          RenderedMatchIsValid(kind, args.value, scope.tags, scope.lang);
          MatchesAreValid(es[1 + ArgCount(kind)..], false, false, scope);
        }
    }
  }

  /** Matches do not recurse, so they never exhaust the call stack. */
  lemma {:induction false} MatchesFitTheStack(es: seq<Elem>, not: bool, or: bool, scope: Scope)
    ensures var err := Matches(es, not, or, scope).err; err.Some? ==> !err.value.what.StackOverflow?
    decreases |es|
  {
    hide RenderMatch;
    if es != [] {
      match Classify(es[0], scope.lang)
      case Skip | Known(And) => MatchesFitTheStack(es[1..], not, or, scope);
      case Known(Not) => MatchesFitTheStack(es[1..], true, or, scope);
      case Known(Or) => MatchesFitTheStack(es[1..], not, true, scope);
      case Unknown =>
      case Known(Keyword(kind)) =>
        ArgumentsFitTheStack(es[0], es[1..], ArgCount(kind), scope);
        var args := Arguments(es[0], es[1..], ArgCount(kind), scope);
        if args.Ok? {
          RenderMatchFitsTheStack(kind, args.value, scope.tags, scope.lang);
          MatchesFitTheStack(es[1 + ArgCount(kind)..], false, false, scope);
        }
    }
  }

  lemma ArgumentsFitTheStack(prev: Elem, es: seq<Elem>, n: nat, scope: Scope)
    ensures var r := Arguments(prev, es, n, scope); r.Err? ==> !r.error.what.StackOverflow?
    decreases n
  {
  }

  lemma RenderMatchFitsTheStack(kind: MatchKind, args: seq<Elem>, tags: map<string, Tag>, lang: Language)
    requires |args| == ArgCount(kind) && forall a | a in args :: a.Tok?
    ensures var r := RenderMatch(kind, args, tags, lang); r.Err? ==> !r.error.what.StackOverflow?
  {
  }

  // ---------------------------------------------------------------------
  // Substitution
  // ---------------------------------------------------------------------

  /** A value that survives being written into the source: not reserved, not empty, not a variable. */
  predicate PlainValue(text: string, lang: Language) {
    text !in lang.reserved && text != "" && !IsVariable(text)
  }

  predicate PlainParams(params: map<string, string>, lang: Language) {
    forall p | p in params && IsVariable(p) && p !in lang.reserved :: PlainValue(params[p], lang)
  }

  function SubstituteElem(e: Elem, scope: Scope): Elem {
    if e.Tok? && e.text !in scope.lang.reserved && IsVariable(e.text) && e.text in scope.params
    then Tok(scope.params[e.text], e.line, e.col)
    else e
  }

  function SubstituteArgs(es: seq<Elem>, n: nat, scope: Scope): (r: seq<Elem>)
    ensures |r| == if n <= |es| then n else |es|
    decreases n
  {
    if n == 0 || es == [] then [] else [SubstituteElem(es[0], scope)] + SubstituteArgs(es[1..], n - 1, scope)
  }

  /** The block with its variables replaced. Only argument positions are touched. */
  function Substitute(es: seq<Elem>, scope: Scope): (r: seq<Elem>)
    ensures |r| == |es|
    decreases |es|
  {
    if es == [] then []
    else
      match Classify(es[0], scope.lang)
      case Known(Keyword(kind)) =>
        var n := ArgCount(kind);
        var args := SubstituteArgs(es[1..], n, scope);
        if 1 + n <= |es| then [es[0]] + args + Substitute(es[1 + n..], scope) else [es[0]] + args
      case _ => [es[0]] + Substitute(es[1..], scope)
  }

  function Closed(scope: Scope): Scope {
    scope.(params := map[])
  }

  lemma ArgumentSubstitute(prev: Elem, prev': Elem, e: Elem, scope: Scope)
    requires PlainParams(scope.params, scope.lang) && WhereOf(prev) == WhereOf(prev')
    ensures Argument(prev', SubstituteElem(e, scope), Closed(scope)) == Argument(prev, e, scope)
    ensures WhereOf(SubstituteElem(e, scope)) == WhereOf(e)
  {
  }

  lemma {:induction false} ArgumentsSubstitute(prev: Elem, prev': Elem, es: seq<Elem>, n: nat, tail: seq<Elem>,
      scope: Scope)
    requires PlainParams(scope.params, scope.lang) && WhereOf(prev) == WhereOf(prev')
    requires n <= |es| || tail == []
    ensures Arguments(prev', SubstituteArgs(es, n, scope) + tail, n, Closed(scope)) == Arguments(prev, es, n, scope)
    decreases n
  {
    hide Argument, SubstituteElem, PlainParams, WhereOf, Closed;
    if n > 0 && es != [] {
      var e, e' := es[0], SubstituteElem(es[0], scope);
      var all := SubstituteArgs(es, n, scope) + tail;
      assert all[0] == e' && all[1..] == SubstituteArgs(es[1..], n - 1, scope) + tail;
      ArgumentSubstitute(prev, prev', e, scope);
      ArgumentsSubstitute(e, e', es[1..], n - 1, tail, scope);
    }
  }

  lemma KeywordSubstitute(es: seq<Elem>, kind: MatchKind, scope: Scope)
    requires PlainParams(scope.params, scope.lang) && es != [] && Classify(es[0], scope.lang) == Known(Keyword(kind))
    ensures RenderKeyword(Substitute(es, scope), kind, Closed(scope)) == RenderKeyword(es, kind, scope)
    ensures 1 + ArgCount(kind) <= |es| ==>
      Substitute(es, scope)[1 + ArgCount(kind)..] == Substitute(es[1 + ArgCount(kind)..], scope)
  {
    hide RenderMatch, PlainParams, Arguments, ArgCount;
    var n, es' := ArgCount(kind), Substitute(es, scope);
    var tail := if 1 + n <= |es| then Substitute(es[1 + n..], scope) else [];
    assert es'[1..] == SubstituteArgs(es[1..], n, scope) + tail;
    ArgumentsSubstitute(es[0], es[0], es[1..], n, tail, scope);
  }

  /** Rendering with parameters is rendering the substituted block without them, errors and positions included. */
  lemma {:induction false} MatchesSubstitute(es: seq<Elem>, not: bool, or: bool, scope: Scope)
    requires PlainParams(scope.params, scope.lang)
    ensures Matches(Substitute(es, scope), not, or, Closed(scope)) == Matches(es, not, or, scope)
    decreases |es|
  {
    hide RenderKeyword, PlainParams;
    if es != [] {
      var es' := Substitute(es, scope);
      assert es'[0] == es[0];
      match Classify(es[0], scope.lang)
      case Skip | Known(And) =>
        assert es'[1..] == Substitute(es[1..], scope);
        MatchesSubstitute(es[1..], not, or, scope);
      case Known(Not) =>
        assert es'[1..] == Substitute(es[1..], scope);
        MatchesSubstitute(es[1..], true, or, scope);
      case Known(Or) =>
        assert es'[1..] == Substitute(es[1..], scope);
        MatchesSubstitute(es[1..], not, true, scope);
      case Unknown =>
      case Known(Keyword(kind)) =>
        KeywordSubstitute(es, kind, scope);
        if RenderKeyword(es, kind, scope).Ok? {
          RenderedHasArguments(es, kind, scope);
          MatchesSubstitute(es[1 + ArgCount(kind)..], false, false, scope);
        }
    }
  }

  lemma RenderedHasArguments(es: seq<Elem>, kind: MatchKind, scope: Scope)
    requires es != [] && RenderKeyword(es, kind, scope).Ok?
    ensures 1 + ArgCount(kind) <= |es|
  {
  }
}
