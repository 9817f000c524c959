/** What the arguments of each match keyword mean, for numbers written in decimal or hexadecimal. */
module RuleFields {
  import opened Basics
  import opened Numerals
  import opened RuleText
  import opened RuleScanner
  import opened RuleMatches

  // ---------------------------------------------------------------------
  // Numbers
  // ---------------------------------------------------------------------

  function Number(n: nat, hex: bool): (s: string)
    ensures s != ""
  {
    if hex then "0x" + Hexadecimal(n) else Decimal(n)
  }

  lemma DigitOfChar(d: nat)
    requires d < 16
    ensures Digit(DigitChar(d)) == d
  {
  }

  lemma {:induction false} AllCounted(s: string, base: int)
    requires forall c | c in s :: Digit(c) < base
    ensures DigitCount(s, base) == |s|
  {
    if s != "" {
      AllCounted(s[1..], base);
    }
  }

  lemma {:induction false} DecimalValue(n: nat)
    ensures DigitsValue(Decimal(n), 10) == n && forall c | c in Decimal(n) :: Digit(c) < 10
  {
    hide Digit, DigitChar;
    var s := Decimal(n);
    DigitOfChar(n % 10);
    if n < 10 {
      assert s[..0] == "" && DigitsValue("", 10) == 0;
    } else {
      DecimalValue(n / 10);
      assert s[..|s| - 1] == Decimal(n / 10);
    }
  }

  lemma {:induction false} HexadecimalValue(n: nat)
    ensures DigitsValue(Hexadecimal(n), 16) == n && forall c | c in Hexadecimal(n) :: Digit(c) < 16
  {
    hide Digit, DigitChar;
    var s := Hexadecimal(n);
    DigitOfChar(n % 16);
    if n < 16 {
      assert s[..0] == "" && DigitsValue("", 16) == 0;
    } else {
      HexadecimalValue(n / 16);
      assert s[..|s| - 1] == Hexadecimal(n / 16);
    }
  }

  lemma LowerDigits(s: string)
    requires forall c | c in s :: IsDigitChar(c)
    ensures Lower(s) == s
  {
    forall i | 0 <= i < |s| ensures LowerChar(s[i]) == s[i] {
      assert s[i] in s;
    }
  }

  /** `parseInt` of digits alone. */
  lemma ParseDigits(s: string, base: int)
    requires s != "" && (forall c | c in s :: IsDigitChar(c) && Digit(c) < base)
    ensures ParseInt(s, base) == Some(DigitsValue(s, base))
  {
    hide Digit, DigitsValue;
    assert s[0] in s && (|s| > 1 ==> s[1] in s);
    AllCounted(s, base);
    assert TrimLeft(s) == s;
    assert s[..|s|] == s;
  }

  /** A number is read as it is written. */
  lemma NumberIsRead(n: nat, hex: bool)
    ensures ParseNum(Number(n, hex)) == n
  {
    hide DigitsValue, ParseInt, Decimal, Hexadecimal;
    if hex {
      var digits := Hexadecimal(n);
      HexadecimalDigits(n);
      HexadecimalValue(n);
      ParseDigits(digits, 16);
      LowerPrefix(digits);
    } else {
      var digits := Decimal(n);
      DecimalDigits(n);
      DecimalValue(n);
      ParseDigits(digits, 10);
      LowerDigits(digits);
      assert |digits| > 2 ==> digits[1] in digits && digits[..2][1] == digits[1];
    }
  }

  lemma LowerPrefix(digits: string)
    requires digits != "" && forall c | c in digits :: IsDigitChar(c)
    ensures var s := Lower("0x" + digits); |s| > 2 && s[..2] == "0x" && s[2..] == digits
  {
    LowerDigits(digits);
    var s := Lower("0x" + digits);
    assert s[..2] == "0x";
    assert s[2..] == Lower(digits);
  }

  /** No number is negative, and -1 is what a missing code is written as. */
  lemma MinusOne()
    ensures ParseNum("-1") == -1
  {
    assert Lower("-1") == "-1";
    assert "-1"[1..] == "1";
    assert DigitCount("1", 10) == 1 + DigitCount("", 10);
    assert "1"[..1] == "1" && "1"[..0] == "" && DigitsValue("1", 10) == DigitsValue("", 10) * 10 + 1;
  }

  lemma NumberChars(n: nat, hex: bool)
    ensures forall c | c in Number(n, hex) :: IsDigitChar(c) || c == 'x'
    ensures '0' <= Number(n, hex)[0] <= '9'
  {
    hide Decimal, Hexadecimal;
    if hex {
      HexadecimalDigits(n);
    } else {
      DecimalDigits(n);
      assert Decimal(n)[0] in Decimal(n);
    }
  }

  // ---------------------------------------------------------------------
  // Lists
  // ---------------------------------------------------------------------

  /** The pieces with a comma between each two. */
  function Joined(parts: seq<string>): string {
    if parts == [] then "" else if |parts| == 1 then parts[0] else parts[0] + "," + Joined(parts[1..])
  }

  predicate Piece(p: string, seps: set<char>) {
    p != "" && forall c | c in p :: c !in seps
  }

  lemma {:induction false} PrefixIs(p: string, rest: string, seps: set<char>)
    requires (forall c | c in p :: c !in seps) && (rest == "" || rest[0] in seps)
    ensures PrefixWithout(p + rest, seps) == |p|
  {
    if p == "" {
      assert p + rest == rest;
    } else {
      assert (p + rest)[1..] == p[1..] + rest;
      PrefixIs(p[1..], rest, seps);
    }
  }

  lemma SplitFirst(p: string, c: char, rest: string, seps: set<char>)
    requires (forall d | d in p :: d !in seps) && c in seps && (rest == "" || rest[0] !in seps)
    ensures SplitRuns(p + [c] + rest, seps) == [p] + SplitRuns(rest, seps)
  {
    var s := p + ([c] + rest);
    assert p + [c] + rest == s;
    PrefixIs(p, [c] + rest, seps);
    assert s[|p|..] == [c] + rest && s[..|p|] == p;
    assert ([c] + rest)[1..] == rest;
    assert PrefixOf([c] + rest, seps) == 1 + PrefixOf(rest, seps);
    assert s[|p| + 1..] == rest;
  }

  lemma SplitLast(p: string, seps: set<char>)
    requires forall d | d in p :: d !in seps
    ensures SplitRuns(p, seps) == [p]
  {
    PrefixIs(p, "", seps);
    assert p + "" == p;
  }

  /** A joined list splits into its pieces; a separator at the end leaves an empty piece. */
  lemma {:induction false} SplitJoined(parts: seq<string>, tail: string, seps: set<char>)
    requires parts != [] && (forall p | p in parts :: Piece(p, seps)) && ',' in seps
    requires tail == "" || (|tail| == 1 && tail[0] in seps)
    ensures SplitRuns(Joined(parts) + tail, seps) == parts + (if tail == "" then [] else [""])
    decreases |parts|
  {
    hide SplitRuns;
    var p := parts[0];
    assert Piece(p, seps);
    SplitLast("", seps);
    if |parts| == 1 {
      assert parts == [p];
      if tail == "" {
        assert Joined(parts) + tail == p;
        SplitLast(p, seps);
      } else {
        assert Joined(parts) + tail == p + [tail[0]] + "";
        SplitFirst(p, tail[0], "", seps);
      }
    } else {
      var rest := parts[1..];
      assert Piece(rest[0], seps) && Joined(rest)[0] == rest[0][0];
      SplitJoined(rest, tail, seps);
      assert Joined(parts) + tail == p + [','] + (Joined(rest) + tail);
      SplitFirst(p, ',', Joined(rest) + tail, seps);
      assert parts == [p] + rest;
    }
  }

  // ---------------------------------------------------------------------
  // Ranges
  // ---------------------------------------------------------------------

  function RangeText(a: nat, b: nat, hexA: bool, hexB: bool): string {
    Number(a, hexA) + "-" + Number(b, hexB)
  }

  lemma IndexOfFirst(s: string, c: char, i: nat)
    requires i < |s| && s[i] == c && c !in s[..i]
    ensures IndexOf(s, c) == i
  {
  }

  lemma RangeIsRead(a: nat, b: nat, hexA: bool, hexB: bool)
    ensures ParseRange(RangeText(a, b, hexA, hexB)) == Some((a, b))
    ensures ParseRange(Number(a, hexA)) == Some((a, a))
  {
    hide Number, ParseNum;
    var x, y := Number(a, hexA), Number(b, hexB);
    NumberChars(a, hexA);
    NumberChars(b, hexB);
    NumberIsRead(a, hexA);
    NumberIsRead(b, hexB);
    var s := x + "-" + y;
    assert s[..|x|] == x && s[|x|] == '-' && s[|x| + 1..] == y;
    IndexOfFirst(s, '-', |x|);
  }

  predicate Reads(e: Elem, text: string) {
    e.Tok? && e.text == text
  }

  /** Ports and frame sizes: the two numbers in order, and nothing but ordered pairs of 16 bits. */
  lemma RangeFields(range: RangeField, a: nat, b: nat, hexA: bool, hexB: bool, pair: Elem, single: Elem,
                    tags: map<string, Tag>, lang: Language)
    requires Reads(pair, RangeText(a, b, hexA, hexB)) && Reads(single, Number(a, hexA))
    ensures RenderMatch(RangeKind(range), [pair], tags, lang) ==
      if a <= b <= 0xffff then Ok(RangeMatch(range, a, b)) else Failure(pair, BadRange)
    ensures RenderMatch(RangeKind(range), [single], tags, lang) ==
      if a <= 0xffff then Ok(RangeMatch(range, a, a)) else Failure(single, BadRange)
  {
    hide ParseRange, RangeText, Number;
    RangeIsRead(a, b, hexA, hexB);
  }

  /** A second dash is refused. */
  lemma TwoDashes(range: RangeField, x: string, y: string, z: string, e: Elem, tags: map<string, Tag>, lang: Language)
    requires x != "" && '-' !in x && Reads(e, x + "-" + (y + "-" + z))
    ensures RenderMatch(RangeKind(range), [e], tags, lang) == Failure(e, BadRange)
  {
    var s := x + "-" + (y + "-" + z);
    assert s[..|x|] == x && s[|x|] == '-' && s[|x| + 1..] == y + "-" + z;
    IndexOfFirst(s, '-', |x|);
    assert (y + "-" + z)[|y|] == '-';
  }

  /** Type of service: the mask first, then the range, each of 8 bits. */
  lemma TosFields(mask: nat, hexMask: bool, a: nat, b: nat, hexA: bool, hexB: bool, d: Elem, pair: Elem, single: Elem,
                  tags: map<string, Tag>, lang: Language)
    requires Reads(d, Number(mask, hexMask)) && Reads(pair, RangeText(a, b, hexA, hexB))
    requires Reads(single, Number(a, hexA))
    ensures RenderMatch(TosKind, [d, pair], tags, lang) ==
      if mask > 0xff then Failure(d, BadMask)
      else if a <= b <= 0xff then Ok(TosMatch(mask, a, b)) else Failure(pair, BadRange)
    ensures RenderMatch(TosKind, [d, single], tags, lang) ==
      if mask > 0xff then Failure(d, BadMask)
      else if a <= 0xff then Ok(TosMatch(mask, a, a)) else Failure(single, BadRange)
  {
    hide ParseRange, RangeText, Number, ParseNum;
    NumberIsRead(mask, hexMask);
    RangeIsRead(a, b, hexA, hexB);
  }

  // ---------------------------------------------------------------------
  // Single numbers
  // ---------------------------------------------------------------------

  /** The names a numeric field knows besides numbers. */
  function NamesOf(field: NumberField, lang: Language): map<string, int> {
    match field
    case EtherType => lang.etherTypes
    case IpProtocol => lang.protocols
    case _ => map[]
  }

  /** VLAN fields, Ethernet type and protocol: a known name stands for its number, any other number for itself. */
  lemma NumberFields(field: NumberField, n: nat, hex: bool, e: Elem, name: Elem, tags: map<string, Tag>, lang: Language)
    requires Reads(e, Number(n, hex)) && name.Tok?
    ensures e.text !in NamesOf(field, lang) ==>
      RenderMatch(NumberKind(field), [e], tags, lang) ==
        if n <= U32_MAX then Ok(NumberMatch(field, n)) else Failure(e, BadNumber)
    ensures name.text in NamesOf(field, lang) && 0 <= NamesOf(field, lang)[name.text] <= U32_MAX ==>
      RenderMatch(NumberKind(field), [name], tags, lang) == Ok(NumberMatch(field, NamesOf(field, lang)[name.text]))
  {
    hide Number, ParseNum;
    NumberIsRead(n, hex);
  }

  function CodeText(code: Option<nat>, hex: bool): (s: string)
    ensures s != ""
  {
    match code
    case Some(n) => Number(n, hex)
    case None => "-1"
  }

  /** ICMP: the type first, then the code, which -1 leaves open. */
  lemma IcmpFields(t: nat, hexT: bool, code: Option<nat>, hexC: bool, d: Elem, e: Elem,
                   tags: map<string, Tag>, lang: Language)
    requires Reads(d, Number(t, hexT)) && Reads(e, CodeText(code, hexC))
    ensures RenderMatch(IcmpKind, [d, e], tags, lang) ==
      if t > 0xff then Failure(d, BadIcmpType)
      else if code.Some? && code.value > 0xff then Failure(e, BadIcmpCode)
      else Ok(IcmpMatch(t, code))
  {
    hide Number, ParseNum;
    NumberIsRead(t, hexT);
    MinusOne();
    if code.Some? {
      NumberIsRead(code.value, hexC);
    }
  }

  /** A probability is scaled to 32 bits: the share of the range that lies below it. */
  lemma RandomField(e: Elem, tags: map<string, Tag>, lang: Language)
    requires e.Tok?
    ensures var x, r := lang.float(e.text), RenderMatch(RandomKind, [e], tags, lang);
      && r.Ok? && r.value.RandomMatch?
      && (0.0 <= x <= 1.0 ==>
            r.value.probability as real <= x * 4294967295.0 < r.value.probability as real + 1.0)
      && (x < 0.0 ==> r.value.probability == 0)
      && (x > 1.0 ==> r.value.probability == U32_MAX)
  {
  }

  // ---------------------------------------------------------------------
  // Tags
  // ---------------------------------------------------------------------

  /** A tag that is not defined: both arguments are numbers. */
  lemma TagNumbers(test: TagTest, id: nat, hexId: bool, value: nat, hexValue: bool, d: Elem, e: Elem,
                   tags: map<string, Tag>, lang: Language)
    requires Reads(d, Number(id, hexId)) && Reads(e, Number(value, hexValue)) && d.text !in tags
    ensures RenderMatch(TagKind(test), [d, e], tags, lang) ==
      if id > U32_MAX then Failure(d, BadTagId)
      else if value > U32_MAX then Failure(e, BadTagValue)
      else Ok(TagMatch(test, id, value))
  {
    hide Number, ParseNum;
    NumberIsRead(id, hexId);
    NumberIsRead(value, hexValue);
  }

  /**
   * A defined tag: its identifier, and the value a flag, else an enum, else a number stands for. A flag that has bit 31
   * is negative to JavaScript and refused.
   */
  lemma TagNames(test: TagTest, d: Elem, e: Elem, tags: map<string, Tag>, lang: Language)
    requires d.Tok? && e.Tok? && d.text in tags && 0 <= tags[d.text].id <= U32_MAX
    ensures var tag := tags[d.text];
      e.text in tag.flags ==>
        RenderMatch(TagKind(test), [d, e], tags, lang) ==
          if tag.flags[e.text] < 0x8000_0000 then Ok(TagMatch(test, tag.id, tag.flags[e.text] as int))
          else Failure(e, BadTagValue)
    ensures var tag := tags[d.text];
      e.text !in tag.flags && e.text in tag.enums && 0 <= tag.enums[e.text] <= U32_MAX ==>
        RenderMatch(TagKind(test), [d, e], tags, lang) == Ok(TagMatch(test, tag.id, tag.enums[e.text]))
    ensures var tag := tags[d.text];
      forall n: nat, hex | e.text == Number(n, hex) && e.text !in tag.flags && e.text !in tag.enums ::
        RenderMatch(TagKind(test), [d, e], tags, lang) ==
          if n <= U32_MAX then Ok(TagMatch(test, tag.id, n)) else Failure(e, BadTagValue)
  {
    hide Number, ParseNum;
    forall n: nat, hex ensures ParseNum(Number(n, hex)) == n {
      NumberIsRead(n, hex);
    }
  }

  // ---------------------------------------------------------------------
  // Addresses
  // ---------------------------------------------------------------------

  lemma {:induction false} HexDigitsOfHex(s: string)
    requires AllHex(s)
    ensures HexDigits(s) == s
  {
    if s != "" {
      assert s[|s| - 1] in s;
      HexDigitsOfHex(s[..|s| - 1]);
    }
  }

  /** Other characters are dropped, and the digits stay in order. */
  lemma {:induction false} HexDigitsJoin(a: string, b: string)
    ensures HexDigits(a + b) == HexDigits(a) + HexDigits(b)
    ensures (forall c | c in b :: !IsHex(c)) ==> HexDigits(b) == ""
    decreases |b|
  {
    if b == "" {
      assert a + b == a;
    } else {
      var front := b[..|b| - 1];
      assert (a + b)[..|a + b| - 1] == a + front && (a + b)[|a + b| - 1] == b[|b| - 1];
      HexDigitsJoin(a, front);
      assert b[|b| - 1] in b;
    }
  }

  lemma LowerHex(s: string)
    requires AllHex(s)
    ensures Lower(s) == s
  {
    forall i | 0 <= i < |s| ensures LowerChar(s[i]) == s[i] {
      assert s[i] in s;
    }
  }

  /** A node address is its ten hexadecimal digits; the side is the keyword's. */
  lemma ZtFields(source: bool, e: Elem, tags: map<string, Tag>, lang: Language)
    requires e.Tok? && AllHex(e.text)
    ensures RenderMatch(ZtKind(source), [e], tags, lang) ==
      if |e.text| == 10 then Ok(ZtMatch(source, e.text)) else Failure(e, BadAddress)
  {
    LowerHex(e.text);
    HexDigitsOfHex(e.text);
  }

  /** Pairs of digits joined by colons. */
  function Pairs(digits: string): (s: string)
  {
    if |digits| <= 2 then digits else digits[..2] + ":" + Pairs(digits[2..])
  }

  lemma {:induction false} PairsDigits(digits: string)
    requires AllHex(digits)
    ensures HexDigits(Lower(Pairs(digits))) == digits
  {
    hide HexDigits;
    if |digits| <= 2 {
      LowerHex(digits);
      HexDigitsOfHex(digits);
    } else {
      var pair, rest := digits[..2], Pairs(digits[2..]);
      PairsDigits(digits[2..]);
      LowerHex(pair);
      HexDigitsOfHex(pair);
      assert Lower(pair + ":" + rest) == pair + ":" + Lower(rest);
      HexDigitsJoin(pair + ":", Lower(rest));
      HexDigitsJoin(pair, ":");
      assert digits[..2] + digits[2..] == digits;
    }
  }

  lemma {:induction false} PairsAt(digits: string, i: nat)
    requires |digits| % 2 == 0 && |digits| >= 2
    ensures |Pairs(digits)| == |digits| + |digits| / 2 - 1
    ensures i < |Pairs(digits)| ==> Pairs(digits)[i] == if i % 3 == 2 then ':' else digits[i - i / 3]
    decreases |digits|
  {
    if |digits| > 2 {
      PairsAt(digits[2..], if i >= 3 then i - 3 else 0);
    }
  }

  /** A MAC address is its six pairs of digits; the side is the keyword's. */
  lemma MacFields(source: bool, digits: string, e: Elem, tags: map<string, Tag>, lang: Language)
    requires AllHex(digits) && |digits| == 12 && Reads(e, Pairs(digits))
    ensures RenderMatch(MacKind(source), [e], tags, lang) == Ok(MacMatch(source, e.text))
  {
    hide HexDigits, Pairs;
    PairsDigits(digits);
    PairsAt(digits, 0);
    var mac := MacText(digits);
    forall i | 0 <= i < 17 ensures mac[i] == Pairs(digits)[i] {
      PairsAt(digits, i);
    }
    assert mac == Pairs(digits);
  }

  /** An address with a netmask keeps its text; the pattern decides the family, and the keyword the side. */
  lemma IpFields(source: bool, address: string, mask: string, e: Elem, bare: Elem,
                 tags: map<string, Tag>, lang: Language)
    requires '/' !in address && Reads(e, address + "/" + mask) && Reads(bare, address)
    ensures RenderMatch(IpKind(source), [e], tags, lang) ==
      if address == "" then Failure(e, MissingNetmask)
      else if lang.isIpv6(address) then Ok(IpMatch(source, true, e.text))
      else if lang.isIpv4(address) then Ok(IpMatch(source, false, e.text))
      else Failure(e, BadIp)
    ensures RenderMatch(IpKind(source), [bare], tags, lang) == Failure(bare, MissingNetmask)
  {
    var s := address + "/" + mask;
    assert s[..|address|] == address && s[|address|] == '/';
    IndexOfFirst(s, '/', |address|);
  }
}
