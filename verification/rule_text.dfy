/** String helpers of the flow-rule compiler. */
module RuleText {

  import opened Basics

  function LowerChar(c: char): char {
    if 'A' <= c <= 'Z' then (c as int + 32) as char else c
  }

  /** Lower case, for ASCII letters. */
  function Lower(s: string): string {
    seq(|s|, i requires 0 <= i < |s| => LowerChar(s[i]))
  }

  function IndexOf(s: string, c: char): (r: int)
    ensures -1 <= r < |s|
    ensures r >= 0 ==> s[r] == c && c !in s[..r]
    ensures r < 0 ==> c !in s
  {
    if s == "" then -1
    else if s[0] == c then 0
    else var r := IndexOf(s[1..], c); if r < 0 then -1 else r + 1
  }

  function PrefixWithout(s: string, seps: set<char>): (n: nat)
    ensures n <= |s|
    ensures forall c | c in s[..n] :: c !in seps
    ensures n < |s| ==> s[n] in seps
  {
    if s == "" || s[0] in seps then 0 else 1 + PrefixWithout(s[1..], seps)
  }

  function PrefixOf(s: string, seps: set<char>): (n: nat)
    ensures n <= |s|
    ensures s != "" && s[0] in seps ==> n > 0
  {
    if s == "" || s[0] !in seps then 0 else 1 + PrefixOf(s[1..], seps)
  }

  /** `s.split(/[seps]+/)`: the pieces between runs of separators, with an empty piece where a run touches an end. */
  function SplitRuns(s: string, seps: set<char>): (parts: seq<string>)
    ensures |parts| > 0
    ensures forall p | p in parts :: forall c | c in p :: c !in seps
    decreases |s|
  {
    var n := PrefixWithout(s, seps);
    if n == |s| then [s]
    else
      var run := PrefixOf(s[n..], seps);
      [s[..n]] + SplitRuns(s[n + run..], seps)
  }

  // ---------------------------------------------------------------------
  // Numbers
  // ---------------------------------------------------------------------

  function Digit(c: char): int {
    if '0' <= c <= '9' then c as int - '0' as int
    else if 'a' <= c <= 'z' then c as int - 'a' as int + 10
    else if 'A' <= c <= 'Z' then c as int - 'A' as int + 10
    else 99
  }

  function DigitCount(s: string, base: int): (n: nat)
    ensures n <= |s|
  {
    if s == "" || Digit(s[0]) >= base then 0 else 1 + DigitCount(s[1..], base)
  }

  function DigitsValue(s: string, base: int): int {
    if s == "" then 0 else DigitsValue(s[..|s| - 1], base) * base + Digit(s[|s| - 1])
  }

  predicate IsJsSpace(c: char) {
    c in {'\t', '\n', '\U{000B}', '\U{000C}', '\r', ' ', '\U{00A0}', '\U{FEFF}'}
  }

  function TrimLeft(s: string): string {
    if s != "" && IsJsSpace(s[0]) then TrimLeft(s[1..]) else s
  }

  function StripHexPrefix(s: string): string {
    if |s| >= 2 && s[0] == '0' && (s[1] == 'x' || s[1] == 'X') then s[2..] else s
  }

  /** `parseInt(s, base)` for base 10 and 16; None is NaN. */
  function ParseInt(s: string, base: int): Option<int> {
    var t := TrimLeft(s);
    var negative := t != "" && t[0] == '-';
    var unsigned := if t != "" && (t[0] == '-' || t[0] == '+') then t[1..] else t;
    var digits := if base == 16 then StripHexPrefix(unsigned) else unsigned;
    var n := DigitCount(digits, base);
    if n == 0 then None
    else
      var v := DigitsValue(digits[..n], base);
      Some(if negative then -v else v)
  }

  /** -1 stands for text that is not a number, and is also what "-1" gives. */
  function ParseNum(text: string): int {
    var s := Lower(text);
    var r := if |s| > 2 && s[..2] == "0x" then ParseInt(s[2..], 16) else ParseInt(s, 10);
    match r
    case Some(v) => v
    case None => -1
  }

  // ---------------------------------------------------------------------
  // Hexadecimal text
  // ---------------------------------------------------------------------

  predicate IsHex(c: char) {
    '0' <= c <= '9' || 'a' <= c <= 'f'
  }

  predicate AllHex(s: string) {
    forall c | c in s :: IsHex(c)
  }

  /** The hexadecimal digits of a text, in order. */
  function HexDigits(s: string): (r: string)
    ensures AllHex(r)
  {
    if s == "" then ""
    else if IsHex(s[|s| - 1]) then HexDigits(s[..|s| - 1]) + [s[|s| - 1]]
    else HexDigits(s[..|s| - 1])
  }

  method CleanHex(m: string) returns (m2: string)
    ensures m2 == HexDigits(Lower(m))
  {
    var s := Lower(m);
    m2 := "";
    for i := 0 to |s|
      invariant m2 == HexDigits(s[..i])
    {
      assert s[..i + 1][..i] == s[..i];
      if IsHex(s[i]) {
        m2 := m2 + [s[i]];
      }
    }
    assert s[..|s|] == s;
  }

  /** Length of a MAC text made from `n` digits: a colon behind each full pair, but not behind the sixth. */
  function MacLength(n: nat): nat {
    if n >= 12 then 17 else n + n / 2
  }

  /** The first twelve digits in pairs joined by colons. */
  function MacText(digits: string): (mac: string)
    ensures |mac| == MacLength(|digits|)
    ensures |mac| == 17 <==> |digits| >= 12
    ensures forall i | 0 <= i < |mac| && i % 3 == 2 :: mac[i] == ':'
    ensures forall i | 0 <= i < |mac| && i % 3 != 2 :: mac[i] == digits[i - i / 3]
  {
    seq(MacLength(|digits|), i requires 0 <= i < MacLength(|digits|) =>
      if i % 3 == 2 then ':' else digits[i - i / 3])
  }

  method CleanMac(m: string) returns (m2: string)
    ensures m2 == MacText(HexDigits(Lower(m)))
  {
    var s := Lower(m);
    m2 := "";
    var charcount := 0;
    var i := 0;
    ghost var digits := "";
    while i < |s| && |m2| < 17
      invariant 0 <= i <= |s|
      invariant digits == HexDigits(s[..i]) && |digits| <= 12
      invariant m2 == MacText(digits) && charcount == if |digits| == 12 then 2 else |digits| % 2
    {
      var c := s[i];
      assert s[..i + 1][..i] == s[..i];
      if IsHex(c) {
        digits := digits + [c];
        m2 := m2 + [c];
        charcount := charcount + 1;
        if |m2| > 0 && |m2| != 17 && charcount >= 2 {
          m2 := m2 + ":";
          charcount := 0;
        }
      }
      i := i + 1;
    }
    MoreDigits(s, i);
    assert s[..|s|] == s;
  }

  /** Digits behind the twelfth do not matter. */
  lemma {:induction false} MoreDigits(s: string, i: nat)
    requires i <= |s| && |HexDigits(s[..i])| <= 12
    ensures i == |s| || |HexDigits(s[..i])| == 12 ==> MacText(HexDigits(s[..i])) == MacText(HexDigits(s))
  {
    if i == |s| {
      assert s[..i] == s;
    } else {
      HexPrefix(s, i);
    }
  }

  lemma {:induction false} HexPrefix(s: string, i: nat)
    requires i <= |s|
    ensures HexDigits(s[..i]) <= HexDigits(s)
    decreases |s| - i
  {
    if i == |s| {
      assert s[..i] == s;
    } else {
      assert s[..i + 1][..i] == s[..i];
      HexPrefix(s, i + 1);
    }
  }
}
