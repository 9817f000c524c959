/** Names of the history files, and the order in which a rollback looks at them. */
module AgentHistory {
  import opened Basics

  function Pow10(n: nat): (p: nat)
    ensures p >= 1
  {
    if n == 0 then 1 else 10 * Pow10(n - 1)
  }

  function DigitChar(d: nat): char
    requires d < 10
  {
    "0123456789"[d]
  }

  /** The last `width` decimal digits. */
  function Digits(r: nat, width: nat): (s: string)
    ensures |s| == width
  {
    if width == 0 then "" else Digits(r / 10, width - 1) + [DigitChar(r % 10)]
  }

  /** The number of digits of `r`, at least eight: the format is `08d`. */
  function Width(r: nat): (w: nat)
    ensures w >= 8 && r < Pow10(w) && (w > 8 ==> Pow10(w - 1) <= r)
  {
    WidthFrom(r, 8)
  }

  function WidthFrom(r: nat, w: nat): (width: nat)
    ensures width >= w && r < Pow10(width) && (width > w ==> Pow10(width - 1) <= r)
    decreases if r < Pow10(w) then 0 else r - Pow10(w) + 1
  {
    if r < Pow10(w) then w else WidthFrom(r, w + 1)
  }

  function FileName(r: nat): string {
    "revision-" + (Digits(r, Width(r)) + ".json")
  }

  /** Code point order, as the names are sorted. */
  predicate Less(a: string, b: string) {
    b != "" && (a == "" || a[0] < b[0] || (a[0] == b[0] && Less(a[1..], b[1..])))
  }

  lemma {:induction false} LessPrefix(p: string, a: string, b: string)
    ensures Less(p + a, p + b) == Less(a, b)
  {
    if p == "" {
      assert p + a == a && p + b == b;
    } else {
      assert (p + a)[1..] == p[1..] + a && (p + b)[1..] == p[1..] + b;
      LessPrefix(p[1..], a, b);
    }
  }

  /** Strings of equal length decide the order, whatever follows, unless they are equal. */
  lemma {:induction false} LessExtend(a: string, b: string, x: string, y: string)
    requires |a| == |b| && a != b
    ensures Less(a + x, b + y) == Less(a, b)
  {
    assert a != "" && (a + x)[1..] == a[1..] + x && (b + y)[1..] == b[1..] + y;
    if a[0] == b[0] {
      assert a == [a[0]] + a[1..] && b == [b[0]] + b[1..];
      LessExtend(a[1..], b[1..], x, y);
    }
  }

  lemma LessDigit(c: nat, d: nat)
    requires c < 10 && d < 10
    ensures Less([DigitChar(c)], [DigitChar(d)]) <==> c < d
    ensures DigitChar(c) == DigitChar(d) <==> c == d
    ensures '.' < DigitChar(c)
  {
  }

  /** Digit strings of one width are ordered as their numbers. */
  lemma {:induction false} DigitsOrder(a: nat, b: nat, width: nat)
    requires a < Pow10(width) && b < Pow10(width)
    ensures Less(Digits(a, width), Digits(b, width)) <==> a < b
    ensures Digits(a, width) == Digits(b, width) <==> a == b
  {
    hide Less, DigitChar;
    if width == 0 {
      LessNothing();
    } else {
      DigitsOrder(a / 10, b / 10, width - 1);
      LessDigit(a % 10, b % 10);
      var x, y := Digits(a / 10, width - 1), Digits(b / 10, width - 1);
      var c, d := [DigitChar(a % 10)], [DigitChar(b % 10)];
      assert (x + c)[..width - 1] == x && (y + d)[..width - 1] == y;
      assert (x + c)[width - 1] == c[0] && (y + d)[width - 1] == d[0];
      if x == y {
        LessPrefix(x, c, d);
      } else {
        LessExtend(x, y, c, d);
      }
    }
  }

  lemma LessNothing()
    ensures !Less("", "")
  {
  }

  /** `r` without its last `k` digits. */
  function Cut(r: nat, k: nat): nat {
    if k == 0 then r else Cut(r / 10, k - 1)
  }

  predicate DigitsOnly(s: string) {
    forall c | c in s :: '.' < c
  }

  lemma {:induction false} DigitsPrefix(r: nat, n: nat, k: nat)
    ensures exists tail: string :: |tail| == k && Digits(r, n + k) == Digits(Cut(r, k), n) + tail && DigitsOnly(tail)
    decreases k
  {
    hide DigitChar;
    if k == 0 {
      assert Digits(r, n + k) == Digits(Cut(r, k), n) + "";
    } else {
      DigitsPrefix(r / 10, n, k - 1);
      var tail: string :| |tail| == k - 1 && Digits(r / 10, n + (k - 1)) == Digits(Cut(r / 10, k - 1), n) + tail &&
        DigitsOnly(tail);
      var tail' := tail + [DigitChar(r % 10)];
      LessDigit(r % 10, 0);
      assert Digits(r, n + k) == Digits(Cut(r, k), n) + tail';
    }
  }

  /** Cutting digits off the end is division. */
  lemma {:induction false} CutIsQuotient(r: nat, k: nat)
    ensures Cut(r, k) == r / Pow10(k)
    decreases k
  {
    if k > 0 {
      CutIsQuotient(r / 10, k - 1);
      DivideAgain(r, Pow10(k - 1));
    }
  }

  lemma DivideAgain(r: nat, p: nat)
    requires p >= 1
    ensures r / 10 / p == r / (10 * p)
  {
    var q := r / 10 / p;
    assert q * p <= r / 10 < q * p + p;
    assert q * (10 * p) <= r < q * (10 * p) + 10 * p;
    SameBlock(r, q, 10 * p);
  }

  lemma {:induction false} Pow10Grows(m: nat, n: nat)
    requires m <= n
    ensures Pow10(m) <= Pow10(n)
    decreases n
  {
    if m < n {
      Pow10Grows(m, n - 1);
    }
  }

  lemma WidthGrows(a: nat, b: nat)
    requires a <= b
    ensures Width(a) <= Width(b)
  {
    hide Width, Pow10;
    if Width(a) > Width(b) {
      Pow10Grows(Width(b), Width(a) - 1);
    }
  }

  lemma {:induction false} CutBelow(r: nat, n: nat, k: nat)
    requires r < Pow10(n + k)
    ensures Cut(r, k) < Pow10(n)
    decreases k
  {
    if k > 0 {
      CutBelow(r / 10, n, k - 1);
    }
  }

  /**
   * Names sort as their revisions do, exactly when the earlier revision does not exceed the leading digits of the later
   * one. With equally many digits (every revision below 100000000) that is always the case.
   */
  lemma NameOrder(a: nat, b: nat)
    requires a < b
    ensures Width(a) <= Width(b)
    ensures Less(FileName(a), FileName(b)) <==> a <= b / Pow10(Width(b) - Width(a))
  {
    hide Less, Digits, Width, Pow10, Cut;
    WidthGrows(a, b);
    var n, k := Width(a), Width(b) - Width(a);
    var lead := Cut(b, k);
    CutIsQuotient(b, k);
    CutBelow(b, n, k);
    DigitsPrefix(b, n, k);
    var tail: string :| |tail| == k && Digits(b, n + k) == Digits(lead, n) + tail && DigitsOnly(tail);
    var x, y, rest := Digits(a, n), Digits(lead, n), tail + ".json";
    LessPrefix("revision-", x + ".json", Digits(b, n + k) + ".json");
    assert Digits(b, n + k) + ".json" == y + rest;
    DigitsOrder(a, lead, n);
    if a == lead {
      LessPrefix(x, ".json", rest);
      if k == 0 {
        Pow10Zero();
      } else {
        assert tail[0] in tail;
        LessTail(tail);
      }
    } else {
      LessExtend(x, y, ".json", rest);
    }
  }

  lemma LessTail(tail: string)
    requires tail != "" && '.' < tail[0]
    ensures Less(".json", tail + ".json")
  {
  }

  lemma Pow10Zero()
    ensures Pow10(0) == 1
  {
  }

  lemma NarrowWidth(r: nat)
    requires r < 100_000_000
    ensures Width(r) == 8
  {
    assert Pow10(4) == 10_000;
    assert Pow10(8) == 100_000_000;
  }

  /** Below 100000000 the order of the names is the order of the revisions. */
  lemma NameOrderNarrow(a: nat, b: nat)
    requires a < b < 100_000_000
    ensures Less(FileName(a), FileName(b)) && !Less(FileName(b), FileName(a))
  {
    hide Less, FileName, Width, Pow10;
    NarrowWidth(a);
    NarrowWidth(b);
    NameOrder(a, b);
    Pow10Zero();
    LessAsymmetric(FileName(a), FileName(b));
  }

  lemma {:induction false} LessAsymmetric(a: string, b: string)
    requires Less(a, b)
    ensures !Less(b, a)
  {
    if a != "" && a[0] == b[0] {
      LessAsymmetric(a[1..], b[1..]);
    }
  }

  lemma {:induction false} LessTotal(a: string, b: string)
    ensures Less(a, b) || Less(b, a) || a == b
  {
    if a != "" && b != "" && a[0] == b[0] {
      LessTotal(a[1..], b[1..]);
      assert a == [a[0]] + a[1..] && b == [b[0]] + b[1..];
    }
  }

  lemma {:induction false} LessTransitive(a: string, b: string, c: string)
    requires Less(a, b) && Less(b, c)
    ensures Less(a, c)
  {
    if a != "" && a[0] == b[0] == c[0] {
      LessTransitive(a[1..], b[1..], c[1..]);
    }
  }

  /** Past eight digits the latest revision is no longer the last name. */
  lemma OrderBreaks()
    ensures !Less(FileName(99_999_999), FileName(100_000_000))
  {
    hide Less, FileName, Width, Pow10;
    NameOrder(99_999_999, 100_000_000);
    WideWidth();
    NarrowWidth(99_999_999);
  }

  lemma WideWidth()
    ensures Width(100_000_000) == 9 && Pow10(1) == 10
  {
    assert Pow10(4) == 10_000;
    assert Pow10(8) == 100_000_000;
  }
}
