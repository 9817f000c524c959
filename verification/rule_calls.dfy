/** Macro calls from text: which actual parameter each parameter gets. */
module RuleCalls {
  import opened Basics
  import opened RuleText
  import opened RuleScanner
  import opened RuleMatches
  import opened RuleActions
  import opened RuleCompiler
  import opened RuleFields

  const SEPARATORS: set<char> := {',', ')'}

  /** `name(p0,...,pn)` */
  function CallText(name: string, parts: seq<string>): string {
    name + ("(" + (Joined(parts) + ")"))
  }

  predicate Pieces(parts: seq<string>) {
    forall p | p in parts :: Piece(p, SEPARATORS)
  }

  lemma CallParts(name: string, parts: seq<string>)
    requires name != "" && '(' !in name
    ensures IndexOf(CallText(name, parts), '(') == |name| && CallName(CallText(name, parts)) == name
    ensures CallText(name, parts)[|name| + 1..] == Joined(parts) + ")"
  {
    var s := CallText(name, parts);
    assert s[..|name|] == name && s[|name|] == '(';
    IndexOfFirst(s, '(', |name|);
    assert s[|name| + 1..] == Joined(parts) + ")";
  }

  lemma SplitCall(parts: seq<string>)
    requires Pieces(parts)
    ensures SplitRuns(Joined(parts) + ")", SEPARATORS) == if parts == [] then ["", ""] else parts + [""]
  {
    hide SplitRuns;
    if parts == [] {
      assert Joined(parts) + ")" == "" + [')'] + "";
      SplitFirst("", ')', "", SEPARATORS);
      SplitLast("", SEPARATORS);
    } else {
      SplitJoined(parts, ")", SEPARATORS);
    }
  }

  lemma {:induction false} NonEmptyAll(parts: seq<string>)
    requires forall p | p in parts :: p != ""
    ensures NonEmpty(parts + [""]) == parts
  {
    if parts == [] {
      assert parts + [""] == [""] && [""][1..] == [];
    } else {
      assert (parts + [""])[1..] == parts[1..] + [""];
      assert parts[0] in parts && forall p | p in parts[1..] :: p in parts;
      NonEmptyAll(parts[1..]);
    }
  }

  lemma ActualsOf(name: string, actuals: seq<string>)
    requires name != "" && '(' !in name && Pieces(actuals)
    ensures CallActuals(CallText(name, actuals)) == actuals
  {
    hide SplitRuns;
    CallParts(name, actuals);
    SplitCall(actuals);
    if actuals == [] {
      assert ["", ""][1..] == [""] && [""][1..] == [];
      assert NonEmpty(["", ""]) == NonEmpty([""]) == [];
    } else {
      forall p | p in actuals ensures p != "" {
        assert Piece(p, SEPARATORS);
      }
      NonEmptyAll(actuals);
    }
  }

  // ---------------------------------------------------------------------
  // Definitions
  // ---------------------------------------------------------------------

  function LowerAll(parts: seq<string>): seq<string> {
    seq(|parts|, i requires 0 <= i < |parts| => Lower(parts[i]))
  }

  lemma LowerJoin(a: string, b: string)
    ensures Lower(a + b) == Lower(a) + Lower(b)
  {
  }

  lemma {:induction false} LowerJoined(parts: seq<string>)
    ensures Lower(Joined(parts)) == Joined(LowerAll(parts))
  {
    hide Lower;
    if |parts| == 1 {
      assert LowerAll(parts) == [Lower(parts[0])];
    } else if |parts| > 1 {
      var rest := parts[1..];
      LowerJoined(rest);
      LowerJoin(parts[0] + ",", Joined(rest));
      LowerJoin(parts[0], ",");
      assert Lower(",") == "," by { LowerMarks(); }
      assert LowerAll(parts)[1..] == LowerAll(rest);
    } else {
      assert Lower("") == "" by { LowerMarks(); }
    }
  }

  lemma LowerMarks()
    ensures Lower("") == "" && Lower(",") == "," && Lower("(") == "(" && Lower(")") == ")"
  {
  }

  lemma LowerCall(name: string, parts: seq<string>)
    ensures Lower(CallText(name, parts)) == CallText(Lower(name), LowerAll(parts))
  {
    hide Lower;
    LowerMarks();
    LowerJoined(parts);
    LowerJoin(name, "(" + (Joined(parts) + ")"));
    LowerJoin("(", Joined(parts) + ")");
    LowerJoin(Joined(parts), ")");
  }

  lemma LowerPieces(parts: seq<string>)
    requires Pieces(parts)
    ensures Pieces(LowerAll(parts))
  {
    forall q | q in LowerAll(parts) ensures Piece(q, SEPARATORS) {
      var i :| 0 <= i < |parts| && q == Lower(parts[i]);
      assert Piece(parts[i], SEPARATORS);
      forall c | c in q ensures c !in SEPARATORS {
        var j :| 0 <= j < |q| && c == q[j];
        assert parts[i][j] in parts[i];
      }
    }
  }

  lemma LowerKeepsParen(name: string)
    requires '(' !in name
    ensures '(' !in Lower(name)
  {
    forall i | 0 <= i < |name| ensures LowerChar(name[i]) != '(' {
      assert name[i] in name;
    }
  }

  /** The last position of a parameter in the list. */
  predicate LastAt(formals: seq<string>, i: int) {
    0 <= i < |formals| && forall j | i < j < |formals| :: formals[j] != formals[i]
  }

  /** Each parameter is numbered by its last position, and the empty piece behind the list adds nothing. */
  lemma {:induction false} PositionsAt(parts: seq<string>, n: nat, i: int)
    requires n <= |parts| && LastAt(parts[..n], i) && parts[i] != ""
    ensures parts[i] in ParamPositions(parts, n) && ParamPositions(parts, n)[parts[i]] == i
    decreases n
  {
    if i < n - 1 {
      assert parts[..n][n - 1] != parts[..n][i];
      assert LastAt(parts[..n - 1], i);
      PositionsAt(parts, n - 1, i);
    }
  }

  lemma {:induction false} PositionsKnown(parts: seq<string>, n: nat)
    requires n <= |parts|
    ensures forall p | p in ParamPositions(parts, n) :: p in parts[..n]
    decreases n
  {
    hide ParamPositions;
    if n > 0 {
      PositionsStep(parts, n);
      PositionsKnown(parts, n - 1);
      assert parts[..n] == parts[..n - 1] + [parts[n - 1]];
    } else {
      NoPositions(parts);
    }
  }

  lemma PositionsStep(parts: seq<string>, n: nat)
    requires 1 <= n <= |parts|
    ensures var m := ParamPositions(parts, n - 1);
      ParamPositions(parts, n) == if parts[n - 1] != "" then m[parts[n - 1] := n - 1] else m
  {
  }

  lemma {:induction false} SamePositions(a: seq<string>, more: seq<string>, n: nat)
    requires n <= |a|
    ensures ParamPositions(a + more, n) == ParamPositions(a, n)
    decreases n
  {
    hide ParamPositions;
    if n > 0 {
      PositionsStep(a + more, n);
      PositionsStep(a, n);
      SamePositions(a, more, n - 1);
    } else {
      NoPositions(a + more);
      NoPositions(a);
    }
  }

  lemma NoPositions(parts: seq<string>)
    ensures ParamPositions(parts, 0) == map[]
  {
  }

  /** The table of a definition with these parameters. */
  lemma PositionsOfCall(formals: seq<string>)
    requires Pieces(formals)
    ensures var parts := SplitRuns(Joined(formals) + ")", SEPARATORS);
      ParamPositions(parts, |parts|) == ParamPositions(formals, |formals|)
  {
    hide SplitRuns;
    SplitCall(formals);
    var parts := SplitRuns(Joined(formals) + ")", SEPARATORS);
    if formals == [] {
      assert ParamPositions(parts, 1) == ParamPositions(parts, 0) == map[];
      assert ParamPositions(parts, 2) == ParamPositions(parts, 1);
    } else {
      SamePositions(formals, [""], |formals|);
      assert ParamPositions(parts, |parts|) == ParamPositions(parts, |formals|);
    }
  }

  /** The macro that a definition with these parameters and rules enters. */
  lemma DefineCall(
      name: string, formals: seq<string>, rules: seq<Elem>, line: int, col: int, p: Program, lang: Language)
    requires name != "" && '(' !in name && Pieces(formals)
    requires ValidName(Lower(name), lang) && Lower(name) !in lang.reserved && Lower(name) !in p.macros
    ensures var lower := LowerAll(formals);
      MacroOf([Tok(CallText(name, formals), line, col)] + rules, p, lang) ==
        Ok(p.(macros := p.macros[Lower(name) := Macro(ParamPositions(lower, |lower|), rules)]))
  {
    hide SplitRuns, Lower, IndexOf, ValidName, ParamPositions;
    var block := [Tok(CallText(name, formals), line, col)] + rules;
    var lower := LowerAll(formals);
    LowerCall(name, formals);
    LowerKeepsParen(name);
    LowerPieces(formals);
    LowerNonEmpty(name);
    CallParts(Lower(name), lower);
    PositionsOfCall(lower);
    assert CallText(Lower(name), lower)[..|Lower(name)|] == Lower(name);
    assert block[1..] == rules;
  }

  lemma LowerNonEmpty(name: string)
    ensures |Lower(name)| == |name|
  {
  }

  // ---------------------------------------------------------------------
  // Calls
  // ---------------------------------------------------------------------

  /** Parameter by parameter: the last position of its name says which actual it gets. */
  ghost predicate Bound(params: map<string, string>, formals: seq<string>, actuals: seq<string>) {
    && (forall p :: p in params <==> p in formals)
    && |formals| <= |actuals|
    && (forall i | LastAt(formals, i) :: formals[i] in params && params[formals[i]] == actuals[i])
  }

  lemma LastExists(formals: seq<string>, p: string) returns (i: nat)
    requires p in formals
    ensures LastAt(formals, i) && formals[i] == p
  {
    i := |formals| - 1;
    while formals[i] != p
      invariant i < |formals| && (forall j | i < j < |formals| :: formals[j] != p)
      invariant p in formals[..i + 1]
      decreases i
    {
      assert formals[..i + 1] == formals[..i] + [formals[i]];
      i := i - 1;
    }
  }

  /**
   * A macro defined as `name(p0,...,pn)` and called as `name(a0,...,am)`: the call succeeds exactly if there are as
   * many actual as formal parameters, or more, and then each parameter is bound to the actual at its own position.
   */
  lemma CallByPosition(
      name: string, formals: seq<string>, actuals: seq<string>, rules: seq<Elem>, at: Elem, call: Elem, p: Program,
      lang: Language)
    requires name != "" && '(' !in name && Pieces(formals) && Pieces(actuals)
    requires ValidName(Lower(name), lang) && Lower(name) !in lang.reserved && Lower(name) !in p.macros
    requires at.Tok? && at.text == CallText(name, formals)
    requires call.Tok? && call.text == CallText(Lower(name), actuals)
    ensures var defined := MacroOf([at] + rules, p, lang);
      && defined.Ok?
      && var r := Resolve(call, defined.value.macros);
      if |actuals| < |formals| then r == Failure(call, MissingParameter)
      else r.Ok? && r.value.macro.rules == rules && Bound(r.value.params, LowerAll(formals), actuals)
  {
    hide Lower, ParamPositions, CallText, CallName, CallActuals, MacroOf, ValidName;
    var lower := LowerAll(formals);
    DefineCall(name, formals, rules, at.line, at.col, p, lang);
    LowerKeepsParen(name);
    LowerNonEmpty(name);
    CallParts(Lower(name), actuals);
    ActualsOf(Lower(name), actuals);
    LowerPieces(formals);
    Numbered(lower);
    var macros := MacroOf([at] + rules, p, lang).value.macros;
    var macro := macros[Lower(name)];
    assert macro == Macro(ParamPositions(lower, |lower|), rules);
    if |actuals| < |formals| {
      var q := lower[|lower| - 1];
      assert LastAt(lower, |lower| - 1);
      assert q in macro.params && macro.params[q] >= |actuals|;
    }
  }

  /** The numbering of a parameter list: all of its names, each at its last position. */
  lemma Numbered(formals: seq<string>)
    requires Pieces(formals)
    ensures var m := ParamPositions(formals, |formals|);
      && (forall p :: p in m <==> p in formals)
      && (forall i | LastAt(formals, i) :: formals[i] in m && m[formals[i]] == i)
  {
    hide ParamPositions;
    var m := ParamPositions(formals, |formals|);
    assert formals[..|formals|] == formals;
    PositionsKnown(formals, |formals|);
    forall i | LastAt(formals, i) ensures formals[i] in m && m[formals[i]] == i {
      assert Piece(formals[i], SEPARATORS);
      PositionsAt(formals, |formals|, i);
    }
    forall p | p in formals ensures p in m {
      var i := LastExists(formals, p);
    }
  }

  /**
   * Rendering such a call: the rules of the body with each `$` argument replaced by the actual at the parameter's
   * position, then whatever follows.
   */
  lemma IncludeByPosition(
      name: string, formals: seq<string>, actuals: seq<string>, rules: seq<Elem>, at: Elem, call: Elem,
      directive: Elem, rest: seq<Elem>, p: Program, scope: Scope, stack: nat)
    requires name != "" && '(' !in name && Pieces(formals) && Pieces(actuals) && |formals| <= |actuals|
    requires ValidName(Lower(name), scope.lang) && Lower(name) !in scope.lang.reserved && Lower(name) !in p.macros
    requires at.Tok? && at.text == CallText(name, formals)
    requires call.Tok? && call.text == CallText(Lower(name), actuals)
    requires ActionOf(directive, scope.lang) == Action(Include)
    requires forall a | a in actuals :: PlainValue(a, scope.lang)
    ensures MacroOf([at] + rules, p, scope.lang).Ok?
    ensures var macros := MacroOf([at] + rules, p, scope.lang).value.macros;
      exists params :: Bound(params, LowerAll(formals), actuals) &&
        var inner := scope.(params := params);
        Actions([directive, call] + rest, macros, scope, stack + 1) ==
          Then(Actions(Expand(rules, inner), macros, Closed(inner), stack), Actions(rest, macros, scope, stack + 1))
  {
    hide MacroOf, Resolve, Expand, Closed, Bound, CallText, Pieces, Lower, ValidName;
    CallByPosition(name, formals, actuals, rules, at, call, p, scope.lang);
    var macros := MacroOf([at] + rules, p, scope.lang).value.macros;
    var params := Resolve(call, macros).value.params;
    BoundIsPlain(params, LowerAll(formals), actuals, scope.lang);
    var ts := [directive, call] + rest;
    assert ts[2..] == rest && ts[1] == call && ts[0] == directive;
    ExpandCorrect(rules, macros, scope.(params := params), stack);
  }

  lemma BoundIsPlain(params: map<string, string>, formals: seq<string>, actuals: seq<string>, lang: Language)
    requires Bound(params, formals, actuals) && forall a | a in actuals :: PlainValue(a, lang)
    ensures PlainParams(params, lang)
  {
    forall p | p in params ensures params[p] in actuals {
      var i := LastExists(formals, p);
    }
  }
}
