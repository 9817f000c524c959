/** Pass 3, actions: `_renderActions` renders a rule tree and expands macros recursively. */
module RuleActions {
  import opened Basics
  import opened RuleText
  import opened RuleScanner
  import opened RuleMatches

  /** `params` gives each parameter its position among the actual parameters. */
  datatype Macro = Macro(params: map<string, nat>, rules: seq<Elem>)

  type Macros = map<string, Macro>

  datatype ActionClass = NoAction | Action(action: ActionWord) | UnknownAction

  function ActionOf(e: Elem, lang: Language): ActionClass {
    if e.Block? || e.text == "" then NoAction
    else if Lower(e.text) in lang.actions then Action(lang.actions[Lower(e.text)])
    else UnknownAction
  }

  // ---------------------------------------------------------------------
  // Macro calls
  // ---------------------------------------------------------------------

  function NonEmpty(parts: seq<string>): (r: seq<string>)
    ensures forall p | p in r :: p != "" && p in parts
  {
    if parts == [] then []
    else if parts[0] == "" then NonEmpty(parts[1..])
    else [parts[0]] + NonEmpty(parts[1..])
  }

  function CallName(text: string): string {
    var paren := IndexOf(text, '(');
    if paren > 0 then text[..paren] else text
  }

  function CallActuals(text: string): seq<string> {
    var paren := IndexOf(text, '(');
    if paren > 0 then NonEmpty(SplitRuns(text[paren + 1..], {',', ')'})) else []
  }

  /** Each parameter bound to the actual at its position. */
  function Bind(macro: Macro, actuals: seq<string>): map<string, string>
    requires forall p | p in macro.params :: macro.params[p] < |actuals|
  {
    map p | p in macro.params :: actuals[macro.params[p]]
  }

  datatype Call = Call(macro: Macro, params: map<string, string>)

  function Resolve(e: Elem, macros: Macros): Result<Call> {
    if e.Block? || CallName(e.text) !in macros then Failure(e, MacroNotFound)
    else
      var macro, actuals := macros[CallName(e.text)], CallActuals(e.text);
      if exists p | p in macro.params :: macro.params[p] >= |actuals|
      then Failure(e, MissingParameter)
      else Ok(Call(macro, Bind(macro, actuals)))
  }

  // ---------------------------------------------------------------------
  // Rendering
  // ---------------------------------------------------------------------

  predicate HasBlock(ts: seq<Elem>) {
    |ts| > 1 && ts[1].Block? && ts[1].elems != []
  }

  /** A rule in the table: matches and then the action they lead to. */
  function Finish(out: Output, action: Rule): Output {
    if out.err.Some? then out else Output(out.rules + [action], None)
  }

  function CopyLength(e: Elem): int {
    if e.Tok? then ParseNum(e.text) else -1
  }

  function RenderCopy(watch: bool, ms: seq<Elem>, scope: Scope): Output {
    if |ms| < 2 then Stop(Error(Nowhere, Exception))
    else if CopyLength(ms[0]) < -1 || CopyLength(ms[0]) > 0xffff
    then Stop(Error(if ms[0].Tok? && ms[1].Tok? then At(ms[0].line, ms[1].col) else AtBlock, BadLength))
    else if ms[1].Block? || |ms[1].text| != 10 then Stop(Error(WhereOf(ms[1]), BadTarget))
    else Finish(Matches(ms[2..], false, false, scope), CopyTo(watch, ms[1].text, CopyLength(ms[0])))
  }

  function RenderDivert(ms: seq<Elem>, scope: Scope): Output
    requires ms != []
  {
    if ms[0].Block? || |ms[0].text| != 10 then Stop(Error(WhereOf(ms[0]), BadTarget))
    else Finish(Matches(ms[1..], false, false, scope), DivertTo(ms[0].text))
  }

  /** In the source a token is an array of three items. */
  function ItemCount(e: Elem): nat {
    if e.Tok? then 3 else |e.elems|
  }

  /** An action other than `include`, with its block. */
  function Clause(ts: seq<Elem>, action: ActionWord, scope: Scope): Output
    requires ts != [] && !action.Include?
  {
    match action
    case Plain(verdict) =>
      if HasBlock(ts) then Finish(Matches(ts[1].elems, false, false, scope), Act(verdict))
      else Output([Act(verdict)], None)
    case Copy(watch) =>
      if HasBlock(ts) && ItemCount(ts[1].elems[0]) >= 2 then RenderCopy(watch, ts[1].elems, scope)
      else Stop(Error(WhereOf(ts[0]), MissingCopyArguments))
    case Divert =>
      if HasBlock(ts) && ItemCount(ts[1].elems[0]) >= 1 then RenderDivert(ts[1].elems, scope)
      else Stop(Error(WhereOf(ts[0]), MissingDivertTarget))
  }

  function Used(ts: seq<Elem>): (n: nat)
    requires ts != []
    ensures 1 <= n <= |ts|
  {
    if HasBlock(ts) then 2 else 1
  }

  function Then(out: Output, next: Output): Output {
    if out.err.Some? then out else Prepend(out.rules, next)
  }

  const OVERFLOW: Error := Error(Nowhere, StackOverflow)

  /** `_renderActions`. `stack` is the number of nested calls the JavaScript engine still allows. */
  function Actions(ts: seq<Elem>, macros: Macros, scope: Scope, stack: nat): Output
    decreases stack, |ts|
  {
    if ts == [] then Output([], None)
    else
      match ActionOf(ts[0], scope.lang)
      case NoAction => Actions(ts[1..], macros, scope, stack)
      case UnknownAction => Stop(Error(WhereOf(ts[0]), UnrecognizedAction))
      case Action(Include) =>
        if |ts| < 2 then Stop(Error(WhereOf(ts[0]), MissingMacroName))
        else
          (match Resolve(ts[1], macros)
           case Err(error) => Stop(error)
           case Ok(call) =>
             if stack == 0 then Stop(OVERFLOW)
             else Then(Actions(call.macro.rules, macros, scope.(params := call.params), stack - 1),
                       Actions(ts[2..], macros, scope, stack)))
      case Action(action) =>
        Then(Clause(ts, action, scope), Actions(ts[Used(ts)..], macros, scope, stack))
  }

  method RenderActions(rtree: seq<Elem>, rules0: seq<Rule>, macros: Macros, scope: Scope, stack: nat)
    returns (rules: seq<Rule>, err: Option<Error>)
    ensures Output(rules, err) == Prepend(rules0, Actions(rtree, macros, scope, stack))
    decreases stack
  {
    hide Matches, Resolve, Clause;
    rules := rules0;
    var k := 0;
    assert rtree[0..] == rtree;
    while k < |rtree|
      invariant 0 <= k <= |rtree|
      invariant Prepend(rules0, Actions(rtree, macros, scope, stack)) ==
        Prepend(rules, Actions(rtree[k..], macros, scope, stack))
    {
      ghost var ts := rtree[k..];
      assert ts[0] == rtree[k] && ts[1..] == rtree[k + 1..];
      match ActionOf(rtree[k], scope.lang) {
        case NoAction => k := k + 1;
        case UnknownAction => return rules, Some(Error(WhereOf(rtree[k]), UnrecognizedAction));
        case Action(action) =>
          if action == Include {
            if k + 1 >= |rtree| {
              return rules, Some(Error(WhereOf(rtree[k]), MissingMacroName));
            }
            assert ts[1] == rtree[k + 1] && ts[2..] == rtree[k + 2..];
            var call := Resolve(rtree[k + 1], macros);
            if call.Err? {
              return rules, Some(call.error);
            }
            if stack == 0 {
              return rules, Some(OVERFLOW);
            }
            ghost var before := rules;
            rules, err := RenderActions(call.value.macro.rules, rules, macros, scope.(params := call.value.params),
              stack - 1);
            ghost var body := Actions(call.value.macro.rules, macros, scope.(params := call.value.params), stack - 1);
            PrependThen(before, body, Actions(rtree[k + 2..], macros, scope, stack));
            if err.Some? {
              return;
            }
            k := k + 2;
          } else {
            var used := if k + 1 < |rtree| && rtree[k + 1].Block? && rtree[k + 1].elems != [] then 2 else 1;
            assert ts[used..] == rtree[k + used..];
            ghost var before := rules;
            rules, err := RenderClause(rtree[k..], action, rules, scope);
            PrependThen(before, Clause(ts, action, scope), Actions(rtree[k + used..], macros, scope, stack));
            if err.Some? {
              return;
            }
            k := k + used;
          }
      }
    }
    err := None;
  }

  lemma PrependThen(rules: seq<Rule>, out: Output, next: Output)
    ensures Prepend(rules, Then(out, next)) ==
      if out.err.Some? then Prepend(rules, out) else Prepend(rules + out.rules, next)
  {
    if out.err.None? {
      PrependTwice(rules, out.rules, next);
    }
  }

  /** One action other than `include`: the matches are appended first, then the action. */
  method RenderClause(ts: seq<Elem>, action: ActionWord, rules0: seq<Rule>, scope: Scope)
    returns (rules: seq<Rule>, err: Option<Error>)
    requires ts != [] && !action.Include?
    ensures Output(rules, err) == Prepend(rules0, Clause(ts, action, scope))
  {
    hide Matches;
    rules, err := rules0, None;
    match action {
      case Plain(verdict) =>
        if HasBlock(ts) {
          rules, err := RenderMatches(ts[1].elems, rules, scope);
        }
        if err.None? {
          rules := rules + [Act(verdict)];
        }
      case Copy(watch) =>
        if HasBlock(ts) && ItemCount(ts[1].elems[0]) >= 2 {
          var ms := ts[1].elems;
          if |ms| < 2 {
            return rules, Some(Error(Nowhere, Exception));
          }
          var maxLength := CopyLength(ms[0]);
          if maxLength < -1 || maxLength > 0xffff {
            var at := if ms[0].Tok? && ms[1].Tok? then At(ms[0].line, ms[1].col) else AtBlock;
            return rules, Some(Error(at, BadLength));
          }
          if ms[1].Block? || |ms[1].text| != 10 {
            return rules, Some(Error(WhereOf(ms[1]), BadTarget));
          }
          rules, err := RenderMatches(ms[2..], rules, scope);
          if err.None? {
            rules := rules + [CopyTo(watch, ms[1].text, maxLength)];
          }
        } else {
          return rules, Some(Error(WhereOf(ts[0]), MissingCopyArguments));
        }
      case Divert =>
        if HasBlock(ts) && ItemCount(ts[1].elems[0]) >= 1 {
          var ms := ts[1].elems;
          if ms[0].Block? || |ms[0].text| != 10 {
            return rules, Some(Error(WhereOf(ms[0]), BadTarget));
          }
          rules, err := RenderMatches(ms[1..], rules, scope);
          if err.None? {
            rules := rules + [DivertTo(ms[0].text)];
          }
        } else {
          return rules, Some(Error(WhereOf(ts[0]), MissingDivertTarget));
        }
    }
  }

  // ---------------------------------------------------------------------
  // Shape of the rule table
  // ---------------------------------------------------------------------

  /** (MATCH* ACTION)*: the table is empty or ends with an action. */
  predicate Complete(rules: seq<Rule>) {
    rules == [] || !rules[|rules| - 1].Match?
  }

  predicate AllValid(rules: seq<Rule>) {
    forall r | r in rules :: ValidRule(r)
  }

  lemma ClauseShape(ts: seq<Elem>, action: ActionWord, scope: Scope)
    requires ts != [] && !action.Include?
    ensures var out := Clause(ts, action, scope);
      AllValid(out.rules) && (out.err.None? ==> Complete(out.rules) && out.rules != [])
  {
    hide Matches;
    if HasBlock(ts) {
      var ms := ts[1].elems;
      MatchesAreValid(ms, false, false, scope);
      MatchesAreValid(ms[1..], false, false, scope);
      if |ms| >= 2 {
        MatchesAreValid(ms[2..], false, false, scope);
      }
    }
  }

  lemma ThenShape(out: Output, next: Output)
    requires AllValid(out.rules) && AllValid(next.rules)
    requires out.err.None? ==> Complete(out.rules)
    requires next.err.None? ==> Complete(next.rules)
    ensures AllValid(Then(out, next).rules)
    ensures Then(out, next).err.None? ==> Complete(Then(out, next).rules)
  {
  }

  /** Through any nesting of includes: all entries are in range, and a successful table is complete. */
  lemma {:induction false} ActionsShape(ts: seq<Elem>, macros: Macros, scope: Scope, stack: nat)
    ensures var out := Actions(ts, macros, scope, stack);
      AllValid(out.rules) && (out.err.None? ==> Complete(out.rules))
    decreases stack, |ts|
  {
    hide Clause, Resolve, AllValid, Complete, Then;
    EmptyShape();
    if ts != [] {
      match ActionOf(ts[0], scope.lang)
      case NoAction => ActionsShape(ts[1..], macros, scope, stack);
      case UnknownAction =>
      case Action(Include) =>
        if |ts| >= 2 && Resolve(ts[1], macros).Ok? && stack > 0 {
          var call := Resolve(ts[1], macros).value;
          var inner := scope.(params := call.params);
          ActionsShape(call.macro.rules, macros, inner, stack - 1);
          ActionsShape(ts[2..], macros, scope, stack);
          ThenShape(Actions(call.macro.rules, macros, inner, stack - 1), Actions(ts[2..], macros, scope, stack));
        }
      case Action(action) =>
        ClauseShape(ts, action, scope);
        ActionsShape(ts[Used(ts)..], macros, scope, stack);
        ThenShape(Clause(ts, action, scope), Actions(ts[Used(ts)..], macros, scope, stack));
    }
  }

  lemma EmptyShape()
    ensures AllValid([]) && Complete([])
  {
  }

  // ---------------------------------------------------------------------
  // Where each entry comes from
  // ---------------------------------------------------------------------

  /** What was written for an entry: a match with the words before it, or an action. */
  datatype Origin = FromMatch(segment: Segment, scope: Scope) | FromAction(action: ActionWord)

  predicate Stems(rule: Rule, origin: Origin) {
    match origin
    case FromMatch(segment, scope) => Faithful(rule, segment, scope)
    case FromAction(Plain(verdict)) => rule == Act(verdict)
    case FromAction(Copy(watch)) => rule.CopyTo? && rule.watch == watch
    case FromAction(Divert) => rule.DivertTo?
    case FromAction(Include) => false
  }

  predicate AllStem(rules: seq<Rule>, origins: seq<Origin>) {
    |rules| == |origins| && forall j | 0 <= j < |rules| :: Stems(rules[j], origins[j])
  }

  function FromMatches(segs: seq<Segment>, scope: Scope): (r: seq<Origin>)
    ensures |r| == |segs| && forall j | 0 <= j < |r| :: r[j] == FromMatch(segs[j], scope)
  {
    if segs == [] then [] else [FromMatch(segs[0], scope)] + FromMatches(segs[1..], scope)
  }

  /** The part of an action block that is matches, after the action's own arguments. */
  function OwnArguments(action: ActionWord): nat {
    match action
    case Copy(_) => 2
    case Divert => 1
    case _ => 0
  }

  function ClauseOrigins(ts: seq<Elem>, action: ActionWord, scope: Scope): seq<Origin>
    requires ts != []
  {
    var own := OwnArguments(action);
    (if HasBlock(ts) && own <= |ts[1].elems| then FromMatches(Segments(ts[1].elems[own..], scope.lang), scope)
      else []) +
    [FromAction(action)]
  }

  /** What is written in a rule tree and, through any nesting, in the macros it includes, in order. */
  function Origins(ts: seq<Elem>, macros: Macros, scope: Scope, stack: nat): seq<Origin>
    decreases stack, |ts|
  {
    if ts == [] then []
    else
      match ActionOf(ts[0], scope.lang)
      case NoAction => Origins(ts[1..], macros, scope, stack)
      case UnknownAction => []
      case Action(Include) =>
        if |ts| < 2 || Resolve(ts[1], macros).Err? || stack == 0 then []
        else
          var call := Resolve(ts[1], macros).value;
          Origins(call.macro.rules, macros, scope.(params := call.params), stack - 1) +
            Origins(ts[2..], macros, scope, stack)
      case Action(action) => ClauseOrigins(ts, action, scope) + Origins(ts[Used(ts)..], macros, scope, stack)
  }

  lemma MatchesStem(es: seq<Elem>, scope: Scope)
    requires Matches(es, false, false, scope).err.None?
    ensures AllStem(Matches(es, false, false, scope).rules, FromMatches(Segments(es, scope.lang), scope))
  {
    hide Matches, Segments, Faithful;
    FlagsExact(es, scope);
  }

  lemma StemOneMore(rules: seq<Rule>, origins: seq<Origin>, rule: Rule, origin: Origin)
    requires AllStem(rules, origins) && Stems(rule, origin)
    ensures AllStem(rules + [rule], origins + [origin])
  {
    hide Stems;
  }

  lemma StemTogether(rules: seq<Rule>, origins: seq<Origin>, rules': seq<Rule>, origins': seq<Origin>)
    requires AllStem(rules, origins) && AllStem(rules', origins')
    ensures AllStem(rules + rules', origins + origins')
  {
    hide Stems;
  }

  lemma ClauseStems(ts: seq<Elem>, action: ActionWord, scope: Scope)
    requires ts != [] && !action.Include? && Clause(ts, action, scope).err.None?
    ensures AllStem(Clause(ts, action, scope).rules, ClauseOrigins(ts, action, scope))
  {
    hide Matches, Segments, AllStem, Faithful;
    var own := OwnArguments(action);
    var rules := Clause(ts, action, scope).rules;
    var last := rules[|rules| - 1];
    assert Stems(last, FromAction(action));
    if HasBlock(ts) {
      var ms := ts[1].elems[own..];
      assert own == 0 ==> ms == ts[1].elems;
      MatchesStem(ms, scope);
      StemOneMore(Matches(ms, false, false, scope).rules, FromMatches(Segments(ms, scope.lang), scope), last,
        FromAction(action));
    } else {
      NothingStems();
      StemOneMore([], [], last, FromAction(action));
      assert [] + [last] == rules;
    }
  }

  lemma NothingStems()
    ensures AllStem([], [])
  {
  }

  /**
   * Entry by entry, a table that renders is what is written: every match keyword gives one match, which carries `not`
   * and `or` exactly when they stand before it, and every action follows its own matches, through any nesting of
   * includes.
   */
  lemma {:induction false} ActionsStem(ts: seq<Elem>, macros: Macros, scope: Scope, stack: nat)
    requires Actions(ts, macros, scope, stack).err.None?
    ensures AllStem(Actions(ts, macros, scope, stack).rules, Origins(ts, macros, scope, stack))
    decreases stack, |ts|
  {
    hide Clause, Resolve, AllStem, ActionOf, ClauseOrigins;
    NothingStems();
    if ts != [] {
      match ActionOf(ts[0], scope.lang)
      case NoAction => ActionsStem(ts[1..], macros, scope, stack);
      case Action(Include) =>
        var call := Resolve(ts[1], macros).value;
        var inner := scope.(params := call.params);
        ActionsStem(call.macro.rules, macros, inner, stack - 1);
        ActionsStem(ts[2..], macros, scope, stack);
        StemTogether(
          Actions(call.macro.rules, macros, inner, stack - 1).rules,
            Origins(call.macro.rules, macros, inner, stack - 1),
          Actions(ts[2..], macros, scope, stack).rules, Origins(ts[2..], macros, scope, stack));
      case Action(action) =>
        ClauseStems(ts, action, scope);
        ActionsStem(ts[Used(ts)..], macros, scope, stack);
        StemTogether(
          Clause(ts, action, scope).rules, ClauseOrigins(ts, action, scope),
          Actions(ts[Used(ts)..], macros, scope, stack).rules, Origins(ts[Used(ts)..], macros, scope, stack));
    }
  }

  // ---------------------------------------------------------------------
  // Include graphs and the call stack
  // ---------------------------------------------------------------------

  /** The macros a rule tree calls directly. */
  function Calls(ts: seq<Elem>, lang: Language): set<string>
    decreases |ts|
  {
    if ts == [] then {}
    else
      match ActionOf(ts[0], lang)
      case NoAction => Calls(ts[1..], lang)
      case UnknownAction => {}
      case Action(Include) =>
        if |ts| < 2 || ts[1].Block? then {} else {CallName(ts[1].text)} + Calls(ts[2..], lang)
      case Action(_) => Calls(ts[Used(ts)..], lang)
  }

  /** Every macro of the set that exists has a rank below `bound`. */
  predicate Below(names: set<string>, macros: Macros, rank: map<string, nat>, bound: nat) {
    forall m | m in names && m in macros :: m in rank && rank[m] < bound
  }

  /** A rank that falls along every directive: the include graph has no cycle. */
  predicate Ranked(macros: Macros, rank: map<string, nat>, lang: Language) {
    forall m | m in macros :: m in rank && Below(Calls(macros[m].rules, lang), macros, rank, rank[m])
  }

  predicate Overflows(out: Output) {
    out.err.Some? && out.err.value.what.StackOverflow?
  }

  lemma ClauseFitsTheStack(ts: seq<Elem>, action: ActionWord, scope: Scope)
    requires ts != [] && !action.Include?
    ensures !Overflows(Clause(ts, action, scope))
  {
    hide Matches;
    if HasBlock(ts) {
      var ms := ts[1].elems;
      MatchesFitTheStack(ms, false, false, scope);
      MatchesFitTheStack(ms[1..], false, false, scope);
      if |ms| >= 2 {
        MatchesFitTheStack(ms[2..], false, false, scope);
      }
    }
  }

  /** On an acyclic include graph rendering ends within the rank, and any stack beyond it gives the same result. */
  lemma {:induction false} RankedTerminates(ts: seq<Elem>, macros: Macros, scope: Scope, rank: map<string, nat>,
      stack: nat, more: nat)
    requires Ranked(macros, rank, scope.lang) && Below(Calls(ts, scope.lang), macros, rank, stack)
    ensures !Overflows(Actions(ts, macros, scope, stack))
    ensures Actions(ts, macros, scope, stack) == Actions(ts, macros, scope, stack + more)
    decreases stack, |ts|
  {
    hide Clause, Prepend, Ranked, CallName, CallActuals;
    if ts != [] {
      match ActionOf(ts[0], scope.lang)
      case NoAction => RankedTerminates(ts[1..], macros, scope, rank, stack, more);
      case UnknownAction =>
      case Action(Include) =>
        if |ts| >= 2 && Resolve(ts[1], macros).Ok? {
          var name := CallName(ts[1].text);
          assert name in Calls(ts, scope.lang);
          var call := Resolve(ts[1], macros).value;
          var inner := scope.(params := call.params);
          RankOf(macros, rank, scope.lang, name, stack);
          assert call.macro == macros[name];
          RankedTerminates(call.macro.rules, macros, inner, rank, stack - 1, more);
          assert Calls(ts[2..], scope.lang) <= Calls(ts, scope.lang);
          RankedTerminates(ts[2..], macros, scope, rank, stack, more);
          ThenFits(Actions(call.macro.rules, macros, inner, stack - 1), Actions(ts[2..], macros, scope, stack));
        }
      case Action(action) =>
        RankedTerminates(ts[Used(ts)..], macros, scope, rank, stack, more);
        ClauseFitsTheStack(ts, action, scope);
        ThenFits(Clause(ts, action, scope), Actions(ts[Used(ts)..], macros, scope, stack));
    }
  }

  lemma ThenFits(out: Output, next: Output)
    requires !Overflows(out) && !Overflows(next)
    ensures !Overflows(Then(out, next))
  {
  }

  lemma RankOf(macros: Macros, rank: map<string, nat>, lang: Language, name: string, stack: nat)
    requires Ranked(macros, rank, lang) && name in macros && name in rank && rank[name] < stack
    ensures Below(Calls(macros[name].rules, lang), macros, rank, stack - 1)
  {
    hide Calls;
  }

  /** An include of itself overflows any stack. */
  lemma {:induction false} SelfIncludeOverflows(directive: Elem, name: Elem, macros: Macros, scope: Scope, stack: nat)
    requires ActionOf(directive, scope.lang) == Action(Include) && name.Tok? && CallName(name.text) in macros
    requires macros[CallName(name.text)] == Macro(map[], [directive, name])
    ensures Actions([directive, name], macros, scope, stack) == Stop(OVERFLOW)
    decreases stack
  {
    hide CallName, CallActuals, ActionOf;
    var ts := [directive, name];
    var call := Call(macros[CallName(name.text)], map[]);
    assert Bind(call.macro, CallActuals(name.text)) == map[];
    assert Resolve(name, macros) == Ok(call);
    if stack > 0 {
      SelfIncludeOverflows(directive, name, macros, scope.(params := map[]), stack - 1);
    }
  }

  // ---------------------------------------------------------------------
  // Macro expansion is substitution
  // ---------------------------------------------------------------------

  function SubstituteBlock(action: ActionWord, ms: seq<Elem>, scope: Scope): (r: seq<Elem>)
    ensures |r| == |ms|
  {
    var own := OwnArguments(action);
    if own > |ms| then ms else ms[..own] + Substitute(ms[own..], scope)
  }

  /** The macro body with its variables replaced by the actual parameters. */
  function Expand(ts: seq<Elem>, scope: Scope): (r: seq<Elem>)
    ensures |r| == |ts|
    decreases |ts|
  {
    if ts == [] then []
    else
      match ActionOf(ts[0], scope.lang)
      case UnknownAction => ts
      case NoAction => [ts[0]] + Expand(ts[1..], scope)
      case Action(Include) => if |ts| < 2 then ts else [ts[0], ts[1]] + Expand(ts[2..], scope)
      case Action(action) =>
        if HasBlock(ts) then [ts[0], Block(SubstituteBlock(action, ts[1].elems, scope))] + Expand(ts[2..], scope)
        else [ts[0]] + Expand(ts[1..], scope)
  }

  lemma ClauseSubstitute(t: Elem, ms: seq<Elem>, action: ActionWord, scope: Scope, tail: seq<Elem>, tail': seq<Elem>)
    requires !action.Include? && ms != [] && PlainParams(scope.params, scope.lang)
    ensures Clause([t, Block(SubstituteBlock(action, ms, scope))] + tail', action, Closed(scope)) ==
            Clause([t, Block(ms)] + tail, action, scope)
  {
    hide Matches, Substitute, PlainParams;
    var own := OwnArguments(action);
    var ms' := SubstituteBlock(action, ms, scope);
    if own <= |ms| {
      MatchesSubstitute(ms[own..], false, false, scope);
      assert ms'[own..] == Substitute(ms[own..], scope);
      assert own > 0 ==> ms'[0] == ms[0];
      assert own > 1 ==> ms'[1] == ms[1];
      if own == 0 {
        assert ms'[0..] == ms' && ms[0..] == ms;
      }
    }
  }

  /** Without a block in second place the parameters play no role. */
  lemma ClauseNoBlock(ts: seq<Elem>, ts': seq<Elem>, action: ActionWord, scope: Scope)
    requires ts != [] && ts' != [] && ts[0] == ts'[0] && !action.Include? && !HasBlock(ts) && !HasBlock(ts')
    ensures Clause(ts', action, Closed(scope)) == Clause(ts, action, scope)
  {
  }

  /** The head of an expanded tree has a block behind it exactly when the tree has. */
  lemma ExpandHead(ts: seq<Elem>, scope: Scope)
    requires ts != []
    ensures Expand(ts, scope)[0] == ts[0]
  {
  }

  lemma ExpandKeepsBlocks(ts: seq<Elem>, scope: Scope)
    requires ts != []
    ensures Expand(ts, scope)[0] == ts[0]
    ensures ActionOf(ts[0], scope.lang).Action? ==> HasBlock(Expand(ts, scope)) == HasBlock(ts)
  {
    var r := Expand(ts, scope);
    match ActionOf(ts[0], scope.lang)
    case NoAction =>
    case UnknownAction =>
    case Action(Include) =>
    case Action(action) =>
      if !HasBlock(ts) && |ts| > 1 {
        ExpandHead(ts[1..], scope);
      }
  }

  /** Rendering a body with parameters is rendering its expansion without parameters. */
  lemma {:induction false} ExpandCorrect(ts: seq<Elem>, macros: Macros, scope: Scope, stack: nat)
    requires PlainParams(scope.params, scope.lang)
    ensures Actions(Expand(ts, scope), macros, Closed(scope), stack) == Actions(ts, macros, scope, stack)
    decreases |ts|
  {
    hide Clause, PlainParams, Resolve, SubstituteBlock;
    if ts != [] {
      var r := Expand(ts, scope);
      ExpandKeepsBlocks(ts, scope);
      match ActionOf(ts[0], scope.lang)
      case NoAction =>
        assert r[1..] == Expand(ts[1..], scope);
        ExpandCorrect(ts[1..], macros, scope, stack);
      case UnknownAction =>
      case Action(Include) =>
        if |ts| >= 2 {
          assert r[1] == ts[1] && r[2..] == Expand(ts[2..], scope);
          ExpandCorrect(ts[2..], macros, scope, stack);
        }
      case Action(action) =>
        ExpandCorrect(ts[Used(ts)..], macros, scope, stack);
        if HasBlock(ts) {
          assert r[2..] == Expand(ts[2..], scope);
          assert ts == [ts[0], Block(ts[1].elems)] + ts[2..];
          ClauseSubstitute(ts[0], ts[1].elems, action, scope, ts[2..], r[2..]);
        } else {
          assert r[1..] == Expand(ts[1..], scope);
          ClauseNoBlock(ts, r, action, scope);
        }
    }
  }

  /** `include m(a1, .., an)` renders exactly the rules of the body with each `$param` replaced by its actual. */
  lemma IncludeIsSubstitution(directive: Elem, name: Elem, rest: seq<Elem>, macros: Macros, scope: Scope, stack: nat)
    requires ActionOf(directive, scope.lang) == Action(Include) && Resolve(name, macros).Ok? && stack > 0
    requires PlainParams(Resolve(name, macros).value.params, scope.lang)
    ensures var call := Resolve(name, macros).value;
      var body := Expand(call.macro.rules, scope.(params := call.params));
      Actions([directive, name] + rest, macros, scope, stack) ==
      Then(Actions(body, macros, Closed(scope), stack - 1), Actions(rest, macros, scope, stack))
  {
    hide Resolve;
    var call := Resolve(name, macros).value;
    ExpandCorrect(call.macro.rules, macros, scope.(params := call.params), stack - 1);
    var ts := [directive, name] + rest;
    assert ts[2..] == rest;
  }

  /** A body that tells a value that is not plain from its substitution. */
  function Probe(action: Elem, keyword: Elem, text: string): seq<Elem> {
    [action, Block([keyword, Tok(text, 0, 0)])]
  }

  /** The probe renders exactly when its one argument is accepted. */
  lemma ProbeRenders(action: Elem, keyword: Elem, text: string, macros: Macros, scope: Scope, stack: nat)
    requires ActionOf(action, scope.lang) == Action(Plain(Drop)) &&
      Classify(keyword, scope.lang) == Known(Keyword(RandomKind))
    ensures Actions(Probe(action, keyword, text), macros, scope, stack).err.None? <==>
            Argument(keyword, Tok(text, 0, 0), scope).Ok?
  {
    hide ActionOf, Classify;
    var arg := Tok(text, 0, 0);
    var ms, ts := [keyword, arg], Probe(action, keyword, text);
    assert ts[2..] == [] && ms[1..] == [arg] && ms[2..] == [] && [arg][1..] == [];
    assert Arguments(arg, [], 0, scope) == Ok([]);
    assert Arguments(keyword, [arg], 1, scope).Ok? == Argument(keyword, arg, scope).Ok?;
    assert Matches(ms, false, false, scope).err.None? == Argument(keyword, arg, scope).Ok?;
  }

  lemma ProbeExpands(action: Elem, keyword: Elem, p: string, scope: Scope)
    requires ActionOf(action, scope.lang) == Action(Plain(Drop)) &&
      Classify(keyword, scope.lang) == Known(Keyword(RandomKind))
    requires p in scope.params && IsVariable(p) && p !in scope.lang.reserved
    ensures Expand(Probe(action, keyword, p), scope) == Probe(action, keyword, scope.params[p])
  {
    hide ActionOf, Classify;
    var arg, ts := Tok(p, 0, 0), Probe(action, keyword, p);
    var ms := [keyword, arg];
    assert ms[1..] == [arg] && ms[2..] == [] && ms[0..] == ms && ms[..0] == [] && ts[2..] == [];
    assert SubstituteArgs([arg], 1, scope) == [Tok(scope.params[p], 0, 0)];
    var ms' := [keyword, Tok(scope.params[p], 0, 0)];
    assert Substitute(ms, scope) == ms';
    assert SubstituteBlock(Plain(Drop), ms, scope) == ms';
    assert Expand(ts, scope) == [action, Block(ms')] + Expand(ts[2..], scope);
  }

  lemma ProbeFails(action: Elem, keyword: Elem, p: string, macros: Macros, scope: Scope, stack: nat)
    requires ActionOf(action, scope.lang) == Action(Plain(Drop)) &&
      Classify(keyword, scope.lang) == Known(Keyword(RandomKind))
    requires p in scope.params && IsVariable(p) && p !in scope.lang.reserved && !PlainValue(scope.params[p], scope.lang)
    ensures Actions(Probe(action, keyword, p), macros, scope, stack).err.None?
    ensures Actions(Expand(Probe(action, keyword, p), scope), macros, Closed(scope), stack).err.Some?
  {
    hide Actions, ActionOf, Classify, Expand;
    ProbeRenders(action, keyword, p, macros, scope, stack);
    ProbeExpands(action, keyword, p, scope);
    assert Argument(keyword, Tok(scope.params[p], 0, 0), Closed(scope)).Err?;
    ProbeRenders(action, keyword, scope.params[p], macros, Closed(scope), stack);
  }

  /** Expansion is substitution for every body exactly when the actual parameters are plain values. */
  lemma ExpansionExact(action: Elem, keyword: Elem, macros: Macros, scope: Scope, stack: nat)
    requires ActionOf(action, scope.lang) == Action(Plain(Drop)) &&
      Classify(keyword, scope.lang) == Known(Keyword(RandomKind))
    ensures PlainParams(scope.params, scope.lang) <==>
      forall ts :: Actions(Expand(ts, scope), macros, Closed(scope), stack) == Actions(ts, macros, scope, stack)
  {
    if PlainParams(scope.params, scope.lang) {
      forall ts ensures Actions(Expand(ts, scope), macros, Closed(scope), stack) == Actions(ts, macros, scope, stack) {
        ExpandCorrect(ts, macros, scope, stack);
      }
    } else {
      var p :| p in scope.params && IsVariable(p) && p !in scope.lang.reserved &&
        !PlainValue(scope.params[p], scope.lang);
      ProbeFails(action, keyword, p, macros, scope, stack);
    }
  }
}
