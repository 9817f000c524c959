/**
 * How much call stack rendering needs. The nested call of an include is fixed by its text, so there are only as many
 * different calls as there are include texts: a stack that deep decides, and what exhausts it runs in a circle.
 */
module RuleStack {
  import opened Basics
  import opened RuleText
  import opened RuleScanner
  import opened RuleMatches
  import opened RuleActions

  // ---------------------------------------------------------------------
  // Include sites
  // ---------------------------------------------------------------------

  /** The texts of the includes that stand in a rule tree. */
  function Sites(ts: seq<Elem>, lang: Language): set<string>
    decreases |ts|
  {
    if ts == [] then {}
    else
      match ActionOf(ts[0], lang)
      case NoAction => Sites(ts[1..], lang)
      case UnknownAction => {}
      case Action(Include) => if |ts| < 2 || ts[1].Block? then {} else {ts[1].text} + Sites(ts[2..], lang)
      case Action(_) => Sites(ts[Used(ts)..], lang)
  }

  /** The set holds the sites of every macro body. */
  predicate Covers(sites: set<string>, macros: Macros, lang: Language) {
    forall m | m in macros :: Sites(macros[m].rules, lang) <= sites
  }

  /** All sites of a rule tree and of the macros. */
  function AllSites(ts: seq<Elem>, macros: Macros, lang: Language): (sites: set<string>)
    ensures Covers(sites, macros, lang) && Sites(ts, lang) <= sites
  {
    Sites(ts, lang) + set m, t | m in macros && t in Sites(macros[m].rules, lang) :: t
  }

  function CallAt(text: string, macros: Macros): Result<Call> {
    Resolve(Tok(text, 0, 0), macros)
  }

  lemma ResolveByText(e: Elem, macros: Macros)
    ensures Resolve(e, macros).Ok? ==> e.Tok? && CallAt(e.text, macros) == Resolve(e, macros)
    ensures e.Tok? && CallAt(e.text, macros).Ok? ==> Resolve(e, macros).Ok?
  {
    hide CallName, CallActuals;
  }

  lemma CalledIsMacro(text: string, macros: Macros)
    requires CallAt(text, macros).Ok?
    ensures CallName(text) in macros && CallAt(text, macros).value.macro == macros[CallName(text)]
  {
    hide CallName, CallActuals;
  }

  function Body(text: string, macros: Macros, scope: Scope, stack: nat): Output
    requires CallAt(text, macros).Ok?
  {
    var call := CallAt(text, macros).value;
    Actions(call.macro.rules, macros, scope.(params := call.params), stack)
  }

  /** An include of this text overflows with this much stack left. */
  predicate Exhausts(text: string, macros: Macros, scope: Scope, stack: nat) {
    CallAt(text, macros).Ok? && (stack == 0 || Overflows(Body(text, macros, scope, stack - 1)))
  }

  /** What an include in front of `ts` does. */
  lemma IncludeStep(ts: seq<Elem>, macros: Macros, scope: Scope, stack: nat)
    requires ts != [] && ActionOf(ts[0], scope.lang) == Action(Include) && |ts| >= 2 && Resolve(ts[1], macros).Ok?
    ensures ts[1].Tok? && CallAt(ts[1].text, macros).Ok?
    ensures Sites(ts, scope.lang) == {ts[1].text} + Sites(ts[2..], scope.lang)
    ensures Actions(ts, macros, scope, stack) ==
      if stack == 0 then Stop(OVERFLOW)
      else Then(Body(ts[1].text, macros, scope, stack - 1), Actions(ts[2..], macros, scope, stack))
  {
    hide Resolve, ActionOf;
    ResolveByText(ts[1], macros);
  }

  lemma ThenOverflows(out: Output, next: Output)
    ensures Overflows(Then(out, next)) <==> Overflows(out) || (out.err.None? && Overflows(next))
  {
  }

  /** Rendering exhausts every stack. */
  ghost predicate NeverEnds(ts: seq<Elem>, macros: Macros, scope: Scope) {
    forall stack: nat :: Overflows(Actions(ts, macros, scope, stack))
  }

  // ---------------------------------------------------------------------
  // A deeper stack
  // ---------------------------------------------------------------------

  /** A result other than an overflow does not change with a deeper stack. */
  lemma {:induction false} DeeperIsSame(ts: seq<Elem>, macros: Macros, scope: Scope, stack: nat, more: nat)
    requires !Overflows(Actions(ts, macros, scope, stack))
    ensures Actions(ts, macros, scope, stack + more) == Actions(ts, macros, scope, stack)
    decreases stack, |ts|
  {
    hide Clause, Resolve, ActionOf;
    if ts != [] {
      match ActionOf(ts[0], scope.lang)
      case NoAction => DeeperIsSame(ts[1..], macros, scope, stack, more);
      case UnknownAction =>
      case Action(Include) =>
        if |ts| >= 2 && Resolve(ts[1], macros).Ok? && stack > 0 {
          var call := Resolve(ts[1], macros).value;
          var inner := scope.(params := call.params);
          var body, rest := Actions(call.macro.rules, macros, inner, stack - 1), Actions(ts[2..], macros, scope, stack);
          ThenOverflows(body, rest);
          DeeperIsSame(call.macro.rules, macros, inner, stack - 1, more);
          if body.err.None? {
            DeeperIsSame(ts[2..], macros, scope, stack, more);
          }
        }
      case Action(action) =>
        ThenOverflows(Clause(ts, action, scope), Actions(ts[Used(ts)..], macros, scope, stack));
        if Clause(ts, action, scope).err.None? {
          DeeperIsSame(ts[Used(ts)..], macros, scope, stack, more);
        }
    }
  }

  lemma SameResult(text: string, macros: Macros, scope: Scope, m: nat, n: nat)
    requires CallAt(text, macros).Ok?
    requires !Overflows(Body(text, macros, scope, m)) && !Overflows(Body(text, macros, scope, n))
    ensures Body(text, macros, scope, m) == Body(text, macros, scope, n)
  {
    hide CallAt, Actions, Overflows;
    var call := CallAt(text, macros).value;
    var inner := scope.(params := call.params);
    if m <= n {
      DeeperIsSame(call.macro.rules, macros, inner, m, n - m);
    } else {
      DeeperIsSame(call.macro.rules, macros, inner, n, m - n);
    }
  }

  lemma ExhaustsLess(text: string, macros: Macros, scope: Scope, stack: nat)
    requires Exhausts(text, macros, scope, stack + 1)
    ensures Exhausts(text, macros, scope, stack)
  {
    hide CallAt, Actions, Overflows;
    if stack > 0 && !Overflows(Body(text, macros, scope, stack - 1)) {
      var call := CallAt(text, macros).value;
      DeeperIsSame(call.macro.rules, macros, scope.(params := call.params), stack - 1, 1);
    }
  }

  /** Whether a tree overflows depends only on which of its sites do. */
  lemma {:induction false} OverflowBySites(ts: seq<Elem>, macros: Macros, scope: Scope, m: nat, n: nat)
    requires forall t | t in Sites(ts, scope.lang) :: Exhausts(t, macros, scope, m) == Exhausts(t, macros, scope, n)
    ensures Overflows(Actions(ts, macros, scope, m)) == Overflows(Actions(ts, macros, scope, n))
    decreases |ts|
  {
    hide Clause, Resolve, ActionOf, CallAt, Body, Overflows;
    if ts != [] {
      match ActionOf(ts[0], scope.lang)
      case NoAction => OverflowBySites(ts[1..], macros, scope, m, n);
      case UnknownAction =>
      case Action(Include) =>
        if |ts| >= 2 && Resolve(ts[1], macros).Ok? {
          IncludeStep(ts, macros, scope, m);
          IncludeStep(ts, macros, scope, n);
          OverflowIsOverflow();
          var t := ts[1].text;
          assert t in Sites(ts, scope.lang);
          OverflowBySites(ts[2..], macros, scope, m, n);
          if m > 0 {
            ThenOverflows(Body(t, macros, scope, m - 1), Actions(ts[2..], macros, scope, m));
          }
          if n > 0 {
            ThenOverflows(Body(t, macros, scope, n - 1), Actions(ts[2..], macros, scope, n));
          }
          if m > 0 && n > 0 && !Exhausts(t, macros, scope, m) {
            SameResult(t, macros, scope, m - 1, n - 1);
          }
        } else {
          ResolveIsNoOverflow(ts, macros, scope, m, n);
        }
      case Action(action) =>
        ThenOverflows(Clause(ts, action, scope), Actions(ts[Used(ts)..], macros, scope, m));
        ThenOverflows(Clause(ts, action, scope), Actions(ts[Used(ts)..], macros, scope, n));
        OverflowBySites(ts[Used(ts)..], macros, scope, m, n);
    }
  }

  lemma OverflowIsOverflow()
    ensures Overflows(Stop(OVERFLOW))
  {
  }

  lemma ResolveIsNoOverflow(ts: seq<Elem>, macros: Macros, scope: Scope, m: nat, n: nat)
    requires ts != [] && ActionOf(ts[0], scope.lang) == Action(Include) && (|ts| < 2 || Resolve(ts[1], macros).Err?)
    ensures Actions(ts, macros, scope, m) == Actions(ts, macros, scope, n)
  {
    hide Resolve, ActionOf;
  }

  // ---------------------------------------------------------------------
  // The number of sites is stack enough
  // ---------------------------------------------------------------------

  function Exhausting(sites: set<string>, macros: Macros, scope: Scope, stack: nat): set<string> {
    set t | t in sites && Exhausts(t, macros, scope, stack)
  }

  lemma ExhaustingShrinks(sites: set<string>, macros: Macros, scope: Scope, stack: nat)
    ensures Exhausting(sites, macros, scope, stack + 1) <= Exhausting(sites, macros, scope, stack)
  {
    hide Exhausts;
    forall t | t in Exhausting(sites, macros, scope, stack + 1) ensures t in Exhausting(sites, macros, scope, stack) {
      ExhaustsLess(t, macros, scope, stack);
    }
  }

  lemma ExhaustsAgain(t: string, sites: set<string>, macros: Macros, scope: Scope, stack: nat)
    requires Covers(sites, macros, scope.lang) && CallAt(t, macros).Ok?
    requires Exhausting(sites, macros, scope, stack) == Exhausting(sites, macros, scope, stack + 1)
    ensures Exhausts(t, macros, scope, stack + 1) == Exhausts(t, macros, scope, stack + 2)
  {
    hide Actions, Overflows, CallAt, Sites;
    var call := CallAt(t, macros).value;
    var inner := scope.(params := call.params);
    CalledIsMacro(t, macros);
    forall u | u in Sites(call.macro.rules, scope.lang)
      ensures Exhausts(u, macros, inner, stack) == Exhausts(u, macros, inner, stack + 1)
    {
      assert u in sites;
      assert u in Exhausting(sites, macros, scope, stack) <==> u in Exhausting(sites, macros, scope, stack + 1);
    }
    OverflowBySites(call.macro.rules, macros, inner, stack, stack + 1);
  }

  /** Once no site drops out, none ever does. */
  lemma StaysSame(sites: set<string>, macros: Macros, scope: Scope, stack: nat)
    requires Covers(sites, macros, scope.lang)
    requires Exhausting(sites, macros, scope, stack) == Exhausting(sites, macros, scope, stack + 1)
    ensures Exhausting(sites, macros, scope, stack + 1) == Exhausting(sites, macros, scope, stack + 2)
  {
    hide Body, Overflows, CallAt, Covers;
    forall t | t in sites ensures Exhausts(t, macros, scope, stack + 1) == Exhausts(t, macros, scope, stack + 2) {
      if CallAt(t, macros).Ok? {
        ExhaustsAgain(t, sites, macros, scope, stack);
      }
    }
  }

  lemma {:induction false} StaysSameFrom(sites: set<string>, macros: Macros, scope: Scope, stack: nat, more: nat)
    requires Covers(sites, macros, scope.lang)
    requires Exhausting(sites, macros, scope, stack) == Exhausting(sites, macros, scope, stack + 1)
    ensures Exhausting(sites, macros, scope, stack + more) == Exhausting(sites, macros, scope, stack)
    ensures Exhausting(sites, macros, scope, stack + more + 1) == Exhausting(sites, macros, scope, stack)
    decreases more
  {
    hide Exhausting, Covers;
    if more > 0 {
      StaysSameFrom(sites, macros, scope, stack, more - 1);
      StaysSame(sites, macros, scope, stack + more - 1);
    }
  }

  lemma SmallerSet(a: set<string>, b: set<string>)
    requires a <= b
    ensures |a| <= |b| && (a != b ==> |a| < |b|)
  {
    assert b == a + (b - a);
    assert |b| == |a| + |b - a|;
  }

  /** Until then at least one site drops out at every level. */
  lemma {:induction false} DropsOut(sites: set<string>, macros: Macros, scope: Scope, stack: nat)
    requires Covers(sites, macros, scope.lang)
    requires Exhausting(sites, macros, scope, stack) != Exhausting(sites, macros, scope, stack + 1)
    ensures |Exhausting(sites, macros, scope, stack + 1)| + stack + 1 <= |sites|
  {
    hide Exhausts, Covers;
    ExhaustingShrinks(sites, macros, scope, stack);
    SmallerSet(Exhausting(sites, macros, scope, stack + 1), Exhausting(sites, macros, scope, stack));
    if stack == 0 {
      SmallerSet(Exhausting(sites, macros, scope, 0), sites);
    } else {
      if Exhausting(sites, macros, scope, stack - 1) == Exhausting(sites, macros, scope, stack) {
        StaysSame(sites, macros, scope, stack - 1);
      } else {
        DropsOut(sites, macros, scope, stack - 1);
      }
    }
  }

  lemma SettledAtSize(sites: set<string>, macros: Macros, scope: Scope, stack: nat)
    requires Covers(sites, macros, scope.lang) && stack >= |sites|
    ensures Exhausting(sites, macros, scope, stack) == Exhausting(sites, macros, scope, |sites|)
  {
    hide Exhausting, Covers;
    if Exhausting(sites, macros, scope, |sites|) != Exhausting(sites, macros, scope, |sites| + 1) {
      DropsOut(sites, macros, scope, |sites|);
    }
    StaysSameFrom(sites, macros, scope, |sites|, stack - |sites|);
  }

  lemma SettledSite(t: string, sites: set<string>, macros: Macros, scope: Scope, stack: nat)
    requires Covers(sites, macros, scope.lang) && stack >= |sites| && t in sites
    ensures Exhausts(t, macros, scope, stack) == Exhausts(t, macros, scope, |sites|)
  {
    hide Exhausts, Covers;
    SettledAtSize(sites, macros, scope, stack);
    assert t in Exhausting(sites, macros, scope, stack) <==> t in Exhausting(sites, macros, scope, |sites|);
  }

  /**
   * A stack as deep as there are sites decides: the result is an overflow at every depth from there on, or the same.
   */
  lemma StackEnough(ts: seq<Elem>, sites: set<string>, macros: Macros, scope: Scope, stack: nat)
    requires Covers(sites, macros, scope.lang) && Sites(ts, scope.lang) <= sites && stack >= |sites|
    ensures var out := Actions(ts, macros, scope, |sites|);
      if Overflows(out) then Overflows(Actions(ts, macros, scope, stack)) else Actions(ts, macros, scope, stack) == out
  {
    hide Actions, Exhausts, Covers, Sites, Overflows;
    forall t | t in Sites(ts, scope.lang)
      ensures Exhausts(t, macros, scope, |sites|) == Exhausts(t, macros, scope, stack)
    {
      SettledSite(t, sites, macros, scope, stack);
    }
    OverflowBySites(ts, macros, scope, |sites|, stack);
    if !Overflows(Actions(ts, macros, scope, |sites|)) {
      DeeperIsSame(ts, macros, scope, |sites|, stack - |sites|);
    }
  }

  /** Rendering exhausts every stack exactly when it exhausts one as deep as there are sites. */
  lemma OverflowDecided(ts: seq<Elem>, sites: set<string>, macros: Macros, scope: Scope)
    requires Covers(sites, macros, scope.lang) && Sites(ts, scope.lang) <= sites
    ensures NeverEnds(ts, macros, scope) <==> Overflows(Actions(ts, macros, scope, |sites|))
  {
    hide Actions, Covers, Sites, Overflows;
    if Overflows(Actions(ts, macros, scope, |sites|)) {
      forall stack: nat ensures Overflows(Actions(ts, macros, scope, stack)) {
        if stack >= |sites| {
          StackEnough(ts, sites, macros, scope, stack);
        } else if !Overflows(Actions(ts, macros, scope, stack)) {
          DeeperIsSame(ts, macros, scope, stack, |sites| - stack);
        }
      }
    }
  }

  // ---------------------------------------------------------------------
  // Circles
  // ---------------------------------------------------------------------

  /** The includes that are reached because everything before them renders, nested calls with a stack of `limit`. */
  function Tried(ts: seq<Elem>, macros: Macros, scope: Scope, limit: nat): set<string>
    decreases |ts|
  {
    if ts == [] then {}
    else
      match ActionOf(ts[0], scope.lang)
      case NoAction => Tried(ts[1..], macros, scope, limit)
      case UnknownAction => {}
      case Action(Include) =>
        if |ts| < 2 || Resolve(ts[1], macros).Err? then {}
        else
          var call := Resolve(ts[1], macros).value;
          {ts[1].text} +
          (if Actions(call.macro.rules, macros, scope.(params := call.params), limit).err.None?
           then Tried(ts[2..], macros, scope, limit) else {})
      case Action(action) =>
        if Clause(ts, action, scope).err.None? then Tried(ts[Used(ts)..], macros, scope, limit) else {}
  }

  /** The includes reached in the body that an include calls. */
  function TriedIn(text: string, macros: Macros, scope: Scope, limit: nat): set<string> {
    match CallAt(text, macros)
    case Err(_) => {}
    case Ok(call) => Tried(call.macro.rules, macros, scope.(params := call.params), limit)
  }

  /** The includes that stand in it. */
  function SitesIn(text: string, macros: Macros, lang: Language): set<string> {
    match CallAt(text, macros)
    case Err(_) => {}
    case Ok(call) => Sites(call.macro.rules, lang)
  }

  /** From one of the starting points from call to call, until one call comes again. */
  predicate Circle(p: seq<string>, start: set<string>, next: string -> set<string>) {
    && |p| >= 2 && p[0] in start && (forall i | 0 <= i < |p| - 1 :: p[i + 1] in next(p[i]))
    && p[|p| - 1] in p[..|p| - 1]
  }

  /** A circle of includes that are reached. */
  predicate TriedCircle(p: seq<string>, ts: seq<Elem>, macros: Macros, scope: Scope, limit: nat) {
    Circle(p, Tried(ts, macros, scope, limit), t => TriedIn(t, macros, scope, limit))
  }

  /** A circle of includes that stand in the texts. */
  predicate SiteCircle(p: seq<string>, ts: seq<Elem>, macros: Macros, lang: Language) {
    Circle(p, Sites(ts, lang), t => SitesIn(t, macros, lang))
  }

  lemma TriedStep(ts: seq<Elem>, macros: Macros, scope: Scope, limit: nat)
    requires ts != [] && ActionOf(ts[0], scope.lang) == Action(Include) && |ts| >= 2 && Resolve(ts[1], macros).Ok?
    ensures ts[1].Tok? && CallAt(ts[1].text, macros).Ok?
    ensures Tried(ts, macros, scope, limit) ==
      {ts[1].text} +
      if Body(ts[1].text, macros, scope, limit).err.None? then Tried(ts[2..], macros, scope, limit) else {}
  {
    hide Resolve, ActionOf, Actions;
    ResolveByText(ts[1], macros);
  }

  lemma {:induction false} TriedAreSites(ts: seq<Elem>, macros: Macros, scope: Scope, limit: nat)
    ensures Tried(ts, macros, scope, limit) <= Sites(ts, scope.lang)
    ensures forall t | t in Tried(ts, macros, scope, limit) :: CallAt(t, macros).Ok?
    decreases |ts|
  {
    hide Clause, Resolve, ActionOf, CallAt, Actions;
    if ts != [] {
      match ActionOf(ts[0], scope.lang)
      case NoAction => TriedAreSites(ts[1..], macros, scope, limit);
      case UnknownAction =>
      case Action(Include) =>
        if |ts| >= 2 && Resolve(ts[1], macros).Ok? {
          ResolveByText(ts[1], macros);
          TriedAreSites(ts[2..], macros, scope, limit);
        }
      case Action(action) => TriedAreSites(ts[Used(ts)..], macros, scope, limit);
    }
  }

  /** An include that is reached and exhausts the stack makes the tree exhaust it. */
  lemma {:induction false} TriedBlocks(t: string, ts: seq<Elem>, macros: Macros, scope: Scope, limit: nat, stack: nat)
    requires t in Tried(ts, macros, scope, limit) && Exhausts(t, macros, scope, stack)
    ensures Overflows(Actions(ts, macros, scope, stack))
    decreases |ts|
  {
    hide Clause, Resolve, ActionOf, CallAt, Body;
    match ActionOf(ts[0], scope.lang)
    case NoAction => TriedBlocks(t, ts[1..], macros, scope, limit, stack);
    case Action(Include) =>
      IncludeStep(ts, macros, scope, stack);
      TriedStep(ts, macros, scope, limit);
      if stack > 0 {
        var body := Body(ts[1].text, macros, scope, stack - 1);
        ThenOverflows(body, Actions(ts[2..], macros, scope, stack));
        if !Overflows(body) {
          SameResult(ts[1].text, macros, scope, stack - 1, limit);
          TriedBlocks(t, ts[2..], macros, scope, limit, stack);
        }
      }
    case Action(action) =>
      TriedBlocks(t, ts[Used(ts)..], macros, scope, limit, stack);
      ThenOverflows(Clause(ts, action, scope), Actions(ts[Used(ts)..], macros, scope, stack));
  }

  /** A tree that exhausts the stack reaches an include that does. */
  lemma {:induction false} SomeSiteBlocks(ts: seq<Elem>, macros: Macros, scope: Scope, limit: nat) returns (t: string)
    requires Overflows(Actions(ts, macros, scope, limit + 1))
    ensures t in Tried(ts, macros, scope, limit) && Exhausts(t, macros, scope, limit + 1)
    decreases |ts|
  {
    hide Clause, Resolve, ActionOf, CallAt, Body;
    match ActionOf(ts[0], scope.lang)
    case NoAction => t := SomeSiteBlocks(ts[1..], macros, scope, limit);
    case UnknownAction => assert false;
    case Action(Include) =>
      if |ts| < 2 || Resolve(ts[1], macros).Err? {
        ResolveErrors(ts, macros);
        assert false;
      }
      IncludeStep(ts, macros, scope, limit + 1);
      TriedStep(ts, macros, scope, limit);
      var body := Body(ts[1].text, macros, scope, limit);
      ThenOverflows(body, Actions(ts[2..], macros, scope, limit + 1));
      if Overflows(body) {
        t := ts[1].text;
      } else {
        t := SomeSiteBlocks(ts[2..], macros, scope, limit);
      }
    case Action(action) =>
      ClauseFitsTheStack(ts, action, scope);
      ThenOverflows(Clause(ts, action, scope), Actions(ts[Used(ts)..], macros, scope, limit + 1));
      t := SomeSiteBlocks(ts[Used(ts)..], macros, scope, limit);
  }

  lemma ResolveErrors(ts: seq<Elem>, macros: Macros)
    ensures |ts| >= 2 && Resolve(ts[1], macros).Err? ==> !Resolve(ts[1], macros).error.what.StackOverflow?
  {
  }

  /** In a circle every call exhausts every stack. */
  lemma {:induction false} CircleExhausts(p: seq<string>, i: nat, start: set<string>, next: string -> set<string>,
                                          macros: Macros, scope: Scope, stack: nat)
    requires Circle(p, start, next) && i < |p| && forall t | t in p :: CallAt(t, macros).Ok?
    requires forall t, u, n: nat | u in next(t) && Exhausts(u, macros, scope, n) && CallAt(t, macros).Ok? ::
               Exhausts(t, macros, scope, n + 1)
    ensures Exhausts(p[i], macros, scope, stack)
    decreases stack, if i == |p| - 1 then 1 else 0
  {
    hide Body, CallAt, Overflows;
    assert p[i] in p;
    if i == |p| - 1 {
      var j :| 0 <= j < |p| - 1 && p[..|p| - 1][j] == p[i];
      CircleExhausts(p, j, start, next, macros, scope, stack);
    } else if stack > 0 {
      CircleExhausts(p, i + 1, start, next, macros, scope, stack - 1);
      assert p[i + 1] in next(p[i]);
    }
  }

  /** From call to call as far as one likes, all of them exhausting the stack. */
  lemma {:induction false} LongWalk(ts: seq<Elem>, sites: set<string>, macros: Macros, scope: Scope, n: nat)
      returns (p: seq<string>)
    requires Covers(sites, macros, scope.lang) && Sites(ts, scope.lang) <= sites && n > 0
    requires Overflows(Actions(ts, macros, scope, |sites| + 1))
    ensures |p| == n && p[0] in Tried(ts, macros, scope, |sites|) && forall t | t in p :: t in sites
    ensures forall i | 0 <= i < n - 1 :: p[i + 1] in TriedIn(p[i], macros, scope, |sites|)
    decreases n
  {
    hide Actions, Overflows, Tried, Sites;
    var t := SomeSiteBlocks(ts, macros, scope, |sites|);
    TriedAreSites(ts, macros, scope, |sites|);
    p := [t];
    if n > 1 {
      SettledSite(t, sites, macros, scope, |sites| + 1);
      SettledSite(t, sites, macros, scope, |sites| + 2);
      var call := CallAt(t, macros).value;
      var inner := scope.(params := call.params);
      CalledIsMacro(t, macros);
      var rest := LongWalk(call.macro.rules, sites, macros, inner, n - 1);
      p := [t] + rest;
      forall i | 0 <= i < n - 1 ensures p[i + 1] in TriedIn(p[i], macros, scope, |sites|) {
        if i > 0 {
          assert p[i + 1] == rest[i] && p[i] == rest[i - 1];
          assert TriedIn(p[i], macros, scope, |sites|) == TriedIn(p[i], macros, inner, |sites|);
        }
      }
    }
  }

  /** More entries than there are values: some value comes twice. */
  lemma {:induction false} Pigeonhole(p: seq<string>, s: set<string>) returns (j: nat)
    requires (forall t | t in p :: t in s) && |p| > |s|
    ensures 1 <= j < |p| && p[j] in p[..j]
    decreases |p|
  {
    var n := |p| - 1;
    if p[n] in p[..n] {
      j := n;
    } else {
      assert p[n] in p;
      Without(s, p[n]);
      forall t | t in p[..n] ensures t in s - {p[n]} {
      }
      j := Pigeonhole(p[..n], s - {p[n]});
      assert p[..n][..j] == p[..j];
    }
  }

  lemma CircleIn(ts: seq<Elem>, sites: set<string>, macros: Macros, scope: Scope) returns (p: seq<string>)
    requires Covers(sites, macros, scope.lang) && Sites(ts, scope.lang) <= sites
    requires Overflows(Actions(ts, macros, scope, |sites| + 1))
    ensures TriedCircle(p, ts, macros, scope, |sites|)
  {
    hide Actions, Overflows, Tried, Sites, Covers, TriedIn;
    var walk := LongWalk(ts, sites, macros, scope, |sites| + 1);
    var j := Pigeonhole(walk, sites);
    p := walk[..j + 1];
    assert p[..|p| - 1] == walk[..j];
  }

  lemma TriedInBlocks(t: string, u: string, macros: Macros, scope: Scope, limit: nat, stack: nat)
    requires u in TriedIn(t, macros, scope, limit) && Exhausts(u, macros, scope, stack)
    ensures Exhausts(t, macros, scope, stack + 1)
  {
    hide Actions, Overflows, Tried;
    var call := CallAt(t, macros).value;
    TriedBlocks(u, call.macro.rules, macros, scope.(params := call.params), limit, stack);
  }

  lemma TriedInCalls(t: string, macros: Macros, scope: Scope, limit: nat)
    ensures forall u | u in TriedIn(t, macros, scope, limit) :: CallAt(u, macros).Ok?
  {
    hide Tried, CallAt;
    if CallAt(t, macros).Ok? {
      var call := CallAt(t, macros).value;
      TriedAreSites(call.macro.rules, macros, scope.(params := call.params), limit);
    }
  }

  /**
   * Rendering exhausts every stack exactly when the includes it reaches lead into a circle: from an include reached in
   * the tree to one reached in the body it calls, and so on, until a call comes again.
   */
  lemma CircleExact(ts: seq<Elem>, sites: set<string>, macros: Macros, scope: Scope)
    requires Covers(sites, macros, scope.lang) && Sites(ts, scope.lang) <= sites
    ensures NeverEnds(ts, macros, scope) <==> exists p :: TriedCircle(p, ts, macros, scope, |sites|)
  {
    hide Actions, Overflows, Sites, Covers, TriedCircle;
    if NeverEnds(ts, macros, scope) {
      assert Overflows(Actions(ts, macros, scope, |sites| + 1));
      var p := CircleIn(ts, sites, macros, scope);
      assert TriedCircle(p, ts, macros, scope, |sites|);
    }
    if exists p :: TriedCircle(p, ts, macros, scope, |sites|) {
      var p :| TriedCircle(p, ts, macros, scope, |sites|);
      forall stack: nat ensures Overflows(Actions(ts, macros, scope, stack)) {
        CircleBlocks(p, ts, macros, scope, |sites|, stack);
      }
    }
  }

  lemma CircleBlocks(p: seq<string>, ts: seq<Elem>, macros: Macros, scope: Scope, limit: nat, stack: nat)
    requires TriedCircle(p, ts, macros, scope, limit)
    ensures Overflows(Actions(ts, macros, scope, stack))
  {
    hide Actions, Overflows, Tried, TriedIn, Exhausts, CallAt;
    var next := t => TriedIn(t, macros, scope, limit);
    forall t | t in p ensures CallAt(t, macros).Ok? {
      var i :| 0 <= i < |p| && p[i] == t;
      if i == 0 {
        TriedAreSites(ts, macros, scope, limit);
      } else {
        TriedInCalls(p[i - 1], macros, scope, limit);
        assert p[i - 1 + 1] in next(p[i - 1]);
      }
    }
    forall t, u, n: nat | u in next(t) && Exhausts(u, macros, scope, n) && CallAt(t, macros).Ok?
      ensures Exhausts(t, macros, scope, n + 1)
    {
      TriedInBlocks(t, u, macros, scope, limit, n);
    }
    CircleExhausts(p, 0, Tried(ts, macros, scope, limit), next, macros, scope, stack);
    TriedBlocks(p[0], ts, macros, scope, limit, stack);
  }

  // ---------------------------------------------------------------------
  // Programs whose rules are in order
  // ---------------------------------------------------------------------

  /** Every word is an action, every include resolves, and every clause renders. */
  predicate InOrder(ts: seq<Elem>, macros: Macros, scope: Scope)
    decreases |ts|
  {
    ts == [] ||
    match ActionOf(ts[0], scope.lang)
    case NoAction => InOrder(ts[1..], macros, scope)
    case UnknownAction => false
    case Action(Include) => |ts| >= 2 && Resolve(ts[1], macros).Ok? && InOrder(ts[2..], macros, scope)
    case Action(action) => Clause(ts, action, scope).err.None? && InOrder(ts[Used(ts)..], macros, scope)
  }

  /** So is every body that is called from one of the sites. */
  predicate CalledInOrder(sites: set<string>, macros: Macros, scope: Scope) {
    forall t | t in sites && CallAt(t, macros).Ok? ::
      InOrder(CallAt(t, macros).value.macro.rules, macros, scope.(params := CallAt(t, macros).value.params))
  }

  /** What is in order renders, or exhausts the stack. */
  lemma {:induction false} InOrderRenders(ts: seq<Elem>, sites: set<string>, macros: Macros, scope: Scope, stack: nat)
    requires InOrder(ts, macros, scope) && Sites(ts, scope.lang) <= sites
    requires Covers(sites, macros, scope.lang) && CalledInOrder(sites, macros, scope)
    ensures var out := Actions(ts, macros, scope, stack); out.err.None? || Overflows(out)
    decreases stack, |ts|
  {
    hide Clause, ActionOf, Resolve, CallAt, Covers, CalledInOrder;
    if ts != [] {
      match ActionOf(ts[0], scope.lang)
      case NoAction => InOrderRenders(ts[1..], sites, macros, scope, stack);
      case Action(Include) =>
        IncludeStep(ts, macros, scope, stack);
        if stack > 0 {
          InOrderCalled(ts[1].text, sites, macros, scope);
          var call := CallAt(ts[1].text, macros).value;
          InOrderRenders(call.macro.rules, sites, macros, scope.(params := call.params), stack - 1);
          InOrderRenders(ts[2..], sites, macros, scope, stack);
        }
      case Action(action) => InOrderRenders(ts[Used(ts)..], sites, macros, scope, stack);
    }
  }

  lemma InOrderCalled(t: string, sites: set<string>, macros: Macros, scope: Scope)
    requires t in sites && CallAt(t, macros).Ok?
    requires Covers(sites, macros, scope.lang) && CalledInOrder(sites, macros, scope)
    ensures var call := CallAt(t, macros).value; var inner := scope.(params := call.params);
      InOrder(call.macro.rules, macros, inner) && Sites(call.macro.rules, scope.lang) <= sites &&
        CalledInOrder(sites, macros, inner)
  {
    hide InOrder, Sites, CallAt;
    CalledIsMacro(t, macros);
  }

  /** Then every include that stands in the tree and exhausts the stack makes the tree exhaust it. */
  lemma {:induction false} SiteBlocks(t: string, ts: seq<Elem>, sites: set<string>, macros: Macros, scope: Scope,
      stack: nat)
    requires InOrder(ts, macros, scope) && Sites(ts, scope.lang) <= sites
    requires Covers(sites, macros, scope.lang) && CalledInOrder(sites, macros, scope)
    requires t in Sites(ts, scope.lang) && Exhausts(t, macros, scope, stack)
    ensures Overflows(Actions(ts, macros, scope, stack))
    decreases |ts|
  {
    hide Clause, ActionOf, Resolve, CallAt, Covers, CalledInOrder, Body;
    match ActionOf(ts[0], scope.lang)
    case NoAction => SiteBlocks(t, ts[1..], sites, macros, scope, stack);
    case Action(Include) =>
      IncludeStep(ts, macros, scope, stack);
      if stack > 0 {
        var body := Body(ts[1].text, macros, scope, stack - 1);
        ThenOverflows(body, Actions(ts[2..], macros, scope, stack));
        if !Overflows(body) {
          BodyInOrder(ts[1].text, sites, macros, scope, stack - 1);
          SiteBlocks(t, ts[2..], sites, macros, scope, stack);
        }
      }
    case Action(action) =>
      SiteBlocks(t, ts[Used(ts)..], sites, macros, scope, stack);
      ThenOverflows(Clause(ts, action, scope), Actions(ts[Used(ts)..], macros, scope, stack));
  }

  lemma BodyInOrder(t: string, sites: set<string>, macros: Macros, scope: Scope, stack: nat)
    requires t in sites && CallAt(t, macros).Ok?
    requires Covers(sites, macros, scope.lang) && CalledInOrder(sites, macros, scope)
    ensures var out := Body(t, macros, scope, stack); out.err.None? || Overflows(out)
  {
    hide CallAt, Covers, CalledInOrder, InOrder, Sites, Actions, Overflows;
    InOrderCalled(t, sites, macros, scope);
    var call := CallAt(t, macros).value;
    InOrderRenders(call.macro.rules, sites, macros, scope.(params := call.params), stack);
  }

  lemma {:induction false} InOrderResolves(ts: seq<Elem>, macros: Macros, scope: Scope)
    requires InOrder(ts, macros, scope)
    ensures forall t | t in Sites(ts, scope.lang) :: CallAt(t, macros).Ok?
    decreases |ts|
  {
    hide Clause, ActionOf, Resolve, CallAt;
    if ts != [] {
      match ActionOf(ts[0], scope.lang)
      case NoAction => InOrderResolves(ts[1..], macros, scope);
      case Action(Include) =>
        ResolveByText(ts[1], macros);
        InOrderResolves(ts[2..], macros, scope);
      case Action(action) => InOrderResolves(ts[Used(ts)..], macros, scope);
    }
  }

  lemma SitesInBlock(t: string, u: string, sites: set<string>, macros: Macros, scope: Scope, stack: nat)
    requires Covers(sites, macros, scope.lang) && CalledInOrder(sites, macros, scope) && t in sites
    requires u in SitesIn(t, macros, scope.lang) && CallAt(t, macros).Ok?
    ensures u in sites && CallAt(u, macros).Ok?
    ensures Exhausts(u, macros, scope, stack) ==> Exhausts(t, macros, scope, stack + 1)
  {
    hide Actions, Overflows, Sites, InOrder, CalledInOrder, Covers, CallAt;
    var call := CallAt(t, macros).value;
    var inner := scope.(params := call.params);
    InOrderCalled(t, sites, macros, scope);
    InOrderResolves(call.macro.rules, macros, inner);
    if Exhausts(u, macros, scope, stack) {
      SiteBlocks(u, call.macro.rules, sites, macros, inner, stack);
    }
  }

  lemma {:induction false} CircleSites(p: seq<string>, i: nat, ts: seq<Elem>, sites: set<string>, macros: Macros,
      scope: Scope)
    requires InOrder(ts, macros, scope) && Sites(ts, scope.lang) <= sites
    requires Covers(sites, macros, scope.lang) && CalledInOrder(sites, macros, scope)
    requires SiteCircle(p, ts, macros, scope.lang) && i < |p|
    ensures p[i] in sites && CallAt(p[i], macros).Ok?
  {
    hide Sites, InOrder, CalledInOrder, Covers, CallAt, SitesIn;
    if i == 0 {
      InOrderResolves(ts, macros, scope);
    } else {
      CircleSites(p, i - 1, ts, sites, macros, scope);
      assert p[i - 1 + 1] in SitesIn(p[i - 1], macros, scope.lang);
      SitesInBlock(p[i - 1], p[i], sites, macros, scope, 0);
    }
  }

  lemma {:induction false} SiteCircleExhausts(p: seq<string>, i: nat, ts: seq<Elem>, sites: set<string>, macros: Macros,
                                              scope: Scope, stack: nat)
    requires InOrder(ts, macros, scope) && Sites(ts, scope.lang) <= sites
    requires Covers(sites, macros, scope.lang) && CalledInOrder(sites, macros, scope)
    requires SiteCircle(p, ts, macros, scope.lang) && i < |p|
    ensures Exhausts(p[i], macros, scope, stack)
    decreases stack, if i == |p| - 1 then 1 else 0
  {
    hide Body, CallAt, Overflows, Sites, InOrder, CalledInOrder, Covers, SitesIn;
    CircleSites(p, i, ts, sites, macros, scope);
    if i == |p| - 1 {
      var j :| 0 <= j < |p| - 1 && p[..|p| - 1][j] == p[i];
      SiteCircleExhausts(p, j, ts, sites, macros, scope, stack);
    } else if stack > 0 {
      SiteCircleExhausts(p, i + 1, ts, sites, macros, scope, stack - 1);
      assert p[i + 1] in SitesIn(p[i], macros, scope.lang);
      SitesInBlock(p[i], p[i + 1], sites, macros, scope, stack - 1);
    }
  }

  lemma TriedIsSiteCircle(p: seq<string>, ts: seq<Elem>, macros: Macros, scope: Scope, limit: nat)
    requires TriedCircle(p, ts, macros, scope, limit)
    ensures SiteCircle(p, ts, macros, scope.lang)
  {
    hide Tried, Sites, CallAt;
    TriedAreSites(ts, macros, scope, limit);
    var next := t => TriedIn(t, macros, scope, limit);
    forall i | 0 <= i < |p| - 1 ensures p[i + 1] in SitesIn(p[i], macros, scope.lang) {
      assert p[i + 1] in next(p[i]);
      var call := CallAt(p[i], macros).value;
      TriedAreSites(call.macro.rules, macros, scope.(params := call.params), limit);
    }
  }

  /**
   * Where all rules are in order, rendering exhausts every stack exactly when the includes that stand there form a
   * circle.
   */
  lemma SiteCircleExact(ts: seq<Elem>, macros: Macros, scope: Scope)
    requires InOrder(ts, macros, scope) && CalledInOrder(AllSites(ts, macros, scope.lang), macros, scope)
    ensures NeverEnds(ts, macros, scope) <==> exists p :: SiteCircle(p, ts, macros, scope.lang)
  {
    hide Actions, Overflows, Sites, Covers, TriedCircle, InOrder, CalledInOrder, AllSites, SiteCircle;
    var sites := AllSites(ts, macros, scope.lang);
    if NeverEnds(ts, macros, scope) {
      CircleExact(ts, sites, macros, scope);
      var p :| TriedCircle(p, ts, macros, scope, |sites|);
      TriedIsSiteCircle(p, ts, macros, scope, |sites|);
      assert SiteCircle(p, ts, macros, scope.lang);
    }
    if exists p :: SiteCircle(p, ts, macros, scope.lang) {
      var p :| SiteCircle(p, ts, macros, scope.lang);
      forall stack: nat ensures Overflows(Actions(ts, macros, scope, stack)) {
        SiteCircleOverflows(p, ts, sites, macros, scope, stack);
      }
    }
  }

  lemma SiteCircleOverflows(p: seq<string>, ts: seq<Elem>, sites: set<string>, macros: Macros, scope: Scope, stack: nat)
    requires InOrder(ts, macros, scope) && Sites(ts, scope.lang) <= sites
    requires Covers(sites, macros, scope.lang) && CalledInOrder(sites, macros, scope)
    requires SiteCircle(p, ts, macros, scope.lang)
    ensures Overflows(Actions(ts, macros, scope, stack))
  {
    hide Actions, Overflows, Sites, Covers, InOrder, CalledInOrder, SitesIn;
    SiteCircleExhausts(p, 0, ts, sites, macros, scope, stack);
    SiteBlocks(p[0], ts, sites, macros, scope, stack);
  }
}
