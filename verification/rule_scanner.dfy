/** Pass 1 of the flow-rule compiler: characters to a tree of blocks. */
module RuleScanner {

  /** A token with its source position, or a block opened by a keyword. */
  datatype Elem = Tok(text: string, line: int, col: int) | Block(elems: seq<Elem>)

  /** A whitespace-delimited word. `ends` records a trailing semicolon, which is not part of `text`. */
  datatype Word = Word(text: string, ends: bool, line: int, col: int)

  type Stack = s: seq<seq<Elem>> | |s| > 0 witness [[]]

  predicate IsSpace(c: char) {
    c == '\n' || c == '\r' || c == '\t' || c == ' '
  }

  predicate IsLineEnd(c: char) {
    c == '\n' || c == '\r'
  }

  function SplitWord(raw: string, line: int, col: int): Word
  {
    if raw != "" && raw[|raw| - 1] == ';'
    then Word(raw[..|raw| - 1], true, line, col)
    else Word(raw, false, line, col)
  }

  function Token(w: Word): seq<Elem> {
    if w.text == "" then [] else [Tok(w.text, w.line, w.col)]
  }

  // ---------------------------------------------------------------------
  // The block stack
  // ---------------------------------------------------------------------

  /** Appends to the innermost open block. */
  function Append(stack: Stack, es: seq<Elem>): Stack {
    stack[..|stack| - 1] + [stack[|stack| - 1] + es]
  }

  /** Closes the innermost block into the one below it. */
  function Close(stack: Stack): Stack
    requires |stack| > 1
  {
    Append(stack[..|stack| - 1], [Block(stack[|stack| - 1])])
  }

  /** One complete word: push its token, then close a block or open one. */
  function Push(stack: Stack, w: Word, opens: set<string>): Stack {
    var pushed := Append(stack, Token(w));
    if w.ends && |pushed| > 1 && |pushed[|pushed| - 1]| > 0 then Close(pushed)
    else if w.text in opens then pushed + [[]]
    else pushed
  }

  /** All words in turn. A word cut off by the end of input is pushed, but opens and closes nothing. */
  function PushAll(stack: Stack, ws: seq<Word>, cut: bool, opens: set<string>): Stack
    decreases |ws|
  {
    if ws == [] then stack
    else if cut && |ws| == 1 then Append(stack, Token(ws[0]))
    else PushAll(Push(stack, ws[0], opens), ws[1..], cut, opens)
  }

  /** End of input: fold the open blocks, but stop at an empty one. */
  function Collapse(stack: Stack): Stack
    decreases |stack|
  {
    if |stack| > 1 && |stack[|stack| - 1]| > 0 then Collapse(Close(stack)) else stack
  }

  // ---------------------------------------------------------------------
  // Reference definitions
  // ---------------------------------------------------------------------

  function FlattenElem(e: Elem): seq<Elem> {
    match e
    case Tok(_, _, _) => [e]
    case Block(es) => Flatten(es)
  }

  /** The tokens of a tree, left to right. */
  function Flatten(es: seq<Elem>): seq<Elem> {
    if es == [] then [] else FlattenElem(es[0]) + Flatten(es[1..])
  }

  /** Bottom to top. */
  function FlattenStack(stack: seq<seq<Elem>>): seq<Elem> {
    if stack == [] then [] else Flatten(stack[0]) + FlattenStack(stack[1..])
  }

  function Tokens(ws: seq<Word>): seq<Elem> {
    if ws == [] then [] else Token(ws[0]) + Tokens(ws[1..])
  }

  predicate Opens(e: Elem, opens: set<string>) {
    e.Tok? && e.text in opens
  }

  /** No block is empty, and a block stands exactly behind the keyword that opened it. */
  predicate WellFormed(es: seq<Elem>, opens: set<string>) {
    forall i | 0 <= i < |es| && es[i].Block? ::
      && es[i].elems != [] && WellFormed(es[i].elems, opens)
      && i > 0 && Opens(es[i - 1], opens)
  }

  /** Every block below the top of the stack ends with the keyword that opened the next one. */
  predicate StackOk(stack: seq<seq<Elem>>, opens: set<string>) {
    && (forall i | 0 <= i < |stack| :: WellFormed(stack[i], opens))
    && (forall i | 0 <= i < |stack| - 1 :: stack[i] != [] && Opens(stack[i][|stack[i]| - 1], opens))
  }

  // ---------------------------------------------------------------------
  // Nothing is lost or reordered
  // ---------------------------------------------------------------------

  lemma {:induction false} FlattenAppend(a: seq<Elem>, b: seq<Elem>)
    ensures Flatten(a + b) == Flatten(a) + Flatten(b)
  {
    if a == [] {
      assert a + b == b;
    } else {
      assert (a + b)[0] == a[0] && (a + b)[1..] == a[1..] + b;
      FlattenAppend(a[1..], b);
    }
  }

  lemma FlattenOne(e: Elem)
    ensures Flatten([e]) == FlattenElem(e)
  {
    assert Flatten([e][1..]) == [];
  }

  lemma {:induction false} FlattenStackAppend(a: seq<seq<Elem>>, b: seq<seq<Elem>>)
    ensures FlattenStack(a + b) == FlattenStack(a) + FlattenStack(b)
  {
    if a == [] {
      assert a + b == b;
    } else {
      assert (a + b)[0] == a[0] && (a + b)[1..] == a[1..] + b;
      FlattenStackAppend(a[1..], b);
    }
  }

  lemma FlattenStackTop(below: seq<seq<Elem>>, top: seq<Elem>)
    ensures FlattenStack(below + [top]) == FlattenStack(below) + Flatten(top)
  {
    FlattenStackAppend(below, [top]);
    assert FlattenStack([top][1..]) == [];
  }

  lemma AppendKeepsOrder(stack: Stack, es: seq<Elem>)
    ensures FlattenStack(Append(stack, es)) == FlattenStack(stack) + Flatten(es)
  {
    var below, top := stack[..|stack| - 1], stack[|stack| - 1];
    FlattenStackTop(below, top + es);
    FlattenAppend(top, es);
    FlattenStackTop(below, top);
    assert below + [top] == stack;
  }

  lemma CloseKeepsOrder(stack: Stack)
    requires |stack| > 1
    ensures FlattenStack(Close(stack)) == FlattenStack(stack)
  {
    hide Flatten, FlattenStack, Append;
    var below: Stack, top := stack[..|stack| - 1], stack[|stack| - 1];
    calc {
      FlattenStack(Close(stack));
      { AppendKeepsOrder(below, [Block(top)]); }
      FlattenStack(below) + Flatten([Block(top)]);
      { FlattenOne(Block(top)); }
      FlattenStack(below) + Flatten(top);
      { FlattenStackTop(below, top); }
      FlattenStack(below + [top]);
      { assert below + [top] == stack; }
      FlattenStack(stack);
    }
  }

  lemma AppendTokenKeepsOrder(stack: Stack, w: Word)
    ensures FlattenStack(Append(stack, Token(w))) == FlattenStack(stack) + Token(w)
  {
    AppendKeepsOrder(stack, Token(w));
    if w.text != "" {
      FlattenOne(Tok(w.text, w.line, w.col));
    }
  }

  lemma PushKeepsOrder(stack: Stack, w: Word, opens: set<string>)
    ensures FlattenStack(Push(stack, w, opens)) == FlattenStack(stack) + Token(w)
  {
    var pushed := Append(stack, Token(w));
    AppendTokenKeepsOrder(stack, w);
    if w.ends && |pushed| > 1 && |pushed[|pushed| - 1]| > 0 {
      CloseKeepsOrder(pushed);
    } else if w.text in opens {
      FlattenStackTop(pushed, []);
    }
  }

  /** At every scan step the stack, flattened bottom to top, is exactly the tokens completed so far. */
  lemma {:induction false} PushAllKeepsOrder(stack: Stack, ws: seq<Word>, cut: bool, opens: set<string>)
    ensures FlattenStack(PushAll(stack, ws, cut, opens)) == FlattenStack(stack) + Tokens(ws)
    decreases |ws|
  {
    hide Push, Append, Token, Flatten, FlattenStack;
    if ws == [] {
    } else if cut && |ws| == 1 {
      AppendTokenKeepsOrder(stack, ws[0]);
      assert Tokens(ws[1..]) == [];
    } else {
      PushKeepsOrder(stack, ws[0], opens);
      PushAllKeepsOrder(Push(stack, ws[0], opens), ws[1..], cut, opens);
    }
  }

  // ---------------------------------------------------------------------
  // The stack invariant
  // ---------------------------------------------------------------------

  lemma WellFormedAppend(es: seq<Elem>, e: Elem, opens: set<string>)
    requires WellFormed(es, opens)
    requires e.Block? ==> e.elems != [] && WellFormed(e.elems, opens) && es != [] && Opens(es[|es| - 1], opens)
    ensures WellFormed(es + [e], opens)
  {
  }

  lemma AppendTokenOk(stack: Stack, w: Word, opens: set<string>)
    requires StackOk(stack, opens)
    ensures StackOk(Append(stack, Token(w)), opens)
  {
    var top := stack[|stack| - 1];
    if w.text != "" {
      WellFormedAppend(top, Tok(w.text, w.line, w.col), opens);
    } else {
      assert top + [] == top;
    }
  }

  lemma CloseOk(stack: Stack, opens: set<string>)
    requires |stack| > 1 && StackOk(stack, opens) && stack[|stack| - 1] != []
    ensures StackOk(Close(stack), opens)
  {
    WellFormedAppend(stack[|stack| - 2], Block(stack[|stack| - 1]), opens);
  }

  lemma PushOk(stack: Stack, w: Word, opens: set<string>)
    requires "" !in opens && StackOk(stack, opens)
    ensures StackOk(Push(stack, w, opens), opens)
  {
    AppendTokenOk(stack, w, opens);
    var pushed := Append(stack, Token(w));
    if w.ends && |pushed| > 1 && |pushed[|pushed| - 1]| > 0 {
      CloseOk(pushed, opens);
    }
  }

  lemma {:induction false} PushAllOk(stack: Stack, ws: seq<Word>, cut: bool, opens: set<string>)
    requires "" !in opens && StackOk(stack, opens)
    ensures StackOk(PushAll(stack, ws, cut, opens), opens)
    decreases |ws|
  {
    if ws == [] {
    } else if cut && |ws| == 1 {
      AppendTokenOk(stack, ws[0], opens);
    } else {
      PushOk(stack, ws[0], opens);
      PushAllOk(Push(stack, ws[0], opens), ws[1..], cut, opens);
    }
  }

  // ---------------------------------------------------------------------
  // End of input
  // ---------------------------------------------------------------------

  /** Folding keeps every token, and leaves more than one level exactly when the top block is empty. */
  lemma {:induction false} CollapseKeepsOrder(stack: Stack, opens: set<string>)
    requires StackOk(stack, opens)
    ensures var c := Collapse(stack);
      && StackOk(c, opens)
      && FlattenStack(c) == FlattenStack(stack)
      && (|stack| > 1 && stack[|stack| - 1] == [] ==> c == stack)
      && (|stack| > 1 && stack[|stack| - 1] != [] ==> |c| == 1)
      && (|stack| == 1 ==> c == stack)
    decreases |stack|
  {
    if |stack| > 1 && |stack[|stack| - 1]| > 0 {
      CloseKeepsOrder(stack);
      CloseOk(stack, opens);
      CollapseKeepsOrder(Close(stack), opens);
    }
  }

  lemma {:induction false} FlattenEmpty(es: seq<Elem>, opens: set<string>)
    requires WellFormed(es, opens)
    ensures Flatten(es) == [] <==> es == []
  {
    if es != [] {
      assert es[0].Tok?;
      assert FlattenElem(es[0]) == [es[0]];
    }
  }

  lemma FlattenStackBottom(stack: Stack, opens: set<string>)
    requires StackOk(stack, opens) && (|stack| == 1 || stack[|stack| - 1] == [])
    ensures Flatten(stack[0]) == FlattenStack(stack) <==> |stack| <= 2
  {
    hide FlattenElem;
    var above := stack[1..];
    if |stack| == 2 {
      assert above == [[]];
      assert FlattenStack(above) == [] by { assert above[1..] == []; }
    } else if |stack| >= 3 {
      FlattenEmpty(stack[1], opens);
      assert above[0] == stack[1];
      assert FlattenStack(above) != [];
    }
  }

  /**
   * The final tree keeps all tokens exactly when input does not end with an empty block open at depth three or more.
   */
  lemma FinalTreeComplete(stack: Stack, opens: set<string>)
    requires StackOk(stack, opens)
    ensures Flatten(Collapse(stack)[0]) == FlattenStack(stack) <==> !(|stack| >= 3 && stack[|stack| - 1] == [])
    ensures WellFormed(Collapse(stack)[0], opens)
  {
    hide Flatten, FlattenStack, FlattenElem;
    CollapseKeepsOrder(stack, opens);
    FlattenStackBottom(Collapse(stack), opens);
  }

  // ---------------------------------------------------------------------
  // Printing a tree and scanning it back
  // ---------------------------------------------------------------------

  /** A block stands exactly behind an opening keyword. */
  predicate Placed(es: seq<Elem>, i: int, opens: set<string>)
    requires 0 <= i < |es|
  {
    && (es[i].Block? ==> i > 0 && Opens(es[i - 1], opens))
    && (Opens(es[i], opens) ==> i + 1 < |es| && es[i + 1].Block?)
  }

  predicate PrintableElem(e: Elem, opens: set<string>) {
    match e
    case Tok(text, _, _) => text != "" && text[0] != '#' && text[|text| - 1] != ';' &&
      (forall c | c in text :: !IsSpace(c))
    case Block(inner) => inner != [] && Printable(inner, opens)
  }

  /** A tree that can be written down: tokens are words, and each opening keyword has its block. */
  predicate Printable(es: seq<Elem>, opens: set<string>) {
    && (forall i | 0 <= i < |es| :: Placed(es, i, opens))
    && (forall i | 0 <= i < |es| :: PrintableElem(es[i], opens))
  }

  function PrintElem(e: Elem): seq<Word> {
    match e
    case Tok(text, line, col) => [Word(text, false, line, col)]
    case Block(es) => Print(es) + [Word("", true, 0, 0)]
  }

  /** The words of a tree, with a lone semicolon behind each block. */
  function Print(es: seq<Elem>): seq<Word> {
    if es == [] then [] else PrintElem(es[0]) + Print(es[1..])
  }

  lemma {:induction false} PushAllAppend(stack: Stack, a: seq<Word>, b: seq<Word>, opens: set<string>)
    ensures PushAll(stack, a + b, false, opens) == PushAll(PushAll(stack, a, false, opens), b, false, opens)
    decreases |a|
  {
    if a == [] {
      assert a + b == b;
    } else {
      assert (a + b)[0] == a[0] && (a + b)[1..] == a[1..] + b;
      PushAllAppend(Push(stack, a[0], opens), a[1..], b, opens);
    }
  }

  /** The stack after the elements `es` of the top block: an opening keyword leaves its block open. */
  function Rebuilt(below: seq<seq<Elem>>, es: seq<Elem>, opens: set<string>): Stack {
    if es != [] && Opens(es[|es| - 1], opens) then below + [es] + [[]] else below + [es]
  }

  lemma ScanToken(below: seq<seq<Elem>>, es: seq<Elem>, e: Elem, opens: set<string>)
    requires e.Tok? && e.text != "" && (es == [] || !Opens(es[|es| - 1], opens))
    ensures Push(Rebuilt(below, es, opens), Word(e.text, false, e.line, e.col), opens) ==
      Rebuilt(below, es + [e], opens)
  {
    assert Append(below + [es], [e]) == below + [es + [e]];
  }

  lemma ScanSemicolon(below: seq<seq<Elem>>, es: seq<Elem>, inner: seq<Elem>, opens: set<string>)
    requires "" !in opens && inner != []
    ensures Push(below + [es] + [inner], Word("", true, 0, 0), opens) == Rebuilt(below, es + [Block(inner)], opens)
  {
    var full: Stack := below + [es] + [inner];
    assert Append(full, []) == full by { assert inner + [] == inner; }
    assert full[..|full| - 1] == below + [es];
    assert Close(full) == below + [es + [Block(inner)]];
  }

  lemma LastDoesNotOpen(es: seq<Elem>, opens: set<string>)
    requires es != [] && Printable(es, opens)
    ensures !Opens(es[|es| - 1], opens)
  {
    assert Placed(es, |es| - 1, opens);
  }

  /** Scanning the words of `es[n..]` on top of the rebuilt `es[..n]` rebuilds all of `es`. */
  lemma {:induction false} ScanFrom(below: seq<seq<Elem>>, es: seq<Elem>, n: nat, opens: set<string>)
    requires "" !in opens && Printable(es, opens) && n <= |es|
    ensures PushAll(Rebuilt(below, es[..n], opens), Print(es[n..]), false, opens) == below + [es]
    decreases es, |es| - n
  {
    if n == |es| {
      assert es[..n] == es;
      if es != [] {
        LastDoesNotOpen(es, opens);
      }
    } else {
      ScanFrom(below, es, n + 1, opens);
      var before, e, after := es[..n], es[n], es[n + 1..];
      assert es[..n + 1] == before + [e];
      assert es[n..][0] == e && es[n..][1..] == after;
      assert Placed(es, n, opens) && PrintableElem(e, opens);
      assert n > 0 ==> before[n - 1] == es[n - 1] && Placed(es, n - 1, opens);
      if e.Tok? {
        ScanToken(below, before, e, opens);
        ScanOne(Rebuilt(below, before, opens), Word(e.text, false, e.line, e.col), Print(after), opens);
      } else {
        ScanBlock(below, before, e.elems, Print(after), opens);
      }
    }
  }

  lemma ScanOne(stack: Stack, w: Word, rest: seq<Word>, opens: set<string>)
    ensures PushAll(stack, [w] + rest, false, opens) == PushAll(Push(stack, w, opens), rest, false, opens)
  {
    assert ([w] + rest)[1..] == rest;
  }

  lemma {:induction false} ScanBlock(below: seq<seq<Elem>>, es: seq<Elem>, inner: seq<Elem>, rest: seq<Word>,
      opens: set<string>)
    requires "" !in opens && es != [] && Opens(es[|es| - 1], opens) && inner != [] && Printable(inner, opens)
    ensures PushAll(Rebuilt(below, es, opens), PrintElem(Block(inner)) + rest, false, opens) ==
            PushAll(Rebuilt(below, es + [Block(inner)], opens), rest, false, opens)
    decreases inner, |inner| + 1
  {
    var semicolon := Word("", true, 0, 0);
    var under: Stack := below + [es];
    calc {
      PushAll(Rebuilt(below, es, opens), PrintElem(Block(inner)) + rest, false, opens);
      { assert PrintElem(Block(inner)) + rest == Print(inner) + ([semicolon] + rest); }
      PushAll(under + [[]], Print(inner) + ([semicolon] + rest), false, opens);
      { PushAllAppend(under + [[]], Print(inner), [semicolon] + rest, opens); }
      PushAll(PushAll(under + [[]], Print(inner), false, opens), [semicolon] + rest, false, opens);
      { ScanFrom(under, inner, 0, opens); assert inner[..0] == [] && inner[0..] == inner; }
      PushAll(under + [inner], [semicolon] + rest, false, opens);
      { ScanOne(under + [inner], semicolon, rest, opens); ScanSemicolon(below, es, inner, opens); }
      PushAll(Rebuilt(below, es + [Block(inner)], opens), rest, false, opens);
    }
  }

  /** Round trip: scanning what was printed gives the same tree back. */
  lemma ScanOfPrint(es: seq<Elem>, opens: set<string>)
    requires "" !in opens && Printable(es, opens)
    ensures Collapse(PushAll([[]], Print(es), false, opens)) == [es]
  {
    var none: seq<seq<Elem>> := [];
    ScanFrom(none, es, 0, opens);
    assert es[..0] == [] && es[0..] == es;
    assert Rebuilt(none, [], opens) == [[]];
    assert none + [es] == [es];
  }

  // ---------------------------------------------------------------------
  // Characters to words
  // ---------------------------------------------------------------------

  function WordLength(s: string): (n: nat)
    ensures n <= |s|
  {
    if s == "" || IsSpace(s[0]) then 0 else 1 + WordLength(s[1..])
  }

  function CommentLength(s: string): (n: nat)
    ensures n <= |s|
  {
    if s == "" || IsLineEnd(s[0]) then 0 else 1 + CommentLength(s[1..])
  }

  /** The words of a text with their positions. Columns restart at 1, but the first line counts from 0. */
  function Words(s: string, line: int, col: int): seq<Word>
    decreases |s|, 0
  {
    if s == "" then []
    else if s[0] == '\n' then Words(s[1..], line + 1, 1)
    else if IsSpace(s[0]) then Words(s[1..], line, col + 1)
    else if s[0] == '#' then AfterComment(s[1..], line)
    else
      var n := WordLength(s);
      [SplitWord(s[..n], line, col)] + Words(s[n..], line, col + n)
  }

  /** A comment runs to the line end that stops it, which counts as one line whether it is CR or LF. */
  function AfterComment(s: string, line: int): seq<Word>
    decreases |s|, 1
  {
    var n := CommentLength(s);
    if n == |s| then [] else Words(s[n + 1..], line + 1, 1)
  }

  /** Whether the text stops in the middle of a word. */
  predicate EndsInWord(s: string)
    decreases |s|, 0
  {
    if s == "" then false
    else if IsSpace(s[0]) then EndsInWord(s[1..])
    else if s[0] == '#' then EndsAfterComment(s[1..])
    else WordLength(s) == |s| || EndsInWord(s[WordLength(s)..])
  }

  predicate EndsAfterComment(s: string)
    decreases |s|, 1
  {
    var n := CommentLength(s);
    n < |s| && EndsInWord(s[n + 1..])
  }

  lemma {:induction false} CommentLengthIs(t: string, rest: string)
    requires (forall c | c in t :: !IsLineEnd(c)) && rest != "" && IsLineEnd(rest[0])
    ensures CommentLength(t + rest) == |t|
  {
    if t == "" {
      assert t + rest == rest;
    } else {
      assert (t + rest)[1..] == t[1..] + rest;
      CommentLengthIs(t[1..], rest);
    }
  }

  /** A comment is skipped up to and including the end of its line. */
  lemma CommentIsSkipped(t: string, end: char, rest: string, line: int, col: int)
    requires (forall c | c in t :: !IsLineEnd(c)) && IsLineEnd(end)
    ensures Words("#" + (t + ([end] + rest)), line, col) == Words(rest, line + 1, 1)
  {
    hide WordLength, SplitWord;
    var tail := t + ([end] + rest);
    CommentLengthIs(t, [end] + rest);
    assert ("#" + tail)[1..] == tail;
    assert tail[|t| + 1..] == rest;
  }

  lemma {:induction false} CutWordIsLast(s: string, line: int, col: int)
    ensures EndsInWord(s) ==> Words(s, line, col) != []
    decreases |s|
  {
    if s == "" {
    } else if s[0] == '\n' {
      CutWordIsLast(s[1..], line + 1, 1);
    } else if IsSpace(s[0]) {
      CutWordIsLast(s[1..], line, col + 1);
    } else if s[0] == '#' {
      var t := s[1..];
      var n := CommentLength(t);
      assert EndsInWord(s) == EndsAfterComment(t);
      if n < |t| {
        CutWordIsLast(t[n + 1..], line + 1, 1);
        assert Words(s, line, col) == AfterComment(t, line) == Words(t[n + 1..], line + 1, 1);
      }
    }
  }

  /** The blocks open at the end of the text. */
  function OpenBlocks(src: string, opens: set<string>): Stack {
    PushAll([[]], Words(src, 1, 0), EndsInWord(src), opens)
  }

  /** What the scanner still has to produce, given its mode and pending word. */
  function Remaining(skip: bool, curr: Word, rest: string, line: int, col: int): seq<Word> {
    if skip then AfterComment(rest, line)
    else if curr.text == "" then Words(rest, line, col)
    else
      var n := WordLength(rest);
      [SplitWord(curr.text + rest[..n], curr.line, curr.col)] + Words(rest[n..], line, col + n)
  }

  predicate RemainingCut(skip: bool, curr: Word, rest: string) {
    if skip then EndsAfterComment(rest)
    else if curr.text == "" then EndsInWord(rest)
    else WordLength(rest) == |rest| || EndsInWord(rest[WordLength(rest)..])
  }

  /** The stack at the end of the text. */
  function Outcome(stack: Stack, skip: bool, curr: Word, rest: string, line: int, col: int, opens: set<string>): Stack {
    PushAll(stack, Remaining(skip, curr, rest, line, col), RemainingCut(skip, curr, rest), opens)
  }

  lemma SkipStep(stack: Stack, curr: Word, rest: string, line: int, col: int, opens: set<string>)
    requires rest != "" && curr.text == ""
    ensures Outcome(stack, true, curr, rest, line, col, opens) ==
      if IsLineEnd(rest[0]) then Outcome(stack, false, curr, rest[1..], line + 1, 1, opens)
      else Outcome(stack, true, curr, rest[1..], line, col + 1, opens)
  {
    hide PushAll, Words, EndsInWord;
    if !IsLineEnd(rest[0]) {
      var n := CommentLength(rest[1..]);
      if n < |rest[1..]| {
        assert rest[1..][n + 1..] == rest[n + 2..];
      }
    }
  }

  lemma CommentStep(stack: Stack, curr: Word, rest: string, line: int, col: int, opens: set<string>)
    requires rest != "" && curr.text == "" && rest[0] == '#'
    ensures Outcome(stack, false, curr, rest, line, col, opens) ==
      Outcome(stack, true, curr, rest[1..], line, col + 1, opens)
  {
  }

  /** A character inside a word extends the pending word. */
  lemma WordStep(stack: Stack, curr: Word, rest: string, line: int, col: int, curr': Word, opens: set<string>)
    requires rest != "" && !IsSpace(rest[0])
    requires curr'.text == curr.text + [rest[0]]
    requires if curr.text == "" then rest[0] != '#' && curr'.line == line && curr'.col == col
             else curr'.line == curr.line && curr'.col == curr.col
    ensures Outcome(stack, false, curr, rest, line, col, opens) ==
      Outcome(stack, false, curr', rest[1..], line, col + 1, opens)
  {
    hide PushAll, SplitWord, AfterComment, EndsAfterComment;
    var n := WordLength(rest[1..]);
    assert WordLength(rest) == n + 1;
    assert rest[n + 1..] == rest[1..][n..];
    assert rest[..n + 1] == [rest[0]] + rest[1..][..n];
    if curr.text != "" {
      hide Words, EndsInWord, WordLength;
      assert curr.text + rest[..n + 1] == curr'.text + rest[1..][..n];
    } else {
      assert curr'.text + rest[1..][..n] == rest[..n + 1];
    }
  }

  /** White space ends the pending word, if there is one. */
  lemma SpaceStep(stack: Stack, curr: Word, rest: string, line: int, col: int, opens: set<string>)
    requires rest != "" && IsSpace(rest[0])
    ensures Outcome(stack, false, curr, rest, line, col, opens) == Outcome(
      if curr.text == "" then stack else Push(stack, SplitWord(curr.text, curr.line, curr.col), opens),
      false, Word("", false, -1, -1), rest[1..],
      if rest[0] == '\n' then line + 1 else line, if rest[0] == '\n' then 1 else col + 1, opens)
  {
    var line', col' := if rest[0] == '\n' then line + 1 else line, if rest[0] == '\n' then 1 else col + 1;
    var later := Words(rest[1..], line', col');
    assert Words(rest, line, col) == later;
    if curr.text != "" {
      var word := SplitWord(curr.text, curr.line, curr.col);
      assert curr.text + rest[..0] == curr.text && rest[0..] == rest;
      assert Remaining(false, curr, rest, line, col) == [word] + later;
      assert ([word] + later)[1..] == later;
      CutWordIsLast(rest[1..], line', col');
    }
  }

  lemma EndOfText(stack: Stack, skip: bool, curr: Word, line: int, col: int, opens: set<string>)
    requires skip ==> curr.text == ""
    ensures Outcome(stack, skip, curr, "", line, col, opens) == Outcome(stack, false, curr, "", 0, 0, opens)
  {
  }

  /** A word followed by white space. */
  method EndToken(stack: Stack, word: Word, opens: set<string>) returns (out: Stack)
    ensures out == Push(stack, word, opens)
  {
    var top := stack[|stack| - 1];
    if |word.text| > 0 {
      top := top + [Tok(word.text, word.line, word.col)];
    }
    assert top == stack[|stack| - 1] + Token(word);
    var pushed: Stack := stack[..|stack| - 1] + [top];
    if word.ends && |pushed| > 1 && |pushed[|pushed| - 1]| > 0 {
      out := pushed[..|pushed| - 2] + [pushed[|pushed| - 2] + [Block(top)]];
    } else if word.text in opens {
      out := pushed + [[]];
    } else {
      out := pushed;
    }
  }

  /** Pass 1 of `compile`. */
  method Scan(src: string, opens: set<string>) returns (parsed: seq<Elem>)
    ensures parsed == Collapse(OpenBlocks(src, opens))[0]
  {
    hide PushAll, Words, EndsInWord, AfterComment, EndsAfterComment, Push, SplitWord;
    var blockStack: Stack := [[]];
    var curr := Word("", false, -1, -1);
    var skipRestOfLine := false;
    var idx, lineNo, lineIdx := 0, 1, 0;
    assert src[0..] == src;
    while idx < |src|
      invariant 0 <= idx <= |src|
      invariant skipRestOfLine ==> curr.text == ""
      invariant Outcome(blockStack, skipRestOfLine, curr, src[idx..], lineNo, lineIdx, opens) == OpenBlocks(src, opens)
    {
      var ch := src[idx];
      ghost var rest := src[idx..];
      assert rest[0] == ch && rest[1..] == src[idx + 1..];
      if skipRestOfLine {
        SkipStep(blockStack, curr, rest, lineNo, lineIdx, opens);
        if ch == '\r' || ch == '\n' {
          skipRestOfLine := false;
          lineNo := lineNo + 1;
          lineIdx := 0;
        }
      } else if IsSpace(ch) {
        SpaceStep(blockStack, curr, rest, lineNo, lineIdx, opens);
        if ch == '\n' {
          lineNo := lineNo + 1;
          lineIdx := 0;
        }
        if |curr.text| > 0 {
          blockStack := EndToken(blockStack, SplitWord(curr.text, curr.line, curr.col), opens);
        }
        curr := Word("", false, -1, -1);
      } else if |curr.text| == 0 && ch == '#' {
        CommentStep(blockStack, curr, rest, lineNo, lineIdx, opens);
        skipRestOfLine := true;
      } else {
        ghost var before := curr;
        if |curr.text| == 0 {
          curr := Word(curr.text, false, lineNo, lineIdx);
        }
        curr := curr.(text := curr.text + [ch]);
        WordStep(blockStack, before, rest, lineNo, lineIdx, curr, opens);
      }
      idx, lineIdx := idx + 1, lineIdx + 1;
    }
    EndOfText(blockStack, skipRestOfLine, curr, lineNo, lineIdx, opens);
    assert src[idx..] == "";
    parsed := CloseAll(blockStack, curr, opens);
  }

  /** End of input: the pending word is pushed, then the open blocks are folded. */
  method CloseAll(stack: Stack, curr: Word, opens: set<string>) returns (parsed: seq<Elem>)
    ensures parsed == Collapse(Outcome(stack, false, curr, "", 0, 0, opens))[0]
  {
    var blockStack: Stack := stack;
    if |curr.text| > 0 {
      assert curr.text + "" == curr.text;
      blockStack := Append(stack, Token(SplitWord(curr.text, curr.line, curr.col)));
    }
    ghost var open := blockStack;
    while |blockStack| > 1 && |blockStack[|blockStack| - 1]| > 0
      invariant Collapse(blockStack) == Collapse(open)
      decreases |blockStack|
    {
      blockStack := Close(blockStack);
    }
    parsed := blockStack[0];
  }

  /** Pass 1 loses tokens exactly when input ends with an empty block open at depth three or more. */
  lemma Pass1Complete(src: string, opens: set<string>)
    requires "" !in opens
    ensures var open, tokens := OpenBlocks(src, opens), Tokens(Words(src, 1, 0));
      && FlattenStack(open) == tokens
      && WellFormed(Collapse(open)[0], opens)
      && (Flatten(Collapse(open)[0]) == tokens <==> !(|open| >= 3 && open[|open| - 1] == []))
  {
    var empty: Stack := [[]];
    assert FlattenStack(empty) == [] by { assert empty[1..] == []; }
    PushAllOk(empty, Words(src, 1, 0), EndsInWord(src), opens);
    PushAllKeepsOrder(empty, Words(src, 1, 0), EndsInWord(src), opens);
    FinalTreeComplete(OpenBlocks(src, opens), opens);
  }

  /** A plain word that opens a block. */
  predicate OpeningWord(text: string, opens: set<string>) {
    text in opens && PlainWord(Word(text, false, 0, 0))
  }

  lemma TwoWords(a: string, b: string)
    requires PlainWord(Word(a, false, 0, 0)) && PlainWord(Word(b, false, 0, 0))
    ensures var src := a + (" " + (b + " "));
      Words(src, 1, 0) == [Word(a, false, 1, 0), Word(b, false, 1, |a| + 1)] && !EndsInWord(src)
  {
    hide Words, EndsInWord;
    assert b + " " == b + (" " + "");
    FirstWord(a, b + (" " + ""), 1, 0);
    FirstWord(b, "", 1, |a| + 1);
    NoWords(1, |a| + 1 + |b| + 1);
  }

  /** Two opening keywords and a space: the second one opens an empty block at depth three, and its token is lost. */
  lemma SecondKeywordIsLost(a: string, b: string, opens: set<string>)
    requires OpeningWord(a, opens) && OpeningWord(b, opens)
    ensures var src := a + (" " + (b + " "));
      && Tokens(Words(src, 1, 0)) == [Tok(a, 1, 0), Tok(b, 1, |a| + 1)]
      && Collapse(OpenBlocks(src, opens))[0] == [Tok(a, 1, 0)]
  {
    hide Words, EndsInWord;
    TwoWords(a, b);
    var x, y := Word(a, false, 1, 0), Word(b, false, 1, |a| + 1);
    assert [x, y][1..] == [y] && [y][1..] == [];
    assert Tokens([y]) == Token(y) by { assert Tokens([y][1..]) == []; }
    var s0: Stack, s1: Stack, s2: Stack := [[]], [[Tok(a, 1, 0)], []], [[Tok(a, 1, 0)], [Tok(b, 1, |a| + 1)], []];
    assert s0[0] + Token(x) == [Tok(a, 1, 0)] && s1[1] + Token(y) == [Tok(b, 1, |a| + 1)];
    assert Append(s0, Token(x)) == [[Tok(a, 1, 0)]];
    assert Append(s1, Token(y)) == [[Tok(a, 1, 0)], [Tok(b, 1, |a| + 1)]];
    assert Push(s0, x, opens) == s1 && Push(s1, y, opens) == s2;
    assert PushAll(s2, [], false, opens) == s2;
    assert PushAll(s1, [y], false, opens) == s2;
  }

  // ---------------------------------------------------------------------
  // Printing a tree as text and compiling it back
  // ---------------------------------------------------------------------

  function EraseWord(w: Word): Word {
    Word(w.text, w.ends, 0, 0)
  }

  function EraseWords(ws: seq<Word>): seq<Word> {
    if ws == [] then [] else [EraseWord(ws[0])] + EraseWords(ws[1..])
  }

  /** A tree without its source positions. */
  function EraseElem(e: Elem): Elem {
    match e
    case Tok(text, _, _) => Tok(text, 0, 0)
    case Block(es) => Block(seq(|es|, i requires 0 <= i < |es| => EraseElem(es[i])))
  }

  function Erase(es: seq<Elem>): seq<Elem> {
    seq(|es|, i requires 0 <= i < |es| => EraseElem(es[i]))
  }

  function EraseStack(stack: Stack): Stack {
    seq(|stack|, i requires 0 <= i < |stack| => Erase(stack[i]))
  }

  function Raw(w: Word): string {
    if w.ends then w.text + ";" else w.text
  }

  function Source(ws: seq<Word>): string {
    if ws == [] then "" else Raw(ws[0]) + (" " + Source(ws[1..]))
  }

  predicate PlainWord(w: Word) {
    && (forall c | c in w.text :: !IsSpace(c))
    && if w.ends then w.text == "" else w.text != "" && w.text[0] != '#' && w.text[|w.text| - 1] != ';'
  }

  lemma AppendErase(stack: Stack, es: seq<Elem>)
    ensures EraseStack(Append(stack, es)) == Append(EraseStack(stack), Erase(es))
  {
    var top := stack[|stack| - 1];
    assert Erase(top + es) == Erase(top) + Erase(es);
  }

  lemma CloseErase(stack: Stack)
    requires |stack| > 1
    ensures EraseStack(Close(stack)) == Close(EraseStack(stack))
  {
    hide Append;
    var below, top := stack[..|stack| - 1], stack[|stack| - 1];
    AppendErase(below, [Block(top)]);
    assert Erase([Block(top)]) == [Block(Erase(top))];
    assert EraseStack(below) == EraseStack(stack)[..|stack| - 1];
  }

  lemma PushErase(stack: Stack, w: Word, opens: set<string>)
    ensures EraseStack(Push(stack, w, opens)) == Push(EraseStack(stack), EraseWord(w), opens)
  {
    var pushed := Append(stack, Token(w));
    AppendErase(stack, Token(w));
    assert Erase(Token(w)) == Token(EraseWord(w));
    if w.ends && |pushed| > 1 && |pushed[|pushed| - 1]| > 0 {
      CloseErase(pushed);
    } else if w.text in opens {
      var empty: seq<Elem> := [];
      assert Erase(empty) == empty;
      assert EraseStack(pushed + [empty]) == EraseStack(pushed) + [empty];
    }
  }

  /** Positions have no influence on the shape of the tree. */
  lemma {:induction false} PushAllErase(stack: Stack, ws: seq<Word>, opens: set<string>)
    ensures EraseStack(PushAll(stack, ws, false, opens)) == PushAll(EraseStack(stack), EraseWords(ws), false, opens)
    decreases |ws|
  {
    if ws != [] {
      hide Push, EraseStack;
      PushErase(stack, ws[0], opens);
      PushAllErase(Push(stack, ws[0], opens), ws[1..], opens);
      assert EraseWords(ws)[1..] == EraseWords(ws[1..]);
    }
  }

  lemma {:induction false} CollapseErase(stack: Stack)
    ensures EraseStack(Collapse(stack)) == Collapse(EraseStack(stack))
    decreases |stack|
  {
    if |stack| > 1 && |stack[|stack| - 1]| > 0 {
      CloseErase(stack);
      CollapseErase(Close(stack));
    }
  }

  lemma {:induction false} WordLengthOf(word: string, rest: string)
    requires forall c | c in word :: !IsSpace(c)
    ensures WordLength(word + (" " + rest)) == |word|
  {
    if word != "" {
      assert word[0] in word;
      assert (word + (" " + rest))[1..] == word[1..] + (" " + rest);
      WordLengthOf(word[1..], rest);
    }
  }

  lemma RawIsWord(w: Word)
    requires PlainWord(w)
    ensures Raw(w) != "" && Raw(w)[0] != '#' && (forall c | c in Raw(w) :: !IsSpace(c))
    ensures forall line, col :: EraseWord(SplitWord(Raw(w), line, col)) == EraseWord(w)
  {
    if !w.ends {
      assert w.text[|w.text| - 1] in w.text;
    }
  }

  lemma NoWords(line: int, col: int)
    ensures Words("", line, col) == [] && !EndsInWord("")
  {
  }

  /** Reading back a printed word list gives the same words. */
  lemma {:induction false} WordsOfSource(ws: seq<Word>, line: int, col: int)
    requires forall w | w in ws :: PlainWord(w)
    ensures EraseWords(Words(Source(ws), line, col)) == EraseWords(ws)
    ensures !EndsInWord(Source(ws))
    decreases |ws|
  {
    hide Words, EndsInWord, Raw, WordLength, PlainWord, SplitWord;
    NoWords(line, col);
    if ws != [] {
      var raw, later := Raw(ws[0]), Source(ws[1..]);
      assert ws[0] in ws;
      WordsOfSource(ws[1..], line, col + |raw| + 1);
      RawIsWord(ws[0]);
      FirstWord(raw, later, line, col);
      var rest := Words(later, line, col + |raw| + 1);
      assert ([SplitWord(raw, line, col)] + rest)[1..] == rest;
    }
  }

  lemma FirstWord(raw: string, later: string, line: int, col: int)
    requires raw != "" && raw[0] != '#' && forall c | c in raw :: !IsSpace(c)
    ensures Words(raw + (" " + later), line, col) == [SplitWord(raw, line, col)] + Words(later, line, col + |raw| + 1)
    ensures EndsInWord(raw + (" " + later)) == EndsInWord(later)
  {
    hide Words, EndsInWord, WordLength, SplitWord;
    var s, n := raw + (" " + later), |raw|;
    WordLengthOf(raw, later);
    assert s[0] == raw[0] && raw[0] in raw;
    assert s[..n] == raw && s[n..] == " " + later;
    FirstWordSplit(s, n, later, line, col);
  }

  lemma FirstWordSplit(s: string, n: nat, later: string, line: int, col: int)
    requires s != "" && !IsSpace(s[0]) && s[0] != '#' && n == WordLength(s) < |s|
    requires s[n..] == " " + later
    ensures Words(s, line, col) == [SplitWord(s[..n], line, col)] + Words(later, line, col + n + 1)
    ensures EndsInWord(s) == EndsInWord(later)
  {
    hide WordLength, SplitWord, Words, EndsInWord;
    WordThenRest(s, line, col);
    SpaceThenRest(later, line, col + n);
  }

  lemma WordThenRest(s: string, line: int, col: int)
    requires s != "" && !IsSpace(s[0]) && s[0] != '#' && WordLength(s) < |s|
    ensures var n := WordLength(s);
      Words(s, line, col) == [SplitWord(s[..n], line, col)] + Words(s[n..], line, col + n)
    ensures EndsInWord(s) == EndsInWord(s[WordLength(s)..])
  {
    hide WordLength, SplitWord, AfterComment, EndsAfterComment;
  }

  lemma SpaceThenRest(later: string, line: int, col: int)
    ensures Words(" " + later, line, col) == Words(later, line, col + 1)
    ensures EndsInWord(" " + later) == EndsInWord(later)
  {
    hide WordLength, SplitWord, AfterComment, EndsAfterComment;
    assert (" " + later)[1..] == later;
  }

  lemma {:induction false} PrintPlain(es: seq<Elem>, opens: set<string>)
    requires forall i | 0 <= i < |es| :: PrintableElem(es[i], opens)
    ensures forall w | w in Print(es) :: PlainWord(w)
  {
    if es != [] {
      assert PrintableElem(es[0], opens);
      PrintPlain(es[1..], opens);
      if es[0].Block? {
        PrintPlain(es[0].elems, opens);
      }
    }
  }

  /** Round trip through text: scanning the printed source of a tree rebuilds that tree. */
  lemma ScanOfSource(es: seq<Elem>, opens: set<string>)
    requires "" !in opens && Printable(es, opens)
    ensures Erase(Collapse(OpenBlocks(Source(Print(es)), opens))[0]) == Erase(es)
  {
    hide PushAll, Words, EndsInWord, Print, Source, EraseWords, Collapse;
    var ws, text := Print(es), Source(Print(es));
    PrintPlain(es, opens);
    WordsOfSource(ws, 1, 0);
    var empty: Stack := [[]];
    assert EraseStack(empty) == empty;
    calc {
      EraseStack(Collapse(PushAll(empty, Words(text, 1, 0), false, opens)));
      { CollapseErase(PushAll(empty, Words(text, 1, 0), false, opens)); }
      Collapse(EraseStack(PushAll(empty, Words(text, 1, 0), false, opens)));
      { PushAllErase(empty, Words(text, 1, 0), opens); }
      Collapse(PushAll(empty, EraseWords(ws), false, opens));
      { PushAllErase(empty, ws, opens); }
      Collapse(EraseStack(PushAll(empty, ws, false, opens)));
      { CollapseErase(PushAll(empty, ws, false, opens)); }
      EraseStack(Collapse(PushAll(empty, ws, false, opens)));
      { ScanOfPrint(es, opens); }
      EraseStack([es]);
    }
    assert EraseStack([es])[0] == Erase(es);
    assert EraseStack(Collapse(OpenBlocks(text, opens)))[0] == Erase(Collapse(OpenBlocks(text, opens))[0]);
  }
}
