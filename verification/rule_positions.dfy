/** Where the compiler says a token stands. */
module RulePositions {
  import opened RuleScanner

  /** Line and column of an offset: lines count from one, and so do columns, except on the first line. */
  function Place(src: string, i: nat): (int, int)
    requires i <= |src|
  {
    if i == 0 then (1, 0)
    else
      var (line, col) := Place(src, i - 1);
      if src[i - 1] == '\n' then (line + 1, 1) else (line, col + 1)
  }

  /** The word's text is at offset `i`, and the word says so. */
  predicate Stands(src: string, i: nat, w: Word) {
    && i + |w.text| <= |src| && src[i..i + |w.text|] == w.text
    && (w.line, w.col) == Place(src, i)
  }

  lemma {:induction false} SameLine(src: string, k: nat, m: nat)
    requires k <= m <= |src| && forall j | k <= j < m :: src[j] != '\n'
    ensures Place(src, m) == (Place(src, k).0, Place(src, k).1 + (m - k))
    decreases m
  {
    if k < m {
      SameLine(src, k, m - 1);
    }
  }

  lemma {:induction false} WordChars(s: string)
    ensures forall j | 0 <= j < WordLength(s) :: !IsSpace(s[j])
  {
    if s != "" && !IsSpace(s[0]) {
      WordChars(s[1..]);
      forall j | 0 <= j < WordLength(s) ensures !IsSpace(s[j]) {
        if j > 0 {
          assert s[j] == s[1..][j - 1];
        }
      }
    }
  }

  lemma {:induction false} CommentChars(s: string)
    ensures forall j | 0 <= j < CommentLength(s) :: !IsLineEnd(s[j])
    ensures CommentLength(s) < |s| ==> IsLineEnd(s[CommentLength(s)])
  {
    if s != "" && !IsLineEnd(s[0]) {
      CommentChars(s[1..]);
      forall j | 0 <= j < CommentLength(s) ensures !IsLineEnd(s[j]) {
        if j > 0 {
          assert s[j] == s[1..][j - 1];
        }
      }
    }
  }

  /** The offsets of the words of a text that begins at offset `k`. */
  function Offsets(s: string, k: nat): seq<nat>
    decreases |s|
  {
    if s == "" then []
    else if IsSpace(s[0]) then Offsets(s[1..], k + 1)
    else if s[0] == '#' then
      var n := CommentLength(s[1..]);
      if n == |s| - 1 then [] else Offsets(s[n + 2..], k + n + 2)
    else
      var n := WordLength(s);
      [k] + Offsets(s[n..], k + n)
  }

  /** A comment that ends with a carriage return is followed by a word. */
  predicate Slips(s: string)
    decreases |s|
  {
    if s == "" then false
    else if IsSpace(s[0]) then Slips(s[1..])
    else if s[0] == '#' then
      var n := CommentLength(s[1..]);
      n < |s| - 1 && ((s[n + 1] == '\r' && Offsets(s[n + 2..], 0) != []) || Slips(s[n + 2..]))
    else Slips(s[WordLength(s)..])
  }

  /** Every word stands at its offset, and its position says so. */
  predicate Told(src: string, ws: seq<Word>, offsets: seq<nat>) {
    |ws| == |offsets| && forall j | 0 <= j < |ws| :: Stands(src, offsets[j], ws[j])
  }

  /** No word is on the line it is reported on. */
  predicate TooFarDown(src: string, ws: seq<Word>, offsets: seq<nat>) {
    |ws| == |offsets| && forall j | 0 <= j < |ws| :: Below(src, ws[j], offsets[j])
  }

  /** How many characters are scanned before the next word is looked for, and whether a word was among them. */
  lemma OffsetsPart(s: string, k: nat) returns (n: nat)
    requires s != ""
    ensures n == (if IsSpace(s[0]) then 1 else if s[0] == '#' then CommentLength(s[1..]) + 2 else WordLength(s)) > 0
    ensures n > |s| ==> Offsets(s, k) == []
    ensures n <= |s| ==>
      Offsets(s, k) == (if IsSpace(s[0]) || s[0] == '#' then [] else [k]) + Offsets(s[n..], k + n)
  {
    hide WordLength, CommentLength;
    n := if IsSpace(s[0]) then 1 else if s[0] == '#' then CommentLength(s[1..]) + 2 else WordLength(s);
    if !IsSpace(s[0]) && s[0] != '#' {
      WordSome(s);
    }
  }

  lemma {:induction false} AnyStart(s: string, k: nat, m: nat)
    ensures |Offsets(s, k)| == |Offsets(s, m)|
    decreases |s|
  {
    hide WordLength, CommentLength, Offsets;
    if s == "" {
      NoOffsets(k);
      NoOffsets(m);
    } else {
      var n := OffsetsPart(s, k);
      var _ := OffsetsPart(s, m);
      if n <= |s| {
        AnyStart(s[n..], k + n, m + n);
      }
    }
  }

  lemma NoOffsets(k: nat)
    ensures Offsets("", k) == []
  {
  }

  // ---------------------------------------------------------------------
  // One piece of text at a time
  // ---------------------------------------------------------------------

  lemma SpaceStep(src: string, k: nat, line: int, col: int)
    requires k < |src| && IsSpace(src[k])
    ensures var s, down := src[k..], src[k] == '\n';
      && Words(s, line, col) == Words(src[k + 1..], if down then line + 1 else line, if down then 1 else col + 1)
      && Offsets(s, k) == Offsets(src[k + 1..], k + 1) && Slips(s) == Slips(src[k + 1..])
      && Place(src, k + 1) == if down then (Place(src, k).0 + 1, 1) else (Place(src, k).0, Place(src, k).1 + 1)
  {
    hide SplitWord, WordLength, CommentLength;
    assert src[k..][1..] == src[k + 1..];
  }

  lemma FirstComment(s: string, k: nat, line: int, col: int)
    requires s != "" && s[0] == '#'
    ensures var n := CommentLength(s[1..]);
      if n == |s| - 1 then Words(s, line, col) == [] && Offsets(s, k) == [] && !Slips(s)
      else
        && Words(s, line, col) == Words(s[1..][n + 1..], line + 1, 1) && Offsets(s, k) == Offsets(s[n + 2..], k + n + 2)
        && (Slips(s) <==> (s[n + 1] == '\r' && Offsets(s[n + 2..], 0) != []) || Slips(s[n + 2..]))
  {
    hide SplitWord, WordLength, CommentLength;
  }

  lemma CommentStep(src: string, k: nat, line: int, col: int) returns (m: nat)
    requires k < |src| && src[k] == '#'
    ensures k < m <= |src| + 1
    ensures m > |src| ==> Words(src[k..], line, col) == [] && Offsets(src[k..], k) == [] && !Slips(src[k..])
    ensures m <= |src| ==>
      && Words(src[k..], line, col) == Words(src[m..], line + 1, 1) && Offsets(src[k..], k) == Offsets(src[m..], m)
      && (Slips(src[k..]) <==> (src[m - 1] == '\r' && Offsets(src[m..], 0) != []) || Slips(src[m..]))
      && IsLineEnd(src[m - 1]) && (src[m - 1] == '\n' ==> Place(src, m) == (Place(src, k).0 + 1, 1))
      && (src[m - 1] != '\n' ==> Place(src, m).0 == Place(src, k).0)
  {
    hide SplitWord, WordLength, CommentLength, Place, Words, Offsets, Slips;
    var s := src[k..];
    var t := s[1..];
    var n := CommentLength(t);
    CommentChars(t);
    FirstComment(s, k, line, col);
    m := k + n + 2;
    if n < |t| {
      assert t[n] == src[m - 1] && t[n + 1..] == src[m..] && s[n + 2..] == src[m..] && s[n + 1] == src[m - 1];
      forall j | k <= j < m - 1 ensures src[j] != '\n' {
        assert j > k ==> src[j] == t[j - k - 1];
      }
      SameLine(src, k, m - 1);
      PlaceStep(src, m - 1);
    }
  }

  lemma PlaceStep(src: string, i: nat)
    requires i < |src|
    ensures Place(src, i + 1) ==
      if src[i] == '\n' then (Place(src, i).0 + 1, 1) else (Place(src, i).0, Place(src, i).1 + 1)
  {
  }

  lemma WordSome(s: string)
    requires s != "" && !IsSpace(s[0])
    ensures 0 < WordLength(s)
  {
  }

  lemma FirstWord(s: string, k: nat, line: int, col: int)
    requires s != "" && !IsSpace(s[0]) && s[0] != '#'
    ensures var n := WordLength(s);
      && Words(s, line, col) == [SplitWord(s[..n], line, col)] + Words(s[n..], line, col + n)
      && Offsets(s, k) == [k] + Offsets(s[n..], k + n) && Slips(s) == Slips(s[n..])
  {
    hide SplitWord, CommentLength, WordLength;
    WordSome(s);
  }

  lemma WordStep(src: string, k: nat, line: int, col: int) returns (n: nat)
    requires k < |src| && !IsSpace(src[k]) && src[k] != '#'
    ensures 0 < n <= |src| - k
    ensures Words(src[k..], line, col) ==
      [SplitWord(src[k..k + n], line, col)] + Words(src[k + n..], line, col + n)
    ensures Offsets(src[k..], k) == [k] + Offsets(src[k + n..], k + n) && Slips(src[k..]) == Slips(src[k + n..])
    ensures Place(src, k + n) == (Place(src, k).0, Place(src, k).1 + n)
  {
    hide SplitWord, CommentLength, Place, WordLength, Words, Offsets, Slips;
    var s := src[k..];
    n := WordLength(s);
    WordSome(s);
    WordChars(s);
    FirstWord(s, k, line, col);
    assert s[..n] == src[k..k + n] && s[n..] == src[k + n..];
    forall j | k <= j < k + n ensures src[j] != '\n' {
      assert src[j] == s[j - k];
    }
    SameLine(src, k, k + n);
  }

  /** A word at offset `k`. */
  lemma WordStands(src: string, k: nat, n: nat, line: int, col: int)
    requires k + n <= |src| && (line, col) == Place(src, k)
    ensures Stands(src, k, SplitWord(src[k..k + n], line, col))
  {
    var raw := src[k..k + n];
    if raw != "" && raw[|raw| - 1] == ';' {
      assert raw[..|raw| - 1] == src[k..k + (n - 1)];
    }
  }

  lemma SplitKeepsLine(raw: string, line: int, col: int)
    ensures SplitWord(raw, line, col).line == line
  {
  }

  // ---------------------------------------------------------------------
  // Whole texts
  // ---------------------------------------------------------------------

  lemma ConsTold(src: string, w: Word, ws: seq<Word>, i: nat, offsets: seq<nat>)
    ensures Told(src, [w] + ws, [i] + offsets) <==> Stands(src, i, w) && Told(src, ws, offsets)
  {
    hide Stands;
    var all, at := [w] + ws, [i] + offsets;
    if Told(src, all, at) {
      assert Stands(src, at[0], all[0]);
      forall j | 0 <= j < |ws| ensures Stands(src, offsets[j], ws[j]) {
        assert Stands(src, at[j + 1], all[j + 1]);
      }
    }
    if Stands(src, i, w) && Told(src, ws, offsets) {
      forall j | 0 <= j < |all| ensures Stands(src, at[j], all[j]) {
        assert j > 0 ==> Stands(src, offsets[j - 1], ws[j - 1]);
      }
    }
  }

  predicate Below(src: string, w: Word, i: nat) {
    i <= |src| && w.line > Place(src, i).0
  }

  lemma ConsTooFar(src: string, w: Word, ws: seq<Word>, i: nat, offsets: seq<nat>)
    requires Below(src, w, i) && TooFarDown(src, ws, offsets)
    ensures TooFarDown(src, [w] + ws, [i] + offsets)
  {
    hide Below;
    var all, at := [w] + ws, [i] + offsets;
    forall j | 0 <= j < |all| ensures Below(src, all[j], at[j]) {
      assert j > 0 ==> Below(src, ws[j - 1], offsets[j - 1]);
    }
  }

  /** Once the count is ahead it stays ahead. */
  lemma {:induction false} Ahead(src: string, k: nat, line: int, col: int)
    requires k <= |src| && line > Place(src, k).0
    ensures TooFarDown(src, Words(src[k..], line, col), Offsets(src[k..], k))
    decreases |src| - k
  {
    hide Words, Offsets, Place, TooFarDown, Slips;
    if k == |src| {
      NothingLeft(src, line, col);
    } else if IsSpace(src[k]) {
      SpaceStep(src, k, line, col);
      var down := src[k] == '\n';
      Ahead(src, k + 1, if down then line + 1 else line, if down then 1 else col + 1);
    } else if src[k] == '#' {
      var m := CommentStep(src, k, line, col);
      if m > |src| {
        NothingLeft(src, line, col);
      } else {
        Ahead(src, m, line + 1, 1);
      }
    } else {
      var n := WordStep(src, k, line, col);
      Ahead(src, k + n, line, col + n);
      var w := SplitWord(src[k..k + n], line, col);
      SplitKeepsLine(src[k..k + n], line, col);
      ConsTooFar(src, w, Words(src[k + n..], line, col + n), k, Offsets(src[k + n..], k + n));
    }
  }

  lemma NothingLeft(src: string, line: int, col: int)
    ensures Words(src[|src|..], line, col) == [] && Offsets(src[|src|..], |src|) == [] && !Slips(src[|src|..])
    ensures TooFarDown(src, [], []) && Told(src, [], [])
  {
  }

  lemma Wrong(src: string, ws: seq<Word>, offsets: seq<nat>)
    requires TooFarDown(src, ws, offsets) && offsets != []
    ensures !Told(src, ws, offsets)
  {
    hide Place;
    assert Below(src, ws[0], offsets[0]);
    assert !Stands(src, offsets[0], ws[0]);
  }

  lemma {:induction false} ToldFrom(src: string, k: nat, line: int, col: int)
    requires k <= |src| && (line, col) == Place(src, k)
    ensures Told(src, Words(src[k..], line, col), Offsets(src[k..], k)) <==> !Slips(src[k..])
    decreases |src| - k
  {
    hide Words, Offsets, Place, Told, Slips, Stands;
    if k == |src| {
      NothingLeft(src, line, col);
    } else if IsSpace(src[k]) {
      SpaceStep(src, k, line, col);
      var down := src[k] == '\n';
      ToldFrom(src, k + 1, if down then line + 1 else line, if down then 1 else col + 1);
    } else if src[k] == '#' {
      var m := CommentStep(src, k, line, col);
      if m > |src| {
        NothingLeft(src, line, col);
      } else if src[m - 1] == '\n' {
        ToldFrom(src, m, line + 1, 1);
      } else {
        AfterSlip(src, m, line + 1);
      }
    } else {
      var n := WordStep(src, k, line, col);
      ToldFrom(src, k + n, line, col + n);
      WordStands(src, k, n, line, col);
      var w := SplitWord(src[k..k + n], line, col);
      ConsTold(src, w, Words(src[k + n..], line, col + n), k, Offsets(src[k + n..], k + n));
    }
  }

  lemma AfterSlip(src: string, m: nat, line: int)
    requires 0 < m <= |src| && src[m - 1] == '\r' && line > Place(src, m).0
    ensures var offsets := Offsets(src[m..], m);
      && |offsets| == |Offsets(src[m..], 0)|
      && (offsets == [] ==> !Slips(src[m..]))
      && (Told(src, Words(src[m..], line, 1), offsets) <==> offsets == [])
  {
    hide Words, Offsets, Place, Told, Slips, Stands, TooFarDown;
    AnyStart(src[m..], m, 0);
    Ahead(src, m, line, 1);
    var ws, offsets := Words(src[m..], line, 1), Offsets(src[m..], m);
    NoWordNoSlip(src[m..], m);
    if offsets == [] {
      SameLength(src, ws, offsets);
      NothingLeft(src, line, 1);
    } else {
      Wrong(src, ws, offsets);
    }
  }

  lemma SameLength(src: string, ws: seq<Word>, offsets: seq<nat>)
    requires TooFarDown(src, ws, offsets)
    ensures |ws| == |offsets|
  {
  }

  lemma {:induction false} NoWordNoSlip(s: string, k: nat)
    ensures Offsets(s, k) == [] ==> !Slips(s)
    decreases |s|
  {
    if s == "" {
    } else if IsSpace(s[0]) {
      NoWordNoSlip(s[1..], k + 1);
    } else if s[0] == '#' {
      var n := CommentLength(s[1..]);
      if n < |s| - 1 {
        NoWordNoSlip(s[n + 2..], k + n + 2);
        AnyStart(s[n + 2..], k + n + 2, 0);
      }
    }
  }

  /** The words stand where their positions say, if and only if no comment that ends with CR is followed by a word. */
  lemma PositionsExact(src: string)
    ensures Told(src, Words(src, 1, 0), Offsets(src, 0)) <==> !Slips(src)
  {
    hide Words, Offsets, Told, Slips;
    assert src[0..] == src;
    ToldFrom(src, 0, 1, 0);
  }

  /** A comment that ends with CR and LF counts as two lines, so what follows is reported one line too far down. */
  lemma CommentLineCountsTwice()
    ensures var src := "#\r\nx"; Words(src, 1, 0) == [Word("x", false, 3, 1)] && Place(src, 3) == (2, 1)
  {
    var src := "#\r\nx";
    assert src[1..] == "\r\nx" && CommentLength("\r\nx") == 0;
    assert "\r\nx"[1..] == "\nx" && "\nx"[1..] == "x" && "x"[1..] == "";
    assert WordLength("x") == 1 + WordLength("") == 1 && "x"[..1] == "x";
    assert Words("x", 3, 1) == [SplitWord("x", 3, 1)] + Words("", 3, 2);
    assert Words("\nx", 2, 1) == Words("x", 3, 1);
    assert Place(src, 1) == (1, 1) && Place(src, 2) == (1, 2) && Place(src, 3) == (2, 1);
  }
}
