/** Pass 2 of the flow-rule compiler, and the three passes together. */
module RuleCompiler {
  import opened Basics
  import opened RuleText
  import opened RuleScanner
  import opened RuleMatches
  import opened RuleActions
  import opened RuleStack

  /** A capability whose rules are still a tree. */
  datatype CapTree = CapTree(name: string, id: int, default: bool, tree: seq<Elem>)

  /** What pass 2 has collected. Capabilities keep the order of their definitions. */
  datatype Program = Program(macros: Macros, tags: map<string, Tag>, caps: seq<CapTree>, base: seq<Elem>)

  predicate ValidName(n: string, lang: Language) {
    && n != "" && !('0' <= n[0] <= '9')
    && forall c | c in n :: c == '_' || lang.alphanumeric(c)
  }

  function NumberOf(e: Elem): int {
    if e.Tok? then ParseNum(e.text) else -1
  }

  function Throw<T>(): Result<T> {
    Err(Error(Nowhere, Exception))
  }

  // ---------------------------------------------------------------------
  // Macros
  // ---------------------------------------------------------------------

  /** The positions of the parameters among the first `n` pieces. A repeated name keeps its last position. */
  function ParamPositions(parts: seq<string>, n: nat): (m: map<string, nat>)
    requires n <= |parts|
    ensures forall p | p in m :: m[p] < n && parts[m[p]] == p && p != ""
    ensures forall i | 0 <= i < n && parts[i] != "" :: parts[i] in m && i <= m[parts[i]]
  {
    if n == 0 then map[]
    else
      var m := ParamPositions(parts, n - 1);
      if parts[n - 1] != "" then m[parts[n - 1] := n - 1] else m
  }

  /** A macro definition block: its name with optional parameters, then its rules. */
  function MacroOf(block: seq<Elem>, p: Program, lang: Language): Result<Program>
    requires block != []
  {
    if block[0].Block? then Throw()
    else
      var text := Lower(block[0].text);
      var paren := IndexOf(text, '(');
      var name := if paren > 0 then text[..paren] else text;
      var parts := if paren > 0 then SplitRuns(text[paren + 1..], {',', ')'}) else [];
      if !ValidName(name, lang) then Failure(block[0], BadName)
      else if name in lang.reserved then Failure(block[0], ReservedName)
      else if name in p.macros then Failure(block[0], DuplicateName)
      else Ok(p.(macros := p.macros[name := Macro(ParamPositions(parts, |parts|), block[1..])]))
  }

  // ---------------------------------------------------------------------
  // Tags
  // ---------------------------------------------------------------------

  datatype TagState = TagState(id: int, default: Option<Elem>, enums: map<string, int>, flags: map<string, bv32>)

  /** The union of named flags and numbered bits. */
  function FlagMask(parts: seq<string>, mask: bv32, flags: map<string, bv32>): Option<bv32> {
    if parts == [] then Some(mask)
    else
      var b := Lower(parts[0]);
      if b in flags then FlagMask(parts[1..], Join(mask, flags[b]), flags)
      else
        var bit := ParseNum(b);
        if bit < 0 || bit > 31 then None else FlagMask(parts[1..], Raise(mask, bit), flags)
  }

  function TagIdStep(ts: seq<Elem>, st: TagState): Result<TagState>
    requires ts != []
  {
    if st.id >= 0 then Failure(ts[0], DuplicateId)
    else if |ts| < 2 then Failure(ts[0], MissingValue)
    else if NumberOf(ts[1]) < 0 || NumberOf(ts[1]) > U32_MAX then Failure(ts[1], BadId)
    else Ok(st.(id := NumberOf(ts[1])))
  }

  function TagDefaultStep(ts: seq<Elem>, st: TagState): Result<TagState>
    requires ts != []
  {
    if st.default.Some? then Failure(ts[0], DuplicateDefault)
    else if |ts| < 2 then Failure(ts[0], MissingValue)
    else Ok(st.(default := Some(ts[1])))
  }

  function TagFlagStep(ts: seq<Elem>, st: TagState, lang: Language): Result<TagState>
    requires ts != []
  {
    if |ts| < 3 then Failure(ts[0], MissingValue)
    else if ts[1].Block? then Throw()
    else
      match FlagMask(SplitRuns(ts[1].text, {','}), 0, st.flags)
      case None => Failure(ts[1], BadFlagBit)
      case Some(mask) =>
        if ts[2].Block? then Throw()
        else if !ValidName(Lower(ts[2].text), lang) then Failure(ts[2], BadName)
        else if Lower(ts[2].text) in st.flags then Failure(ts[2], DuplicateName)
        else Ok(st.(flags := st.flags[Lower(ts[2].text) := mask]))
  }

  function TagEnumStep(ts: seq<Elem>, st: TagState, lang: Language): Result<TagState>
    requires ts != []
  {
    if |ts| < 3 then Failure(ts[0], MissingValue)
    else if NumberOf(ts[1]) < 0 || NumberOf(ts[1]) > U32_MAX then Failure(ts[1], BadEnumValue)
    else if ts[2].Block? then Throw()
    else if !ValidName(Lower(ts[2].text), lang) then Failure(ts[2], BadName)
    else if Lower(ts[2].text) in st.enums then Failure(ts[2], DuplicateName)
    else Ok(st.(enums := st.enums[Lower(ts[2].text) := NumberOf(ts[1])]))
  }

  /** One directive of a tag definition. */
  function TagStep(ts: seq<Elem>, st: TagState, lang: Language): Result<TagState>
    requires ts != []
  {
    if ts[0].Block? then Throw()
    else if Lower(ts[0].text) !in lang.tagWords then Failure(ts[0], UnknownTagKeyword)
    else
      match lang.tagWords[Lower(ts[0].text)]
      case TagId => TagIdStep(ts, st)
      case TagDefaultWord => TagDefaultStep(ts, st)
      case TagFlag => TagFlagStep(ts, st, lang)
      case TagEnum => TagEnumStep(ts, st, lang)
  }

  function TagWordLength(e: Elem, lang: Language): nat {
    if e.Tok? && Lower(e.text) in lang.tagWords && lang.tagWords[Lower(e.text)] in {TagFlag, TagEnum} then 3 else 2
  }

  function TagBody(ts: seq<Elem>, st: TagState, lang: Language): Result<TagState>
    decreases |ts|
  {
    if ts == [] then Ok(st)
    else
      match TagStep(ts, st, lang)
      case Err(error) => Err(error)
      case Ok(st') =>
        var n := TagWordLength(ts[0], lang);
        if n > |ts| then Throw() else TagBody(ts[n..], st', lang)
  }

  /** `Math.abs(n) & 0xffffffff`. */
  function ToInt32(n: int): int {
    var a := (if n < 0 then -n else n) % 0x1_0000_0000;
    if a < 0x8000_0000 then a else a - 0x1_0000_0000
  }

  function DefaultOf(st: TagState): TagDefault {
    match st.default
    case None => NoDefault
    case Some(Block(_)) => BlockDefault
    case Some(Tok(text, _, _)) =>
      if text in st.enums then Default(st.enums[text])
      else if text in st.flags then Default(Signed(st.flags[text]))
      else
        var t := TrimLeft(text);
        match ParseInt(text, if |t| >= 2 && t[0] == '0' && (t[1] == 'x' || t[1] == 'X') then 16 else 10)
        case Some(v) => Default(ToInt32(v))
        case None => Default(0)
  }

  const NEW_TAG: TagState := TagState(-1, None, map[], map[])

  function TagOf(block: seq<Elem>, p: Program, lang: Language): Result<Program>
    requires block != []
  {
    if block[0].Block? then Throw()
    else
      var name := Lower(block[0].text);
      if !ValidName(name, lang) then Failure(block[0], BadName)
      else if name in lang.reserved then Failure(block[0], ReservedName)
      else if name in p.tags then Failure(block[0], DuplicateName)
      else
        match TagBody(block[1..], NEW_TAG, lang)
        case Err(error) => Err(error)
        case Ok(st) =>
          if st.id < 0 then Failure(block[0], MissingId)
          else Ok(p.(tags := p.tags[name := Tag(st.id, DefaultOf(st), st.enums, st.flags)]))
  }

  // ---------------------------------------------------------------------
  // Capabilities
  // ---------------------------------------------------------------------

  datatype CapState = CapState(id: int, default: bool, tree: seq<Elem>)

  predicate IsWord(e: Elem, word: TagWord, lang: Language) {
    e.Tok? && Lower(e.text) in lang.tagWords && lang.tagWords[Lower(e.text)] == word
  }

  predicate IdTaken(id: int, caps: seq<CapTree>) {
    exists i | 0 <= i < |caps| :: caps[i].id == id
  }

  /** The directives `id` and `default` are taken out; everything else is the capability's rule tree. */
  function CapBody(ts: seq<Elem>, st: CapState, caps: seq<CapTree>, lang: Language): Result<CapState>
    decreases |ts|
  {
    if ts == [] then Ok(st)
    else if IsWord(ts[0], TagId, lang) then
      if st.id >= 0 then Failure(ts[0], DuplicateId)
      else if |ts| < 2 then Failure(ts[0], MissingValue)
      else if NumberOf(ts[1]) < 0 || NumberOf(ts[1]) > U32_MAX then Failure(ts[0], BadId)
      else if IdTaken(NumberOf(ts[1]), caps) then Failure(ts[0], DuplicateId)
      else CapBody(ts[2..], st.(id := NumberOf(ts[1])), caps, lang)
    else if IsWord(ts[0], TagDefaultWord, lang) then CapBody(ts[1..], st.(default := true), caps, lang)
    else CapBody(ts[1..], st.(tree := st.tree + [ts[0]]), caps, lang)
  }

  const NEW_CAP: CapState := CapState(-1, false, [])

  predicate NameTaken(name: string, caps: seq<CapTree>) {
    exists i | 0 <= i < |caps| :: caps[i].name == name
  }

  function CapOf(block: seq<Elem>, p: Program, lang: Language): Result<Program>
    requires block != []
  {
    if block[0].Block? then Throw()
    else
      var name := Lower(block[0].text);
      if !ValidName(name, lang) then Failure(block[0], BadName)
      else if name in lang.reserved then Failure(block[0], ReservedName)
      else if NameTaken(name, p.caps) then Failure(block[0], DuplicateName)
      else
        match CapBody(block[1..], NEW_CAP, p.caps, lang)
        case Err(error) => Err(error)
        case Ok(st) =>
          if st.id < 0 then Failure(block[0], MissingId)
          else Ok(p.(caps := p.caps + [CapTree(name, st.id, st.default, st.tree)]))
  }

  // ---------------------------------------------------------------------
  // Pass 2
  // ---------------------------------------------------------------------

  predicate IsDefinition(e: Elem, lang: Language) {
    e.Tok? && Lower(e.text) in lang.definitions
  }

  function Define(what: Definition, block: seq<Elem>, p: Program, lang: Language): Result<Program>
    requires block != []
  {
    match what
    case DefineMacro => MacroOf(block, p, lang)
    case DefineTag => TagOf(block, p, lang)
    case DefineCap => CapOf(block, p, lang)
  }

  function Split(es: seq<Elem>, p: Program, lang: Language): Result<Program>
    decreases |es|
  {
    if es == [] then Ok(p)
    else if !IsDefinition(es[0], lang) then Split(es[1..], p.(base := p.base + [es[0]]), lang)
    else if !HasBlock(es) then Failure(es[0], MissingDefinition)
    else
      match Define(lang.definitions[Lower(es[0].text)], es[1].elems, p, lang)
      case Err(error) => Err(error)
      case Ok(p') => Split(es[2..], p', lang)
  }

  const EMPTY: Program := Program(map[], map[], [], [])

  method DefineTagBlock(block: seq<Elem>, lang: Language) returns (r: Result<TagState>)
    requires block != []
    ensures r == TagBody(block[1..], NEW_TAG, lang)
  {
    hide TagStep;
    var st := NEW_TAG;
    var k := 1;
    while k < |block|
      invariant 1 <= k <= |block|
      invariant TagBody(block[1..], NEW_TAG, lang) == TagBody(block[k..], st, lang)
    {
      assert block[k..][0] == block[k];
      var next := TagStep(block[k..], st, lang);
      if next.Err? {
        return next;
      }
      var n := TagWordLength(block[k], lang);
      if k + n > |block| {
        return Throw();
      }
      assert block[k..][n..] == block[k + n..];
      st := next.value;
      k := k + n;
    }
    r := Ok(st);
  }

  method DefineCapBlock(block: seq<Elem>, caps: seq<CapTree>, lang: Language) returns (r: Result<CapState>)
    requires block != []
    ensures r == CapBody(block[1..], NEW_CAP, caps, lang)
  {
    var id, dfl := -1, false;
    var capRules: seq<Elem> := [];
    var k := 1;
    while k < |block|
      invariant 1 <= k <= |block|
      invariant CapBody(block[1..], NEW_CAP, caps, lang) == CapBody(block[k..], CapState(id, dfl, capRules), caps, lang)
    {
      ghost var ts := block[k..];
      assert ts[0] == block[k] && ts[1..] == block[k + 1..];
      if IsWord(block[k], TagId, lang) {
        if id >= 0 {
          return Failure(block[k], DuplicateId);
        }
        if k + 1 >= |block| {
          return Failure(block[k], MissingValue);
        }
        assert ts[1] == block[k + 1] && ts[2..] == block[k + 2..];
        k := k + 1;
        id := NumberOf(block[k]);
        if id < 0 || id > U32_MAX {
          return Failure(block[k - 1], BadId);
        }
        for i := 0 to |caps|
          invariant forall j | 0 <= j < i :: caps[j].id != id
        {
          if caps[i].id == id {
            return Failure(block[k - 1], DuplicateId);
          }
        }
      } else if IsWord(block[k], TagDefaultWord, lang) {
        dfl := true;
      } else {
        capRules := capRules + [block[k]];
      }
      k := k + 1;
    }
    r := Ok(CapState(id, dfl, capRules));
  }

  /** Pass 2 of `compile`. */
  method SplitTree(parsed: seq<Elem>, lang: Language) returns (r: Result<Program>)
    ensures r == Split(parsed, EMPTY, lang)
  {
    hide MacroOf, TagBody, CapBody, ValidName, DefaultOf;
    var p := EMPTY;
    var i := 0;
    assert parsed[0..] == parsed;
    while i < |parsed|
      invariant 0 <= i <= |parsed|
      invariant Split(parsed, EMPTY, lang) == Split(parsed[i..], p, lang)
    {
      ghost var es := parsed[i..];
      assert es[0] == parsed[i] && es[1..] == parsed[i + 1..];
      if IsDefinition(parsed[i], lang) {
        if i + 1 >= |parsed| || parsed[i + 1].Tok? || parsed[i + 1].elems == [] {
          return Failure(parsed[i], MissingDefinition);
        }
        var block := parsed[i + 1].elems;
        assert es[1] == parsed[i + 1] && es[2..] == parsed[i + 2..];
        var next := DefineBlock(lang.definitions[Lower(parsed[i].text)], block, p, lang);
        if next.Err? {
          return next;
        }
        p := next.value;
        i := i + 1;
      } else {
        p := p.(base := p.base + [parsed[i]]);
      }
      i := i + 1;
    }
    r := Ok(p);
  }

  /** The loop over the pieces between a macro's parentheses. */
  method NumberParams(parts: seq<string>) returns (params: map<string, nat>)
    ensures params == ParamPositions(parts, |parts|)
  {
    params := map[];
    for k := 0 to |parts|
      invariant params == ParamPositions(parts, k)
    {
      if |parts[k]| > 0 {
        params := params[parts[k] := k];
      }
    }
  }

  lemma NoParams()
    ensures ParamPositions([], 0) == map[]
  {
  }

  method DefineMacroBlock(block: seq<Elem>, p: Program, lang: Language) returns (r: Result<Program>)
    requires block != []
    ensures r == MacroOf(block, p, lang)
  {
    hide ValidName, SplitRuns, IndexOf, Lower, ParamPositions;
    if block[0].Block? {
      return Throw();
    }
    var name := Lower(block[0].text);
    var paren := IndexOf(name, '(');
    var params: map<string, nat> := map[];
    if paren > 0 {
      params := NumberParams(SplitRuns(name[paren + 1..], {',', ')'}));
      name := name[..paren];
    } else {
      assert ParamPositions([], 0) == map[] by { NoParams(); }
    }
    if !ValidName(name, lang) {
      return Failure(block[0], BadName);
    }
    if name in lang.reserved {
      return Failure(block[0], ReservedName);
    }
    if name in p.macros {
      return Failure(block[0], DuplicateName);
    }
    r := Ok(p.(macros := p.macros[name := Macro(params, block[1..])]));
  }

  method DefineBlock(what: Definition, block: seq<Elem>, p: Program, lang: Language) returns (r: Result<Program>)
    requires block != []
    ensures r == Define(what, block, p, lang)
  {
    hide MacroOf, TagBody, CapBody, ValidName, DefaultOf;
    if what.DefineMacro? {
      r := DefineMacroBlock(block, p, lang);
      return;
    }
    if block[0].Block? {
      return Throw();
    }
    var name := Lower(block[0].text);
    if !ValidName(name, lang) {
      return Failure(block[0], BadName);
    }
    if name in lang.reserved {
      return Failure(block[0], ReservedName);
    }
    if what.DefineTag? {
      if name in p.tags {
        return Failure(block[0], DuplicateName);
      }
      var st := DefineTagBlock(block, lang);
      if st.Err? {
        return Err(st.error);
      }
      if st.value.id < 0 {
        return Failure(block[0], MissingId);
      }
      return Ok(p.(tags := p.tags[name := Tag(st.value.id, DefaultOf(st.value), st.value.enums, st.value.flags)]));
    } else {
      for i := 0 to |p.caps|
        invariant forall j | 0 <= j < i :: p.caps[j].name != name
      {
        if p.caps[i].name == name {
          return Failure(block[0], DuplicateName);
        }
      }
      var st := DefineCapBlock(block, p.caps, lang);
      if st.Err? {
        return Err(st.error);
      }
      if st.value.id < 0 {
        return Failure(block[0], MissingId);
      }
      return Ok(p.(caps := p.caps + [CapTree(name, st.value.id, st.value.default, st.value.tree)]));
    }
  }

  // ---------------------------------------------------------------------
  // What a successful pass 2 guarantees
  // ---------------------------------------------------------------------

  predicate NameOk(name: string, lang: Language) {
    ValidName(name, lang) && name !in lang.reserved
  }

  predicate IdOk(id: int) {
    0 <= id <= U32_MAX
  }

  predicate TagOk(tag: Tag) {
    IdOk(tag.id) && forall e | e in tag.enums :: IdOk(tag.enums[e])
  }

  /** Names are legal, identifiers are in range, and no two capabilities share a name or an identifier. */
  predicate ProgramOk(p: Program, lang: Language) {
    && (forall m | m in p.macros :: NameOk(m, lang))
    && (forall t | t in p.tags :: NameOk(t, lang) && TagOk(p.tags[t]))
    && (forall i | 0 <= i < |p.caps| :: NameOk(p.caps[i].name, lang) && IdOk(p.caps[i].id))
    && (forall i, j | 0 <= i < j < |p.caps| :: p.caps[i].id != p.caps[j].id && p.caps[i].name != p.caps[j].name)
  }

  predicate TagStateOk(st: TagState) {
    -1 <= st.id <= U32_MAX && forall e | e in st.enums :: IdOk(st.enums[e])
  }

  lemma {:induction false} TagBodyOk(ts: seq<Elem>, st: TagState, lang: Language)
    requires TagStateOk(st)
    ensures TagBody(ts, st, lang).Ok? ==> TagStateOk(TagBody(ts, st, lang).value)
    decreases |ts|
  {
    if ts != [] && TagStep(ts, st, lang).Ok? && TagWordLength(ts[0], lang) <= |ts| {
      TagStepOk(ts, st, lang);
      TagBodyOk(ts[TagWordLength(ts[0], lang)..], TagStep(ts, st, lang).value, lang);
    }
  }

  lemma TagStepOk(ts: seq<Elem>, st: TagState, lang: Language)
    requires ts != [] && TagStateOk(st) && TagStep(ts, st, lang).Ok?
    ensures TagStateOk(TagStep(ts, st, lang).value)
    ensures TagWordLength(ts[0], lang) <= |ts|
  {
    hide ParseNum, Lower, ValidName, FlagMask;
  }

  lemma {:induction false} CapBodyOk(ts: seq<Elem>, st: CapState, caps: seq<CapTree>, lang: Language)
    requires st.id == -1 || (IdOk(st.id) && !IdTaken(st.id, caps))
    ensures var r := CapBody(ts, st, caps, lang);
      r.Ok? ==> r.value.id == -1 || (IdOk(r.value.id) && !IdTaken(r.value.id, caps))
    decreases |ts|
  {
    hide IsWord, IdTaken;
    if ts != [] {
      if IsWord(ts[0], TagId, lang) {
        if |ts| >= 2 && IdOk(NumberOf(ts[1])) && !IdTaken(NumberOf(ts[1]), caps) {
          CapBodyOk(ts[2..], st.(id := NumberOf(ts[1])), caps, lang);
        }
      } else if IsWord(ts[0], TagDefaultWord, lang) {
        CapBodyOk(ts[1..], st.(default := true), caps, lang);
      } else {
        CapBodyOk(ts[1..], st.(tree := st.tree + [ts[0]]), caps, lang);
      }
    }
  }

  lemma DefineOk(what: Definition, block: seq<Elem>, p: Program, lang: Language)
    requires block != [] && ProgramOk(p, lang)
    ensures var r := Define(what, block, p, lang); r.Ok? ==> ProgramOk(r.value, lang)
  {
    match what
    case DefineMacro => MacroDefinitionOk(block, p, lang);
    case DefineTag => TagDefinitionOk(block, p, lang);
    case DefineCap => CapDefinitionOk(block, p, lang);
  }

  lemma MacroDefinitionOk(block: seq<Elem>, p: Program, lang: Language)
    requires block != [] && ProgramOk(p, lang)
    ensures var r := MacroOf(block, p, lang); r.Ok? ==> ProgramOk(r.value, lang)
  {
    hide ValidName, TagOk, ParamPositions;
  }

  lemma TagDefinitionOk(block: seq<Elem>, p: Program, lang: Language)
    requires block != [] && ProgramOk(p, lang)
    ensures var r := TagOf(block, p, lang); r.Ok? ==> ProgramOk(r.value, lang)
  {
    hide ValidName, DefaultOf, TagBody;
    TagBodyOk(block[1..], NEW_TAG, lang);
  }

  lemma CapDefinitionOk(block: seq<Elem>, p: Program, lang: Language)
    requires block != [] && ProgramOk(p, lang)
    ensures var r := CapOf(block, p, lang); r.Ok? ==> ProgramOk(r.value, lang)
  {
    hide ValidName, CapBody, TagOk;
    CapBodyOk(block[1..], NEW_CAP, p.caps, lang);
  }

  lemma {:induction false} SplitOk(es: seq<Elem>, p: Program, lang: Language)
    requires ProgramOk(p, lang)
    ensures Split(es, p, lang).Ok? ==> ProgramOk(Split(es, p, lang).value, lang)
    decreases |es|
  {
    hide Define, ProgramOk;
    if es != [] {
      if !IsDefinition(es[0], lang) {
        BaseOk(p, es[0], lang);
        SplitOk(es[1..], p.(base := p.base + [es[0]]), lang);
      } else if HasBlock(es) {
        var what := lang.definitions[Lower(es[0].text)];
        DefineOk(what, es[1].elems, p, lang);
        if Define(what, es[1].elems, p, lang).Ok? {
          SplitOk(es[2..], Define(what, es[1].elems, p, lang).value, lang);
        }
      }
    }
  }

  lemma BaseOk(p: Program, e: Elem, lang: Language)
    requires ProgramOk(p, lang)
    ensures ProgramOk(p.(base := p.base + [e]), lang)
  {
    var q := p.(base := p.base + [e]);
    assert q.macros == p.macros && q.tags == p.tags && q.caps == p.caps;
  }

  /** The document-level rules: the tree without its definitions. */
  function WithoutDefinitions(es: seq<Elem>, lang: Language): seq<Elem>
    decreases |es|
  {
    if es == [] then []
    else if !IsDefinition(es[0], lang) then [es[0]] + WithoutDefinitions(es[1..], lang)
    else if |es| < 2 then [] else WithoutDefinitions(es[2..], lang)
  }

  lemma {:induction false} SplitBase(es: seq<Elem>, p: Program, lang: Language)
    ensures Split(es, p, lang).Ok? ==> Split(es, p, lang).value.base == p.base + WithoutDefinitions(es, lang)
    decreases |es|
  {
    hide Define;
    if es != [] {
      if !IsDefinition(es[0], lang) {
        SplitBase(es[1..], p.(base := p.base + [es[0]]), lang);
        assert p.base + [es[0]] + WithoutDefinitions(es[1..], lang) ==
          p.base + ([es[0]] + WithoutDefinitions(es[1..], lang));
      } else if HasBlock(es) {
        var r := Define(lang.definitions[Lower(es[0].text)], es[1].elems, p, lang);
        if r.Ok? {
          assert r.value.base == p.base by {
            DefineKeepsBase(lang.definitions[Lower(es[0].text)], es[1].elems, p, lang);
          }
          SplitBase(es[2..], r.value, lang);
        }
      }
    }
  }

  lemma DefineKeepsBase(what: Definition, block: seq<Elem>, p: Program, lang: Language)
    requires block != []
    ensures var r := Define(what, block, p, lang); r.Ok? ==> r.value.base == p.base
  {
  }

  // ---------------------------------------------------------------------
  // Pass 3 and the whole compiler
  // ---------------------------------------------------------------------

  datatype Cap = Cap(name: string, id: int, default: bool, rules: seq<Rule>)
  datatype Compiled = Compiled(rules: seq<Rule>, caps: seq<Cap>, tags: map<string, Tag>)

  function ToResult(out: Output): Result<seq<Rule>> {
    match out.err
    case None => Ok(out.rules)
    case Some(error) => Err(error)
  }

  function TopScope(p: Program, lang: Language): Scope {
    Scope(map[], p.tags, lang)
  }

  /** Capabilities are rendered one after the other, each into a table of its own. */
  function RenderCaps(caps: seq<CapTree>, p: Program, lang: Language, stack: nat): Result<seq<Cap>> {
    if caps == [] then Ok([])
    else
      match ToResult(Actions(caps[0].tree, p.macros, TopScope(p, lang), stack))
      case Err(error) => Err(error)
      case Ok(rules) =>
        match RenderCaps(caps[1..], p, lang, stack)
        case Err(error) => Err(error)
        case Ok(more) => Ok([Cap(caps[0].name, caps[0].id, caps[0].default, rules)] + more)
  }

  function RenderProgram(p: Program, lang: Language, stack: nat): Result<Compiled> {
    match RenderCaps(p.caps, p, lang, stack)
    case Err(error) => Err(error)
    case Ok(caps) =>
      match ToResult(Actions(p.base, p.macros, TopScope(p, lang), stack))
      case Err(error) => Err(error)
      case Ok(rules) => Ok(Compiled(rules, caps, p.tags))
  }

  function CompileTree(tree: seq<Elem>, lang: Language, stack: nat): Result<Compiled> {
    match Split(tree, EMPTY, lang)
    case Err(error) => Err(error)
    case Ok(p) => RenderProgram(p, lang, stack)
  }

  /** `compile`, called with empty result objects. */
  method Compile(src: string, opens: set<string>, lang: Language, stack: nat) returns (r: Result<Compiled>)
    ensures r == CompileTree(Collapse(OpenBlocks(src, opens))[0], lang, stack)
  {
    hide Split, Actions, Collapse, OpenBlocks;
    var parsed := Scan(src, opens);
    var program := SplitTree(parsed, lang);
    if program.Err? {
      return Err(program.error);
    }
    var p := program.value;
    var caps: seq<Cap> := [];
    assert p.caps[0..] == p.caps;
    var none: seq<Cap> := [];
    assert forall more: seq<Cap> :: none + more == more;
    for i := 0 to |p.caps|
      invariant RenderCaps(p.caps, p, lang, stack) ==
        match RenderCaps(p.caps[i..], p, lang, stack)
        case Err(error) => Err(error)
        case Ok(more) => Ok(caps + more)
    {
      var cap := p.caps[i];
      assert p.caps[i..][0] == cap && p.caps[i..][1..] == p.caps[i + 1..];
      var rules, err := RenderActions(cap.tree, [], p.macros, TopScope(p, lang), stack);
      NoRulesBefore(Actions(cap.tree, p.macros, TopScope(p, lang), stack));
      if err.Some? {
        return Err(err.value);
      }
      var done := Cap(cap.name, cap.id, cap.default, rules);
      assert forall more: seq<Cap> :: (caps + [done]) + more == caps + ([done] + more);
      caps := caps + [done];
    }
    assert p.caps[|p.caps|..] == [] && caps + [] == caps;
    var rules, err := RenderActions(p.base, [], p.macros, TopScope(p, lang), stack);
    NoRulesBefore(Actions(p.base, p.macros, TopScope(p, lang), stack));
    if err.Some? {
      return Err(err.value);
    }
    r := Ok(Compiled(rules, caps, p.tags));
  }

  lemma NoRulesBefore(out: Output)
    ensures Prepend([], out) == out
  {
    assert [] + out.rules == out.rules;
  }

  /** Every table is complete and in range, and capability identifiers are distinct. */
  predicate CompiledOk(c: Compiled) {
    && Complete(c.rules) && AllValid(c.rules)
    && (forall i | 0 <= i < |c.caps| :: Complete(c.caps[i].rules) && AllValid(c.caps[i].rules) && IdOk(c.caps[i].id))
    && (forall i, j | 0 <= i < j < |c.caps| :: c.caps[i].id != c.caps[j].id && c.caps[i].name != c.caps[j].name)
  }

  lemma {:induction false} RenderCapsOk(caps: seq<CapTree>, p: Program, lang: Language, stack: nat)
    requires RenderCaps(caps, p, lang, stack).Ok?
    ensures var r := RenderCaps(caps, p, lang, stack).value;
      && |r| == |caps|
      && (forall i | 0 <= i < |r| :: r[i].id == caps[i].id && r[i].name == caps[i].name)
      && (forall i | 0 <= i < |r| :: Complete(r[i].rules) && AllValid(r[i].rules))
  {
    hide Actions, Complete, AllValid;
    if caps != [] {
      ActionsShape(caps[0].tree, p.macros, TopScope(p, lang), stack);
      RenderCapsOk(caps[1..], p, lang, stack);
    }
  }

  /** Every successful compile yields complete tables, whatever macros it went through. */
  lemma CompileOk(tree: seq<Elem>, lang: Language, stack: nat)
    requires CompileTree(tree, lang, stack).Ok?
    ensures CompiledOk(CompileTree(tree, lang, stack).value)
  {
    hide Actions, Complete, AllValid, Split, RenderCaps;
    EmptyOk(lang);
    SplitOk(tree, EMPTY, lang);
    var p := Split(tree, EMPTY, lang).value;
    RenderCapsOk(p.caps, p, lang, stack);
    ActionsShape(p.base, p.macros, TopScope(p, lang), stack);
  }

  /** Every entry of the tables is what is written in the program, as `ActionsStem` has it. */
  predicate TablesStem(c: Compiled, p: Program, lang: Language, stack: nat) {
    && AllStem(c.rules, Origins(p.base, p.macros, TopScope(p, lang), stack))
    && |c.caps| == |p.caps|
    && forall i | 0 <= i < |c.caps| ::
         AllStem(c.caps[i].rules, Origins(p.caps[i].tree, p.macros, TopScope(p, lang), stack))
  }

  lemma {:induction false} CapsStem(caps: seq<CapTree>, p: Program, lang: Language, stack: nat)
    requires RenderCaps(caps, p, lang, stack).Ok?
    ensures var r := RenderCaps(caps, p, lang, stack).value;
      && |r| == |caps|
      && forall i | 0 <= i < |r| :: AllStem(r[i].rules, Origins(caps[i].tree, p.macros, TopScope(p, lang), stack))
  {
    hide Actions, AllStem, Origins;
    if caps != [] {
      ActionsStem(caps[0].tree, p.macros, TopScope(p, lang), stack);
      CapsStem(caps[1..], p, lang, stack);
    }
  }

  /** In a compiled program every match carries `not` and `or` exactly as written, and nothing else is in the tables. */
  lemma ProgramStems(p: Program, lang: Language, stack: nat)
    requires RenderProgram(p, lang, stack).Ok?
    ensures TablesStem(RenderProgram(p, lang, stack).value, p, lang, stack)
  {
    hide Actions, AllStem, Origins, RenderCaps;
    CapsStem(p.caps, p, lang, stack);
    ActionsStem(p.base, p.macros, TopScope(p, lang), stack);
  }

  lemma EmptyOk(lang: Language)
    ensures ProgramOk(EMPTY, lang)
  {
  }

  /** The whole program stays below `stack` in some ranking of its macros. */
  predicate RankedBelow(p: Program, lang: Language, rank: map<string, nat>, stack: nat) {
    && Ranked(p.macros, rank, lang)
    && Below(Calls(p.base, lang), p.macros, rank, stack)
    && forall i | 0 <= i < |p.caps| :: Below(Calls(p.caps[i].tree, lang), p.macros, rank, stack)
  }

  lemma {:induction false} RenderCapsStack(caps: seq<CapTree>, p: Program, lang: Language, rank: map<string, nat>,
      stack: nat, more: nat)
    requires Ranked(p.macros, rank, lang)
    requires forall i | 0 <= i < |caps| :: Below(Calls(caps[i].tree, lang), p.macros, rank, stack)
    ensures RenderCaps(caps, p, lang, stack) == RenderCaps(caps, p, lang, stack + more)
  {
    hide Actions, Ranked, Below, Calls;
    if caps != [] {
      RankedTerminates(caps[0].tree, p.macros, TopScope(p, lang), rank, stack, more);
      RenderCapsStack(caps[1..], p, lang, rank, stack, more);
    }
  }

  /** With acyclic macros the result does not depend on the engine's stack, and is not a stack overflow. */
  lemma CompileTerminates(p: Program, lang: Language, rank: map<string, nat>, stack: nat, more: nat)
    requires RankedBelow(p, lang, rank, stack)
    ensures RenderProgram(p, lang, stack) == RenderProgram(p, lang, stack + more)
    ensures RenderProgram(p, lang, stack).Err? ==> !RenderProgram(p, lang, stack).error.what.StackOverflow?
  {
    hide Actions, Ranked, Below, Calls, RenderCaps;
    RenderCapsStack(p.caps, p, lang, rank, stack, more);
    RenderCapsFit(p.caps, p, lang, rank, stack);
    RankedTerminates(p.base, p.macros, TopScope(p, lang), rank, stack, more);
  }

  lemma {:induction false} RenderCapsFit(caps: seq<CapTree>, p: Program, lang: Language, rank: map<string, nat>,
      stack: nat)
    requires Ranked(p.macros, rank, lang)
    requires forall i | 0 <= i < |caps| :: Below(Calls(caps[i].tree, lang), p.macros, rank, stack)
    ensures var r := RenderCaps(caps, p, lang, stack); r.Err? ==> !r.error.what.StackOverflow?
  {
    hide Actions, Ranked, Below, Calls;
    if caps != [] {
      RankedTerminates(caps[0].tree, p.macros, TopScope(p, lang), rank, stack, 0);
      RenderCapsFit(caps[1..], p, lang, rank, stack);
    }
  }

  // ---------------------------------------------------------------------
  // How much stack a program needs
  // ---------------------------------------------------------------------

  /** The texts of all includes of a program. */
  function ProgramSites(p: Program, lang: Language): (sites: set<string>)
    ensures Covers(sites, p.macros, lang) && Sites(p.base, lang) <= sites
    ensures forall i | 0 <= i < |p.caps| :: Sites(p.caps[i].tree, lang) <= sites
  {
    AllSites(p.base, p.macros, lang) + set cap, t | cap in p.caps && t in Sites(cap.tree, lang) :: t
  }

  predicate Exhausted<T>(r: Result<T>) {
    r.Err? && r.error.what.StackOverflow?
  }

  /** Every stack gives the result of the deciding one, or an overflow; only too small a stack makes the difference. */
  lemma AnyStack(ts: seq<Elem>, sites: set<string>, macros: Macros, scope: Scope, stack: nat)
    requires Covers(sites, macros, scope.lang) && Sites(ts, scope.lang) <= sites
    ensures var decided, out := Actions(ts, macros, scope, |sites|), Actions(ts, macros, scope, stack);
      && (Overflows(out) || out == decided)
      && (Overflows(decided) ==> Overflows(out))
      && (stack >= |sites| && Overflows(out) ==> Overflows(decided))
  {
    hide Actions, Covers, Sites, Overflows;
    OverflowDecided(ts, sites, macros, scope);
    if stack >= |sites| {
      StackEnough(ts, sites, macros, scope, stack);
    } else if !Overflows(Actions(ts, macros, scope, stack)) {
      DeeperIsSame(ts, macros, scope, stack, |sites| - stack);
    }
  }

  lemma {:induction false} CapsAnyStack(caps: seq<CapTree>, sites: set<string>, p: Program, lang: Language, stack: nat)
    requires Covers(sites, p.macros, lang) && forall i | 0 <= i < |caps| :: Sites(caps[i].tree, lang) <= sites
    ensures var decided, r := RenderCaps(caps, p, lang, |sites|), RenderCaps(caps, p, lang, stack);
      && (Exhausted(r) || r == decided)
      && (Exhausted(decided) ==> Exhausted(r))
      && (stack >= |sites| && Exhausted(r) ==> Exhausted(decided))
  {
    hide Actions, Covers, Sites;
    if caps != [] {
      AnyStack(caps[0].tree, sites, p.macros, TopScope(p, lang), stack);
      CapsAnyStack(caps[1..], sites, p, lang, stack);
    }
  }

  /**
   * A stack as deep as the program has include texts decides: if it is exhausted, so is every other one, and if not, no
   * deeper stack changes the result.
   */
  lemma CompileStackExact(p: Program, lang: Language, stack: nat)
    ensures var n := |ProgramSites(p, lang)|;
      var decided, r := RenderProgram(p, lang, n), RenderProgram(p, lang, stack);
      && (Exhausted(decided) ==> Exhausted(r))
      && (!Exhausted(decided) && stack >= n ==> r == decided)
      && (Exhausted(r) || r == decided)
  {
    hide Actions, Covers, Sites, RenderCaps, ProgramSites;
    var sites := ProgramSites(p, lang);
    CapsAnyStack(p.caps, sites, p, lang, stack);
    AnyStack(p.base, sites, p.macros, TopScope(p, lang), stack);
  }
}
