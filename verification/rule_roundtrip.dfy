/** From tables to source text and back through the whole compiler, with its own keyword tables. */
module RuleRoundTrip {
  import opened Basics
  import opened Numerals
  import opened RuleText
  import opened RuleScanner
  import opened RuleMatches
  import opened RuleActions
  import opened RuleCompiler
  import opened RuleLanguage
  import opened RuleFields
  import opened RulePrinter

  // ---------------------------------------------------------------------
  // The keyword tables are as documented
  // ---------------------------------------------------------------------

  predicate IsLower(s: string) {
    forall c | c in s :: !('A' <= c <= 'Z')
  }

  lemma LowerStays(s: string)
    requires IsLower(s)
    ensures Lower(s) == s
  {
    forall i | 0 <= i < |s| ensures LowerChar(s[i]) == s[i] {
      assert s[i] in s;
    }
  }

  lemma AddressWords(kind: MatchKind)
    requires kind.ZtKind? || kind.MacKind? || kind.IpKind?
    ensures IsLower(WordOf(kind)) && WordOf(kind) in MATCH_WORDS && MATCH_WORDS[WordOf(kind)] == Keyword(kind)
  {
  }

  lemma NumberWords(kind: MatchKind)
    requires kind.NumberKind?
    ensures IsLower(WordOf(kind)) && WordOf(kind) in MATCH_WORDS && MATCH_WORDS[WordOf(kind)] == Keyword(kind)
  {
  }

  lemma RangeWords(kind: MatchKind)
    requires kind.RangeKind?
    ensures IsLower(WordOf(kind)) && WordOf(kind) in MATCH_WORDS && MATCH_WORDS[WordOf(kind)] == Keyword(kind)
  {
  }

  lemma TagTestWords(kind: MatchKind)
    requires kind.TagKind?
    ensures IsLower(WordOf(kind)) && WordOf(kind) in MATCH_WORDS && MATCH_WORDS[WordOf(kind)] == Keyword(kind)
  {
  }

  lemma OtherWords(kind: MatchKind)
    requires kind.RandomKind? || kind.IcmpKind? || kind.TosKind? || kind.ChrKind?
    ensures IsLower(WordOf(kind)) && WordOf(kind) in MATCH_WORDS && MATCH_WORDS[WordOf(kind)] == Keyword(kind)
  {
  }

  lemma MatchWordKnown(kind: MatchKind)
    ensures Lower(WordOf(kind)) == WordOf(kind)
    ensures WordOf(kind) in MATCH_WORDS && MATCH_WORDS[WordOf(kind)] == Keyword(kind)
  {
    hide WordOf, MATCH_WORDS, Lower;
    if kind.ZtKind? || kind.MacKind? || kind.IpKind? {
      AddressWords(kind);
    } else if kind.NumberKind? {
      NumberWords(kind);
    } else if kind.RangeKind? {
      RangeWords(kind);
    } else if kind.TagKind? {
      TagTestWords(kind);
    } else {
      OtherWords(kind);
    }
    LowerStays(WordOf(kind));
  }

  lemma LeadWordKnown(word: MatchWord)
    requires word in {And, Not, Or}
    ensures IsLower(LeadText(word)) && LeadText(word) in MATCH_WORDS && MATCH_WORDS[LeadText(word)] == word
  {
  }

  lemma ActionWordKnown(word: ActionWord)
    ensures IsLower(ActionText(word)) && ActionText(word) in ACTION_WORDS && ACTION_WORDS[ActionText(word)] == word
    ensures ActionText(word) !in TAG_WORDS && ActionText(word) !in DEFINITIONS
  {
  }

  lemma DefiningWordsKnown()
    ensures Lower("id") == "id" && Lower("default") == "default" && Lower("flag") == "flag" && Lower("enum") == "enum"
    ensures Lower("tag") == "tag" && Lower("cap") == "cap"
  {
    LowerStays("id");
    LowerStays("default");
    LowerStays("flag");
    LowerStays("enum");
    LowerStays("tag");
    LowerStays("cap");
  }

  /** Short, with a letter first, and not ten hexadecimal digits. */
  predicate IsKeyword(w: string) {
    |w| <= 10 && w != "" && 'a' <= w[0] <= 'z' && !(AllHex(w) && |w| == 10)
  }

  lemma DefiningKeyword(w: string)
    requires w in DEFINING_WORDS || w in ACTING_WORDS
    ensures IsKeyword(w)
  {
    assert |w| < 10;
  }

  lemma FieldKeyword(w: string)
    requires w in FIELD_WORDS
    ensures IsKeyword(w)
  {
    assert |w| < 10;
  }

  lemma TestKeyword(w: string)
    requires w in TEST_WORDS
    ensures IsKeyword(w)
  {
    assert |w| == 10 ==> w[1] == 'p' && w[1] in w;
  }

  lemma OtherKeyword(w: string)
    requires w in OTHER_WORDS
    ensures IsKeyword(w)
  {
    assert |w| < 10;
  }

  lemma ReservedWord(w: string)
    requires w in RESERVED_WORDS
    ensures IsKeyword(w)
  {
    hide IsKeyword, DEFINING_WORDS, ACTING_WORDS, FIELD_WORDS, TEST_WORDS, OTHER_WORDS;
    if w in DEFINING_WORDS || w in ACTING_WORDS {
      DefiningKeyword(w);
    } else if w in FIELD_WORDS {
      FieldKeyword(w);
    } else if w in TEST_WORDS {
      TestKeyword(w);
    } else {
      OtherKeyword(w);
    }
  }

  lemma EtherTypeWord(t: string)
    requires t in ETHERTYPES
    ensures t == "" || !('0' <= t[0] <= '9')
  {
  }

  lemma ProtocolWord(t: string)
    requires t in IP_PROTOCOLS
    ensures t == "" || !('0' <= t[0] <= '9')
  {
  }

  lemma BitWord(t: string)
    requires t in CHARACTERISTIC_BITS
    ensures t == "" || !('0' <= t[0] <= '9')
  {
  }

  lemma ReservedDocumented(lang: Language)
    requires lang.reserved == RESERVED_WORDS
    ensures ReservedAreWords(lang)
  {
    hide RESERVED_WORDS, AllHex;
    forall w | w in lang.reserved ensures IsKeyword(w) {
      ReservedWord(w);
    }
  }

  lemma TypesDocumented(lang: Language)
    requires lang.etherTypes == ETHERTYPES && lang.protocols == IP_PROTOCOLS && lang.bits == CHARACTERISTIC_BITS
    ensures NamesAreWords(lang)
  {
    hide ETHERTYPES, IP_PROTOCOLS, CHARACTERISTIC_BITS;
    forall t | t in lang.etherTypes ensures t == "" || !('0' <= t[0] <= '9') {
      EtherTypeWord(t);
    }
    forall t | t in lang.protocols ensures t == "" || !('0' <= t[0] <= '9') {
      ProtocolWord(t);
    }
    forall t | t in lang.bits ensures t == "" || !('0' <= t[0] <= '9') {
      BitWord(t);
    }
  }

  lemma NamesDocumented(lang: Language)
    requires IsZeroTier(lang)
    ensures NamesAreWords(lang) && ReservedAreWords(lang)
  {
    hide RESERVED_WORDS, ETHERTYPES, IP_PROTOCOLS, CHARACTERISTIC_BITS, IsZeroTier, NamesAreWords, ReservedAreWords;
    ZeroTierTables(lang);
    ReservedDocumented(lang);
    TypesDocumented(lang);
  }

  lemma WordsDocumented(lang: Language)
    requires IsZeroTier(lang)
    ensures WordsKnown(lang) && ActionsKnown(lang)
  {
    hide MATCH_WORDS, ACTION_WORDS, TAG_WORDS, DEFINITIONS, IsZeroTier, Lower, WordOf, LeadText, ActionText;
    ZeroTierTables(lang);
    forall kind ensures Lower(WordOf(kind)) in lang.words && lang.words[Lower(WordOf(kind))] == Keyword(kind) {
      MatchWordKnown(kind);
    }
    forall word | word in {And, Not, Or}
      ensures Lower(LeadText(word)) in lang.words && lang.words[Lower(LeadText(word))] == word
    {
      LeadWordKnown(word);
      LowerStays(LeadText(word));
    }
    forall word ensures Lower(ActionText(word)) in lang.actions && lang.actions[Lower(ActionText(word))] == word {
      ActionWordKnown(word);
      LowerStays(ActionText(word));
    }
  }

  lemma DefiningWords()
    ensures "id" in TAG_WORDS && TAG_WORDS["id"] == TagId
    ensures "default" in TAG_WORDS && TAG_WORDS["default"] == TagDefaultWord
    ensures "flag" in TAG_WORDS && TAG_WORDS["flag"] == TagFlag && "enum" in TAG_WORDS && TAG_WORDS["enum"] == TagEnum
    ensures "tag" in DEFINITIONS && DEFINITIONS["tag"] == DefineTag
    ensures "cap" in DEFINITIONS && DEFINITIONS["cap"] == DefineCap
  {
  }

  lemma DefinitionsDocumented(lang: Language)
    requires IsZeroTier(lang)
    ensures TagWordsKnown(lang) && DefinitionsKnown(lang)
  {
    hide ACTION_WORDS, TAG_WORDS, DEFINITIONS, IsZeroTier, Lower, ActionText;
    ZeroTierTables(lang);
    DefiningWordsKnown();
    DefiningWords();
    forall word ensures Lower(ActionText(word)) !in lang.tagWords && Lower(ActionText(word)) !in lang.definitions {
      ActionWordKnown(word);
      LowerStays(ActionText(word));
    }
  }

  /** The compiler's own tables give every documented keyword its documented meaning. */
  lemma ZeroTierDocumented(lang: Language)
    requires IsZeroTier(lang)
    ensures Documented(lang)
  {
    hide IsZeroTier, NamesAreWords, ReservedAreWords, WordsKnown, ActionsKnown, TagWordsKnown, DefinitionsKnown;
    NamesDocumented(lang);
    WordsDocumented(lang);
    DefinitionsDocumented(lang);
  }

  // ---------------------------------------------------------------------
  // Written programs can be printed
  // ---------------------------------------------------------------------

  /** What is written has no positions, and can be printed. */
  ghost predicate Clean(es: seq<Elem>) {
    Erase(es) == es && Printable(es, OPEN_BLOCK_KEYWORDS)
  }

  predicate CleanText(t: string) {
    WordText(t) && t !in OPEN_BLOCK_KEYWORDS
  }

  lemma CleanWord(t: string)
    requires CleanText(t)
    ensures Clean([W(t)])
  {
    hide OPEN_BLOCK_KEYWORDS;
    var es := [W(t)];
    assert Erase(es) == es;
    assert PrintableElem(es[0], OPEN_BLOCK_KEYWORDS);
  }

  lemma CleanNone()
    ensures Clean([])
  {
    assert Erase([]) == [];
  }

  lemma CleanJoin(a: seq<Elem>, b: seq<Elem>)
    requires Clean(a) && Clean(b)
    ensures Clean(a + b)
  {
    hide EraseElem, OPEN_BLOCK_KEYWORDS, PrintableElem, Opens;
    var es := a + b;
    assert Erase(es) == Erase(a) + Erase(b);
    forall i | 0 <= i < |es| ensures Placed(es, i, OPEN_BLOCK_KEYWORDS) && PrintableElem(es[i], OPEN_BLOCK_KEYWORDS) {
      if i < |a| {
        assert Placed(a, i, OPEN_BLOCK_KEYWORDS) && PrintableElem(a[i], OPEN_BLOCK_KEYWORDS);
      } else {
        assert Placed(b, i - |a|, OPEN_BLOCK_KEYWORDS) && PrintableElem(b[i - |a|], OPEN_BLOCK_KEYWORDS);
      }
    }
  }

  lemma CleanBlock(t: string, inner: seq<Elem>)
    requires WordText(t) && t in OPEN_BLOCK_KEYWORDS && inner != [] && Clean(inner)
    ensures Clean([W(t), Block(inner)])
  {
    hide OPEN_BLOCK_KEYWORDS, EraseElem;
    var es := [W(t), Block(inner)];
    BlockErases(inner);
    assert EraseElem(W(t)) == W(t) by { WordErases(t); }
    assert Erase(es) == [EraseElem(es[0]), EraseElem(es[1])] == es;
    assert PrintableElem(es[0], OPEN_BLOCK_KEYWORDS) && PrintableElem(es[1], OPEN_BLOCK_KEYWORDS);
    assert Placed(es, 0, OPEN_BLOCK_KEYWORDS) && Placed(es, 1, OPEN_BLOCK_KEYWORDS);
  }

  lemma WordErases(t: string)
    ensures EraseElem(W(t)) == W(t)
  {
  }

  lemma {:induction false} CleanWords(texts: seq<string>)
    requires forall t | t in texts :: CleanText(t)
    ensures Clean(WordElems(texts))
  {
    hide Clean, CleanText;
    if texts == [] {
      assert WordElems(texts) == [];
      CleanNone();
    } else {
      CleanWord(texts[0]);
      CleanWords(texts[1..]);
      CleanJoin([W(texts[0])], WordElems(texts[1..]));
      assert WordElems(texts) == [W(texts[0])] + WordElems(texts[1..]);
    }
  }

  lemma OpensAreReserved(t: string)
    requires t in OPEN_BLOCK_KEYWORDS
    ensures t in RESERVED_WORDS && |t| <= 8
  {
  }

  lemma PlainIsClean(t: string, lang: Language)
    requires IsZeroTier(lang) && PlainText(t, lang)
    ensures CleanText(t)
  {
    hide OPEN_BLOCK_KEYWORDS, RESERVED_WORDS, IsZeroTier;
    ZeroTierTables(lang);
    if t in OPEN_BLOCK_KEYWORDS {
      OpensAreReserved(t);
    }
  }

  lemma NumbersClean(kind: MatchKind)
    requires kind.NumberKind? || kind.RangeKind? || kind.TagKind?
    ensures CleanText(WordOf(kind))
  {
  }

  lemma OthersClean(kind: MatchKind)
    requires !(kind.NumberKind? || kind.RangeKind? || kind.TagKind?)
    ensures CleanText(WordOf(kind))
  {
  }

  lemma KeywordsClean(kind: MatchKind)
    ensures CleanText(WordOf(kind))
  {
    hide CleanText, WordOf;
    if kind.NumberKind? || kind.RangeKind? || kind.TagKind? {
      NumbersClean(kind);
    } else {
      OthersClean(kind);
    }
  }

  lemma LeadsClean(word: MatchWord)
    ensures CleanText(LeadText(word))
  {
  }

  lemma ActionOpens(word: ActionWord)
    requires !word.Include?
    ensures WordText(ActionText(word)) && ActionText(word) in OPEN_BLOCK_KEYWORDS
  {
  }

  lemma DirectivesClean()
    ensures CleanText("id") && CleanText("default") && CleanText("flag") && CleanText("enum") && CleanText("-1")
    ensures WordText("tag") && "tag" in OPEN_BLOCK_KEYWORDS && WordText("cap") && "cap" in OPEN_BLOCK_KEYWORDS
  {
  }

  lemma MatchClean(r: Rule, pen: int -> string, lang: Language)
    requires IsZeroTier(lang) && WritableMatch(r, pen, lang)
    ensures Clean(MatchElems(r, pen))
  {
    hide Clean, CleanText, IsZeroTier, WordOf, ArgTexts, ValidBody, PlainText, LeadText, WordElems;
    NamesDocumented(lang);
    ArgsPlain(r.body, pen, lang);
    forall t | t in ArgTexts(r.body, pen) ensures CleanText(t) {
      PlainIsClean(t, lang);
    }
    CleanWords(ArgTexts(r.body, pen));
    KeywordsClean(KindOf(r.body));
    CleanWord(WordOf(KindOf(r.body)));
    CleanJoin([W(WordOf(KindOf(r.body)))], WordElems(ArgTexts(r.body, pen)));
    OptionalClean(r.not, Not);
    OptionalClean(r.or, Or);
    CleanJoin(Optional(r.or, Or), KeywordElems(r.body, pen));
    CleanJoin(Optional(r.not, Not), Optional(r.or, Or) + KeywordElems(r.body, pen));
  }

  lemma OptionalClean(written: bool, word: MatchWord)
    ensures Clean(Optional(written, word))
  {
    hide Clean, CleanText, LeadText;
    CleanNone();
    LeadsClean(word);
    CleanWord(LeadText(word));
  }

  lemma {:induction false} MatchesClean(rs: seq<Rule>, pen: int -> string, lang: Language)
    requires IsZeroTier(lang) && AllWritable(rs, pen, lang) && AllMatches(rs)
    ensures Clean(MatchesElems(rs, pen))
    decreases |rs|
  {
    hide Clean, IsZeroTier, MatchElems, WritableMatch, ValidBody;
    if rs == [] {
      CleanNone();
    } else {
      assert WritableMatch(rs[0], pen, lang);
      MatchClean(rs[0], pen, lang);
      MatchesClean(rs[1..], pen, lang);
      CleanJoin(MatchElems(rs[0], pen), MatchesElems(rs[1..], pen));
    }
  }

  lemma AddressClean(t: string)
    requires WordText(t) && |t| == 10
    ensures CleanText(t)
  {
    hide OPEN_BLOCK_KEYWORDS, RESERVED_WORDS;
    if t in OPEN_BLOCK_KEYWORDS {
      OpensAreReserved(t);
    }
  }

  lemma NumberClean(n: nat, lang: Language)
    requires IsZeroTier(lang)
    ensures CleanText(Decimal(n))
  {
    hide IsZeroTier, Decimal, CleanText;
    NamesDocumented(lang);
    DecimalPlain(n, lang);
    PlainIsClean(Decimal(n), lang);
  }

  lemma OwnWordsClean(action: Rule, lang: Language)
    requires IsZeroTier(lang) && WritableAction(action)
    ensures Clean(OwnWords(action)) && OwnWords(action) != []
  {
    hide Clean, CleanText, IsZeroTier, WordText, Decimal, OPEN_BLOCK_KEYWORDS;
    match action
    case Act(_) =>
      LeadsClean(And);
      CleanWord("and");
    case CopyTo(_, address, length) =>
      DirectivesClean();
      if length >= 0 {
        NumberClean(length, lang);
      }
      AddressClean(address);
      var t := if length < 0 then "-1" else Decimal(length);
      CleanWord(t);
      CleanWord(address);
      CleanJoin([W(t)], [W(address)]);
      assert [W(t)] + [W(address)] == OwnWords(action);
    case DivertTo(address) =>
      AddressClean(address);
      CleanWord(address);
  }

  lemma EntryClean(e: Entry, pen: int -> string, lang: Language)
    requires IsZeroTier(lang) && WritableEntry(e, pen, lang)
    ensures Clean(EntryElems(e, pen))
  {
    hide Clean, IsZeroTier, AllWritable, AllMatches, ValidRule, WordText, MatchesElems, OwnWords, ActionText;
    hide OPEN_BLOCK_KEYWORDS;
    MatchesClean(e.matches, pen, lang);
    OwnWordsClean(e.action, lang);
    CleanJoin(OwnWords(e.action), MatchesElems(e.matches, pen));
    ActionOpens(ActionWordOf(e.action));
    CleanBlock(ActionText(ActionWordOf(e.action)), OwnWords(e.action) + MatchesElems(e.matches, pen));
  }

  lemma {:induction false} TableClean(entries: seq<Entry>, pen: int -> string, lang: Language)
    requires IsZeroTier(lang) && WritableTable(entries, pen, lang)
    ensures Clean(TableElems(entries, pen, lang))
    decreases |entries|
  {
    hide Clean, IsZeroTier, EntryElems, AllWritable, AllMatches, WritableAction;
    if entries == [] {
      CleanNone();
    } else {
      assert WritableEntry(entries[0], pen, lang);
      EntryClean(entries[0], pen, lang);
      TableClean(entries[1..], pen, lang);
      CleanJoin(EntryElems(entries[0], pen), TableElems(entries[1..], pen, lang));
    }
  }

  lemma CleanPair(a: string, b: string)
    requires CleanText(a) && CleanText(b)
    ensures Clean([W(a), W(b)])
  {
    hide Clean, CleanText;
    CleanWord(a);
    CleanWord(b);
    CleanJoin([W(a)], [W(b)]);
    assert [W(a)] + [W(b)] == [W(a), W(b)];
  }

  lemma CleanTriple(a: string, b: string, c: string)
    requires CleanText(a) && CleanText(b) && CleanText(c)
    ensures Clean([W(a), W(b), W(c)])
  {
    hide Clean, CleanText;
    CleanPair(a, b);
    CleanWord(c);
    CleanJoin([W(a), W(b)], [W(c)]);
    assert [W(a), W(b)] + [W(c)] == [W(a), W(b), W(c)];
  }

  lemma NameClean(t: string, lang: Language)
    requires IsZeroTier(lang) && NameText(t, lang)
    ensures CleanText(t)
  {
    hide IsZeroTier, PlainText, ValidName, Lower, CleanText;
    PlainIsClean(t, lang);
  }

  lemma {:induction false} EnumsClean(enums: seq<(string, nat)>, lang: Language)
    requires IsZeroTier(lang) && WritableEnums(enums, lang)
    ensures Clean(EnumElems(enums))
    decreases |enums|
  {
    hide Clean, IsZeroTier, CleanText, NameText, Decimal, OPEN_BLOCK_KEYWORDS;
    if enums == [] {
      CleanNone();
    } else {
      DirectivesClean();
      NumberClean(enums[0].1, lang);
      NameClean(enums[0].0, lang);
      CleanTriple("enum", Decimal(enums[0].1), enums[0].0);
      EnumsClean(enums[1..], lang);
      CleanJoin([W("enum"), W(Decimal(enums[0].1)), W(enums[0].0)], EnumElems(enums[1..]));
    }
  }

  lemma {:induction false} FlagsClean(flags: seq<(string, bv32)>, lang: Language)
    requires IsZeroTier(lang) && WritableFlags(flags, lang)
    ensures Clean(FlagElems(flags))
    decreases |flags|
  {
    hide Clean, IsZeroTier, CleanText, NameText, BitsText, BitsFrom, OPEN_BLOCK_KEYWORDS;
    if flags == [] {
      CleanNone();
    } else {
      var bits := BitsText(BitsFrom(0, flags[0].1, 0));
      DirectivesClean();
      NamesDocumented(lang);
      BitsPlain(BitsFrom(0, flags[0].1, 0), lang);
      PlainIsClean(bits, lang);
      NameClean(flags[0].0, lang);
      CleanTriple("flag", bits, flags[0].0);
      FlagsClean(flags[1..], lang);
      CleanJoin([W("flag"), W(bits), W(flags[0].0)], FlagElems(flags[1..]));
    }
  }

  lemma DefaultClean(d: TagDraft, lang: Language)
    requires IsZeroTier(lang) && WritableTag(d, lang)
    ensures Clean(DefaultElems(d))
  {
    hide Clean, IsZeroTier, CleanText, NameText, Decimal, OPEN_BLOCK_KEYWORDS;
    DirectivesClean();
    match d.default
    case NoValue => CleanNone();
    case NumberValue(n) =>
      NumberClean(n, lang);
      CleanPair("default", Decimal(n));
    case EnumValue(i) =>
      NameClean(d.enums[i].0, lang);
      CleanPair("default", d.enums[i].0);
    case FlagValue(i) =>
      NameClean(d.flags[i].0, lang);
      CleanPair("default", d.flags[i].0);
  }

  lemma HeadClean(name: string, id: nat, lang: Language)
    requires IsZeroTier(lang) && NameText(name, lang)
    ensures Clean([W(name)]) && Clean([W("id"), W(Decimal(id))])
  {
    hide Clean, IsZeroTier, CleanText, NameText, Decimal, OPEN_BLOCK_KEYWORDS;
    DirectivesClean();
    NameClean(name, lang);
    CleanWord(name);
    NumberClean(id, lang);
    CleanPair("id", Decimal(id));
  }

  lemma TagClean(d: TagDraft, lang: Language)
    requires IsZeroTier(lang) && WritableTag(d, lang)
    ensures Clean(TagElems(d))
  {
    hide Clean, IsZeroTier, NameText, WritableEnums, WritableFlags, EnumElems, FlagElems, DefaultElems, Decimal;
    var flags, head := FlagElems(d.flags) + DefaultElems(d), [W("id"), W(Decimal(d.id))];
    DefaultClean(d, lang);
    FlagsClean(d.flags, lang);
    EnumsClean(d.enums, lang);
    HeadClean(d.name, d.id, lang);
    CleanJoin(FlagElems(d.flags), DefaultElems(d));
    CleanJoin(EnumElems(d.enums), flags);
    CleanJoin(head, EnumElems(d.enums) + flags);
    CleanJoin([W(d.name)], head + (EnumElems(d.enums) + flags));
  }

  lemma CapClean(d: CapDraft, pen: int -> string, lang: Language)
    requires IsZeroTier(lang) && WritableCap(d, pen, lang)
    ensures Clean(CapElems(d, pen, lang))
  {
    hide Clean, IsZeroTier, NameText, WritableTable, TableElems, Decimal, CleanText, OPEN_BLOCK_KEYWORDS;
    var rules, head := TableElems(d.entries, pen, lang), [W("id"), W(Decimal(d.id))];
    var default := if d.default then [W("default")] else [];
    TableClean(d.entries, pen, lang);
    HeadClean(d.name, d.id, lang);
    DirectivesClean();
    CleanNone();
    CleanWord("default");
    CleanJoin(default, rules);
    CleanJoin(head, default + rules);
    CleanJoin([W(d.name)], head + (default + rules));
  }

  lemma {:induction false} TagDefsClean(tags: seq<TagDraft>, lang: Language)
    requires IsZeroTier(lang) && WritableTags(tags, lang)
    ensures Clean(TagDefs(tags, lang))
    decreases |tags|
  {
    hide Clean, IsZeroTier, WritableTag, TagElems, WordText, OPEN_BLOCK_KEYWORDS;
    if tags == [] {
      CleanNone();
    } else {
      assert WritableTag(tags[0], lang);
      TagElemsSome(tags[0], lang);
      DirectivesClean();
      TagClean(tags[0], lang);
      CleanBlock("tag", TagElems(tags[0]));
      TagDefsClean(tags[1..], lang);
      CleanJoin([W("tag"), Block(TagElems(tags[0]))], TagDefs(tags[1..], lang));
    }
  }

  lemma {:induction false} CapDefsClean(caps: seq<CapDraft>, pen: int -> string, lang: Language)
    requires IsZeroTier(lang) && WritableCaps(caps, pen, lang)
    ensures Clean(CapDefs(caps, pen, lang))
    decreases |caps|
  {
    hide Clean, IsZeroTier, CapElems, WordText, OPEN_BLOCK_KEYWORDS, NameText, WritableTable;
    if caps == [] {
      CleanNone();
    } else {
      assert WritableCap(caps[0], pen, lang);
      CapElemsSome(caps[0], pen, lang);
      DirectivesClean();
      CapClean(caps[0], pen, lang);
      CleanBlock("cap", CapElems(caps[0], pen, lang));
      CapDefsClean(caps[1..], pen, lang);
      CleanJoin([W("cap"), Block(CapElems(caps[0], pen, lang))], CapDefs(caps[1..], pen, lang));
    }
  }

  lemma ProgramClean(d: Draft, pen: int -> string, lang: Language)
    requires IsZeroTier(lang) && WritableDraft(d, pen, lang)
    ensures Clean(ProgramElems(d, pen, lang))
  {
    hide Clean, IsZeroTier, WritableTags, WritableCaps, WritableTable, TagDefs, CapDefs, TableElems;
    TagDefsClean(d.tags, lang);
    CapDefsClean(d.caps, pen, lang);
    TableClean(d.base, pen, lang);
    CleanJoin(CapDefs(d.caps, pen, lang), TableElems(d.base, pen, lang));
    CleanJoin(TagDefs(d.tags, lang), CapDefs(d.caps, pen, lang) + TableElems(d.base, pen, lang));
  }

  // ---------------------------------------------------------------------
  // The whole compiler
  // ---------------------------------------------------------------------

  /** The source text of a draft. */
  function SourceOf(d: Draft, pen: int -> string, lang: Language): string
    requires WritableDraft(d, pen, lang)
  {
    Source(Print(ProgramElems(d, pen, lang)))
  }

  /**
   * Writing down tags, capabilities and base rules and compiling the text gives exactly these tags, capabilities and
   * rules back, on every stack.
   */
  lemma CompileRoundTrip(d: Draft, pen: int -> string, lang: Language, stack: nat)
    requires IsZeroTier(lang) && WritableDraft(d, pen, lang)
    ensures var tree := Collapse(OpenBlocks(SourceOf(d, pen, lang), OPEN_BLOCK_KEYWORDS))[0];
      CompileTree(tree, lang, stack) ==
        Ok(Compiled(Table(d.base), CapTable(d.caps), TagTable(map[], d.tags, lang)))
  {
    hide IsZeroTier, WritableDraft, Collapse, OpenBlocks, CompileTree, ProgramElems, Documented, Erase, Printable;
    hide OPEN_BLOCK_KEYWORDS, Print, Source;
    var es := ProgramElems(d, pen, lang);
    var tree := Collapse(OpenBlocks(Source(Print(es)), OPEN_BLOCK_KEYWORDS))[0];
    ProgramClean(d, pen, lang);
    assert "" !in OPEN_BLOCK_KEYWORDS by { NoEmptyKeyword(); }
    ScanOfSource(es, OPEN_BLOCK_KEYWORDS);
    ZeroTierDocumented(lang);
    ProgramReads(d, tree, pen, lang, stack);
  }

  lemma NoEmptyKeyword()
    ensures "" !in OPEN_BLOCK_KEYWORDS
  {
  }

  /** Every complete table can be cut into entries, so every table of writable rules has a text. */
  function EntriesOf(rules: seq<Rule>, pending: seq<Rule>): seq<Entry> {
    if rules == [] then []
    else if rules[0].Match? then EntriesOf(rules[1..], pending + [rules[0]])
    else [Entry(pending, rules[0])] + EntriesOf(rules[1..], [])
  }

  lemma {:induction false} EntriesComplete(rules: seq<Rule>, pending: seq<Rule>)
    requires Complete(rules) && (rules == [] ==> pending == [])
    ensures Table(EntriesOf(rules, pending)) == pending + rules
    decreases |rules|
  {
    hide Table;
    if rules == [] {
      TableOfNone();
    } else {
      var rest := rules[1..];
      if rules[0].Match? {
        assert rest != [];
        EntriesComplete(rest, pending + [rules[0]]);
        assert pending + [rules[0]] + rest == pending + rules;
      } else {
        EntriesComplete(rest, []);
        TableOfMore(Entry(pending, rules[0]), EntriesOf(rest, []));
        assert pending + [rules[0]] + ([] + rest) == pending + rules;
      }
    }
  }

  lemma TableOfNone()
    ensures Table([]) == []
  {
  }

  lemma TableOfMore(e: Entry, entries: seq<Entry>)
    ensures Table([e] + entries) == e.matches + [e.action] + Table(entries)
  {
    assert ([e] + entries)[1..] == entries;
  }

  predicate WritableRule(r: Rule, pen: int -> string, lang: Language) {
    if r.Match? then WritableMatch(r, pen, lang) else WritableAction(r)
  }

  predicate WritableRules(rules: seq<Rule>, pen: int -> string, lang: Language) {
    forall i | 0 <= i < |rules| :: WritableRule(rules[i], pen, lang)
  }

  lemma {:induction false} EntriesWritable(rules: seq<Rule>, pending: seq<Rule>, pen: int -> string, lang: Language)
    requires WritableRules(rules, pen, lang) && AllWritable(pending, pen, lang)
    ensures WritableTable(EntriesOf(rules, pending), pen, lang)
    decreases |rules|
  {
    hide WritableBody, WritableAction;
    if rules != [] {
      assert WritableRule(rules[0], pen, lang);
      if rules[0].Match? {
        EntriesWritable(rules[1..], pending + [rules[0]], pen, lang);
      } else {
        EntriesWritable(rules[1..], [], pen, lang);
        WritableIsMatches(pending, pen, lang);
        assert WritableEntry(Entry(pending, rules[0]), pen, lang);
      }
    }
  }

  lemma WritableIsMatches(rs: seq<Rule>, pen: int -> string, lang: Language)
    requires AllWritable(rs, pen, lang)
    ensures AllMatches(rs)
  {
    forall i | 0 <= i < |rs| ensures rs[i].Match? && ValidBody(rs[i].body) {
      assert WritableMatch(rs[i], pen, lang);
    }
  }

  /** Every complete table of writable rules has a source text that compiles to it. */
  lemma TableRoundTrip(rules: seq<Rule>, pen: int -> string, lang: Language, stack: nat)
    requires IsZeroTier(lang) && Complete(rules) && WritableRules(rules, pen, lang)
    ensures var d := Draft([], [], EntriesOf(rules, []));
      && WritableDraft(d, pen, lang)
      && var tree := Collapse(OpenBlocks(SourceOf(d, pen, lang), OPEN_BLOCK_KEYWORDS))[0];
      CompileTree(tree, lang, stack) == Ok(Compiled(rules, [], map[]))
  {
    hide IsZeroTier, Complete, WritableRules, Collapse, OpenBlocks, CompileTree, OPEN_BLOCK_KEYWORDS, SourceOf;
    hide WritableTable;
    EntriesWritable(rules, [], pen, lang);
    EntriesComplete(rules, []);
    var d := Draft([], [], EntriesOf(rules, []));
    assert WritableDraft(d, pen, lang);
    CompileRoundTrip(d, pen, lang, stack);
    assert CapTable([]) == [] && [] + rules == rules;
  }
}
