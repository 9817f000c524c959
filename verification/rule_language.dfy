/** The keyword tables of the flow-rule language. */
module RuleLanguage {
  import opened Basics
  import opened RuleScanner
  import opened RuleMatches
  import opened RuleActions
  import opened RuleCompiler

  /** Keywords that open a block. */
  const OPEN_BLOCK_KEYWORDS: set<string> :=
    {"macro", "tag", "cap", "drop", "accept", "tee", "watch", "redirect", "break", "priority"}

  const DEFINING_WORDS: set<string> := {"macro", "tag", "cap", "default"}

  const ACTING_WORDS: set<string> := {"drop", "accept", "tee", "watch", "redirect", "break", "priority"}

  const FIELD_WORDS: set<string> := {
    "ztsrc", "ztdest", "vlan", "vlanpcp", "vlandei", "ethertype", "macsrc", "macdest", "ipsrc", "ipdest", "iptos"}

  const TEST_WORDS: set<string> := {
    "ipprotocol", "icmp", "sport", "dport", "chr", "framesize", "random",
    "tand", "tor", "txor", "tdiff", "teq", "tseq", "treq"}

  const OTHER_WORDS: set<string> := {
    "type", "enum", "class", "define", "import", "include", "log", "not", "xor", "or", "and", "set", "var", "let"}

  const RESERVED_WORDS: set<string> := DEFINING_WORDS + ACTING_WORDS + FIELD_WORDS + TEST_WORDS + OTHER_WORDS

  const MATCH_WORDS: map<string, MatchWord> := map[
    "and" := And, "not" := Not, "or" := Or,
    "ztsrc" := Keyword(ZtKind(true)), "ztdest" := Keyword(ZtKind(false)),
    "vlan" := Keyword(NumberKind(VlanId)), "vlanpcp" := Keyword(NumberKind(VlanPcp)),
    "vlandei" := Keyword(NumberKind(VlanDei)), "ethertype" := Keyword(NumberKind(EtherType)),
    "macsrc" := Keyword(MacKind(true)), "macdest" := Keyword(MacKind(false)),
    "ipsrc" := Keyword(IpKind(true)), "ipdest" := Keyword(IpKind(false)),
    "iptos" := Keyword(TosKind), "ipprotocol" := Keyword(NumberKind(IpProtocol)), "icmp" := Keyword(IcmpKind),
    "sport" := Keyword(RangeKind(SourcePort)), "dport" := Keyword(RangeKind(DestPort)),
    "chr" := Keyword(ChrKind), "framesize" := Keyword(RangeKind(FrameSize)), "random" := Keyword(RandomKind),
    "tand" := Keyword(TagKind(TagAnd)), "tor" := Keyword(TagKind(TagOr)), "txor" := Keyword(TagKind(TagXor)),
    "tdiff" := Keyword(TagKind(TagDiff)), "teq" := Keyword(TagKind(TagEqual)),
    "tseq" := Keyword(TagKind(TagSender)), "treq" := Keyword(TagKind(TagReceiver))]

  const ACTION_WORDS: map<string, ActionWord> := map[
    "include" := Include, "drop" := Plain(Drop), "accept" := Plain(Accept), "break" := Plain(Break),
    "tee" := Copy(false), "watch" := Copy(true), "redirect" := Divert]

  const DEFINITIONS: map<string, Definition> := map["macro" := DefineMacro, "tag" := DefineTag, "cap" := DefineCap]

  const TAG_WORDS: map<string, TagWord> := map[
    "id" := TagId, "default" := TagDefaultWord, "flag" := TagFlag, "enum" := TagEnum]

  const ETHERTYPES: map<string, int> := map[
    "ipv4" := 0x0800, "arp" := 0x0806, "wol" := 0x0842, "rarp" := 0x8035, "ipv6" := 0x86dd,
    "atalk" := 0x809b, "aarp" := 0x80f3, "ipx_a" := 0x8137, "ipx_b" := 0x8138]

  const IP_PROTOCOLS: map<string, int> := map[
    "icmp" := 0x01, "icmp4" := 0x01, "icmpv4" := 0x01, "igmp" := 0x02, "ipip" := 0x04, "tcp" := 0x06,
    "egp" := 0x08, "igp" := 0x09, "udp" := 0x11, "rdp" := 0x1b, "esp" := 0x32, "ah" := 0x33,
    "icmp6" := 0x3a, "icmpv6" := 0x3a, "l2tp" := 0x73, "sctp" := 0x84, "udplite" := 0x88]

  const CHARACTERISTIC_BITS: map<string, int> := map[
    "inbound" := 63, "multicast" := 62, "broadcast" := 61, "ipauth" := 60, "macauth" := 59,
    "tcp_fin" := 0, "tcp_syn" := 1, "tcp_rst" := 2, "tcp_psh" := 3, "tcp_ack" := 4, "tcp_urg" := 5,
    "tcp_ece" := 6, "tcp_cwr" := 7, "tcp_ns" := 8, "tcp_rs2" := 9, "tcp_rs1" := 10, "tcp_rs0" := 11]

  /** The language of the compiler, over any address patterns, float parser and alphabet. */
  function ZeroTier(
      isIpv6: string -> bool, isIpv4: string -> bool, float: string -> real, alphanumeric: char -> bool): Language
  {
    Language(RESERVED_WORDS, MATCH_WORDS, ACTION_WORDS, DEFINITIONS, TAG_WORDS,
             ETHERTYPES, IP_PROTOCOLS, CHARACTERISTIC_BITS, isIpv6, isIpv4, float, alphanumeric)
  }

  ghost predicate IsZeroTier(lang: Language) {
    lang == ZeroTier(lang.isIpv6, lang.isIpv4, lang.float, lang.alphanumeric)
  }

  const DROP: Elem := Tok("drop", 0, 0)
  const RANDOM: Elem := Tok("random", 0, 0)

  lemma ZeroTierTables(lang: Language)
    requires IsZeroTier(lang)
    ensures lang.reserved == RESERVED_WORDS && lang.words == MATCH_WORDS && lang.actions == ACTION_WORDS
    ensures lang.definitions == DEFINITIONS && lang.tagWords == TAG_WORDS
    ensures lang.etherTypes == ETHERTYPES && lang.protocols == IP_PROTOCOLS && lang.bits == CHARACTERISTIC_BITS
  {
    hide RESERVED_WORDS, MATCH_WORDS, ACTION_WORDS, DEFINITIONS, TAG_WORDS, ETHERTYPES, IP_PROTOCOLS;
    hide CHARACTERISTIC_BITS;
  }

  lemma DropIsAction(lang: Language)
    requires lang.actions == ACTION_WORDS
    ensures ActionOf(DROP, lang) == Action(Plain(Drop))
  {
    assert RuleText.Lower("drop") == "drop";
  }

  lemma RandomIsMatch(lang: Language)
    requires lang.words == MATCH_WORDS
    ensures Classify(RANDOM, lang) == Known(Keyword(RandomKind))
  {
    assert RuleText.Lower("random") == "random";
  }

  /** In this language a macro call is substitution for every body exactly when all actual parameters are plain. */
  lemma MacroCallsAreSubstitution(macros: Macros, scope: Scope, stack: nat)
    requires IsZeroTier(scope.lang)
    ensures PlainParams(scope.params, scope.lang) <==>
      forall body :: Actions(Expand(body, scope), macros, Closed(scope), stack) == Actions(body, macros, scope, stack)
  {
    hide Actions, Expand, IsZeroTier, RESERVED_WORDS, MATCH_WORDS, ACTION_WORDS, DEFINITIONS, TAG_WORDS, ETHERTYPES;
    hide IP_PROTOCOLS, CHARACTERISTIC_BITS, ActionOf, Classify, PlainParams;
    ZeroTierTables(scope.lang);
    DropIsAction(scope.lang);
    RandomIsMatch(scope.lang);
    ExpansionExact(DROP, RANDOM, macros, scope, stack);
  }

  /**
   * From source text to rule tables with the compiler's own block keywords: no token is lost unless the text ends with
   * an empty block open at depth three or more, and a successful result is complete and in range.
   */
  lemma CompileSource(src: string, lang: Language, stack: nat)
    ensures var open := OpenBlocks(src, OPEN_BLOCK_KEYWORDS); var tree := Collapse(open)[0];
      && (Flatten(tree) == Tokens(Words(src, 1, 0)) <==> !(|open| >= 3 && open[|open| - 1] == []))
      && (CompileTree(tree, lang, stack).Ok? ==> CompiledOk(CompileTree(tree, lang, stack).value))
  {
    hide OpenBlocks, Collapse, CompileTree, CompiledOk, Flatten, Tokens, Words;
    assert "" !in OPEN_BLOCK_KEYWORDS;
    Pass1Complete(src, OPEN_BLOCK_KEYWORDS);
    var tree := Collapse(OpenBlocks(src, OPEN_BLOCK_KEYWORDS))[0];
    if CompileTree(tree, lang, stack).Ok? {
      CompileOk(tree, lang, stack);
    }
  }

  /** The text `macro drop ` is scanned to a tree that has lost `drop`. */
  lemma DropIsLost()
    ensures var src := "macro drop ";
      && Tokens(Words(src, 1, 0)) == [Tok("macro", 1, 0), Tok("drop", 1, 6)]
      && Collapse(OpenBlocks(src, OPEN_BLOCK_KEYWORDS))[0] == [Tok("macro", 1, 0)]
  {
    hide Words, OpenBlocks, Collapse, Tokens;
    assert "macro drop " == "macro" + (" " + ("drop" + " "));
    assert OpeningWord("macro", OPEN_BLOCK_KEYWORDS) && OpeningWord("drop", OPEN_BLOCK_KEYWORDS);
    SecondKeywordIsLost("macro", "drop", OPEN_BLOCK_KEYWORDS);
  }
}
