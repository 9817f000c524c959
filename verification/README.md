# Verified models of the ZeroTier Planet stack

A Dafny model of the stateful and arithmetic cores of the stack: the flow-rule compiler, the TCP fallback relay, the host
configuration agent, the notification outbox and its member observer, the planet file serializer, the login lockout and the IPv4
pool arithmetic.
`dafny verify dfyconfig.toml` checks all of it.

## How it is organised

| file | what it models |
|---|---|
| `rule_text`, `rule_scanner`, `rule_matches`, `rule_actions`, `rule_stack`, `rule_compiler`, `rule_language` | the three passes of the flow-rule compiler, its helpers, the depth of its recursion and its keyword tables |
| `rule_positions`, `rule_fields`, `rule_calls`, `rule_printer`, `rule_roundtrip` | where tokens are reported, what the written arguments mean, which actual a macro parameter gets, and programs printed as text and compiled back |
| `relay_rate`, `relay_slots`, `relay_credit`, `relay_frames` | rate windows, connection slots, response credit, addresses and the framed byte stream of the relay |
| `agent_config`, `agent_runtime`, `agent_history`, `agent_machine`, `agent_runs` | validation, rendering and restarts, history file names, the transactional agent, and its whole runs |
| `stack_meaning` | what the generated files make the gateway, the relay, the node and ZTNet do, and what the warnings mean |
| `agent_library`, `agent_examples` | an address library that meets the laws the agent relies on, and requests that show its exceptions |
| `outbox` | notification workers, sweeper, expiry and retries over one table |
| `member_observer` | pollers that write observed member states and enqueue their events |
| `world` | the planet file |
| `basics`, `numerals`, `byte_order`, `address_bits` | options, results and quotients, numbers as text, bytes and big-endian numbers, and address blocks, shared by several modules |
| `lockout` | the failed-login counter |
| `cidr_allocator`, `ipv4_pools` | default subnets, routes and pools in JavaScript's signed 32-bit arithmetic |

Code that updates things step by step is a method or a class proved against a specification function (`Scan`, `Compile`,
`RateWindow`, `TcpStream`, `Agent`, `Serialize`, `UserRow`, …); what the program promises is then proved about that function.
Concurrent code (slots, credit, outbox, member observer, overlapping sign-ins) is a step system: each atomic operation, lock
region or database call is one step, a schedule is any sequence of steps, and the theorems quantify over every schedule.

## Where the code does not do what one might expect

Each of these is kept as the code has it, with the exact condition proved.

- Pass 1 of the rule compiler drops tokens if and only if the input ends with an empty block open at depth three or more
  (`RuleScanner.Pass1Complete`); `macro drop ` loses `drop` (`RuleLanguage.DropIsLost`).
- A comment that ends with CR and LF counts as two lines, so all later errors are reported too far down; positions are right if and
  only if no comment that ends with a carriage return is followed by a word (`RulePositions.PositionsExact`,
  `RulePositions.CommentLineCountsTwice`).
- A macro call is textual substitution for every body if and only if the actual parameters are neither reserved words nor start
  with `$` (`RuleLanguage.MacroCallsAreSubstitution`).
- Rendering exhausts every call stack if and only if the includes it reaches lead into a circle (`RuleStack.CircleExact`; where
  all rules are in order, if and only if the includes that are written there do, `RuleStack.SiteCircleExact`). Otherwise a stack
  as deep as the program has include texts is enough, and no deeper one changes the result (`RuleCompiler.CompileStackExact`).
- The `chr` mask has exactly the named bits if and only if neither bit 63 nor bit 31 is named together with another bit of its
  half (`RuleMatches.ChrExact`, `RuleMatches.InboundIsLost`).
- A tag flag that has bit 31 is refused as a match value, because its mask is negative to JavaScript (`RuleFields.TagNames`).
- A validated configuration can have overlapping TCP sockets, exactly when the ZeroTier address is an uncovered wildcard whose
  inherited port is taken (`AgentConfig.AcceptedBindings`, `AgentExamples.WildcardHappens`).
- Validating a validated configuration gives it back if and only if the canonical relay host still has at most 253 characters: an
  IPv6 literal with a long zone can grow when it is normalised (`AgentConfig.ValidateTwice`, `AgentExamples.LongHostHappens`).
- The agent ignores a failing `stop relay`; its report of success is then wrong exactly when the relay ran and is now disabled
  (`AgentRuns.IgnoredStop`, `AgentExamples.StopIsIgnored`).
- ZTNet's container gets all of `stack.env` but is not restarted when only the relay section changes, so that part of its
  environment goes stale exactly then (`AgentRuntime.ZtnetEnvironment`, `AgentExamples.EnvironmentIsStale`).
- The warning that a listener for ZeroTier members is added is also given when a wildcard listener covers them and none is added
  (`StackMeaning.AddsListenerMeans`).
- History files sort by revision only while the names have equally many digits (`AgentHistory.NameOrder`,
  `AgentHistory.OrderBreaks`). A failed apply leaves its snapshot behind: a rollback returns the configuration that is current
  anyway if and only if an apply failed since the last commit (`AgentRuns.RollbackExact`).
- With at most k sign-ins in flight the failure counter stays at most the limit - 1 + k, and reaches it, so the limit itself
  holds only without overlap (`Lockout.OverlapExact`).
- A delivery that the gateway confirmed can be sent again, but only if the sweeper had given it up before
  (`Outbox.SentIsFinal`, `Outbox.SentAgain`).
- Two pollers can announce the same switch of a member: the announcements alternate in every run if and only if no two readings
  carry the same controller time and the first observation cannot change `online` silently (`MemberObserver.AlternateExact`). Rows
  that existed before `notifyOnFirstOnline` was introduced are the ones that can. A poller that sees the time the row carries
  already puts no time into its event key.
- A signature that starts with four zero bytes is left out of the planet file (`World.SignatureRecoverable`).
- A range across the middle of the address space gets no route, and a backward one that starts in the upper half gets the default
  route (`Ipv4Pools.RouteExists`, `Ipv4Pools.BackwardRange`); a `/0` target matches only its own address
  (`Ipv4Pools.MatchesExact`). A generated pool is the hosts of its subnet unless the prefix is 0 or the subnet is the first or the
  last single address (`Ipv4Pools.PoolExact`), and its route can be computed back exactly for prefixes 1 to 30
  (`Ipv4Pools.PoolRouteRoundTrip`).
- A rate counter can wrap, and the rate bound fail, if and only if the packet limit is the largest 64-bit number, or the byte
  limit is and more than one packet is let through (`RelayRate.NoOverflowExact`, `RelayRate.BoundExact`). The release build adds
  without overflow checks.

## Model

| member | source | states |
|---|---|---|
| RuleText.CleanHex | services/ztnet/src/utils/rule-compiler.js:262-270 | The loop keeps exactly the hexadecimal digits of the lower-cased text, in order. |
| RuleText.CleanMac | services/ztnet/src/utils/rule-compiler.js:244-260 | The loop, which stops after twelve digits, gives the MAC text of all hexadecimal digits of the lower-cased input. |
| RuleText.MoreDigits | services/ztnet/src/utils/rule-compiler.js:244-260 | Digits behind the twelfth do not change the MAC text, so stopping early is harmless. |
| RuleScanner.Scan | services/ztnet/src/utils/rule-compiler.js:776-853 | The character loop with its mutable stack and pending token computes the folded block stack of the source's words. |
| RuleScanner.EndToken | services/ztnet/src/utils/rule-compiler.js:800-822 | A completed word is pushed, then closes the innermost non-empty block or opens a new one. |
| RuleScanner.CloseAll | services/ztnet/src/utils/rule-compiler.js:841-853 | At the end of input the pending word is pushed and the open blocks are folded. |
| RuleScanner.PushAllKeepsOrder | services/ztnet/src/utils/rule-compiler.js:800-834 | After any number of words, flattening the block stack bottom to top gives the earlier tokens followed by exactly the new ones. |
| RuleScanner.PushAllOk | services/ztnet/src/utils/rule-compiler.js:800-834 | No closed block is ever empty, and every block stands directly behind the keyword that opened it. |
| RuleScanner.CollapseKeepsOrder | services/ztnet/src/utils/rule-compiler.js:844-853 | Folding at the end of input keeps every token and stops above the bottom exactly at an empty top block. |
| RuleScanner.FinalTreeComplete | services/ztnet/src/utils/rule-compiler.js:844-853 | The final tree has all tokens of the stack if and only if no empty block is open at depth three or more. |
| RuleScanner.Pass1Complete | services/ztnet/src/utils/rule-compiler.js:776-853 | For every source text: the stack flattens to all its tokens, the tree is well formed, and tokens are lost if and only if input ends with an empty block open at depth three or more. |
| RuleScanner.SecondKeywordIsLost | services/ztnet/src/utils/rule-compiler.js:840-853 | Two opening keywords and a space are scanned to a tree without the second one, for every set of keywords. |
| RuleScanner.ScanOfPrint | services/ztnet/src/utils/rule-compiler.js:776-853 | Scanning the words of any printable tree gives that tree back. |
| RuleScanner.ScanOfSource | services/ztnet/src/utils/rule-compiler.js:776-853 | Scanning the printed source text of any printable tree gives that tree back, up to positions. |
| RulePositions.PositionsExact | services/ztnet/src/utils/rule-compiler.js:776-853 | The words stand where their line and column say, if and only if no comment that ends with a carriage return is followed by a word. |
| RulePositions.CommentLineCountsTwice | services/ztnet/src/utils/rule-compiler.js:785-797 | A text whose only word is reported one line too far down. |
| RuleScanner.CommentIsSkipped | services/ztnet/src/utils/rule-compiler.js:785-832 | A comment is skipped up to and including the end of its line, whatever it contains. |
| RuleMatches.CollectArgs | services/ztnet/src/utils/rule-compiler.js:294-320 | The argument loop yields the specified arguments after one `$` lookup each, or the first error. |
| RuleMatches.RenderMatches | services/ztnet/src/utils/rule-compiler.js:272-614 | The index loop appends to the given rules exactly the specified matches and stops at the specified error. |
| RuleMatches.RenderedMatchIsValid | services/ztnet/src/utils/rule-compiler.js:320-600 | A rendered match has its ports, ICMP type and code, TOS values and tag fields in range. |
| RuleMatches.FlagsExact | services/ztnet/src/utils/rule-compiler.js:272-614 | In a block that renders, there is one match for each match keyword, in order, and each carries `not` or `or` exactly when that word was written since the previous match. |
| RuleMatches.MatchesAfterLead | services/ztnet/src/utils/rule-compiler.js:276-286 | The words before a match keyword do nothing but set the two flags. |
| RuleMatches.MatchesAreValid | services/ztnet/src/utils/rule-compiler.js:272-614 | Every entry a match block emits, even before an error, is a valid match. |
| RuleMatches.MatchesSubstitute | services/ztnet/src/utils/rule-compiler.js:294-320 | Rendering a match block with parameters equals rendering the block with its `$param` arguments replaced, errors and positions included. |
| RuleMatches.ChrIsUnion | services/ztnet/src/utils/rule-compiler.js:535-551 | The loop over the names of a `chr` argument fails exactly on an unknown name, and otherwise adds exactly the named bits to the mask. |
| RuleMatches.ChrExact | services/ztnet/src/utils/rule-compiler.js:535-564 | A `chr` argument is rendered if and only if all its names are known, and then its mask has exactly the named bits if and only if neither bit 63 nor bit 31 is named together with another bit of its half. |
| RuleMatches.InboundIsLost | services/ztnet/src/utils/rule-compiler.js:535-564 | A concrete mask, `inbound,multicast`, that is rendered without bit 63. |
| RuleFields.NumberIsRead | services/ztnet/src/utils/rule-compiler.js:232-242 | Every number written in decimal or hexadecimal is read as that number. |
| RuleFields.RangeFields | services/ztnet/src/utils/rule-compiler.js:468-496 | `a-b` gives exactly the pair (a, b) and `a` the pair (a, a), for every keyword with a range, and anything but an ordered pair of 16-bit numbers is refused. |
| RuleFields.TosFields | services/ztnet/src/utils/rule-compiler.js:498-533 | The first argument is the mask and the second the range, each of 8 bits, or refused at its own position. |
| RuleFields.IcmpFields | services/ztnet/src/utils/rule-compiler.js:447-466 | The first argument is the type and the second the code, which -1 leaves open; each is refused above 255 at its own position. |
| RuleFields.NumberFields | services/ztnet/src/utils/rule-compiler.js:337-383 | A known name stands for its number and any other number for itself, in the field of the keyword. |
| RuleFields.RandomField | services/ztnet/src/utils/rule-compiler.js:385-396 | The probability is the part of the 32-bit range below the fraction, cut off at 0 and 1. |
| RuleFields.TagNumbers | services/ztnet/src/utils/rule-compiler.js:566-602 | With an undefined tag the first number is the identifier and the second the value. |
| RuleFields.TagNames | services/ztnet/src/utils/rule-compiler.js:566-602 | With a defined tag the identifier is the tag's, and the value is that of a flag, else of an enum, else a number; a flag with bit 31 is refused. |
| RuleFields.ZtFields | services/ztnet/src/utils/rule-compiler.js:323-335 | Ten hexadecimal digits are the node address, on the side the keyword names. |
| RuleFields.MacFields | services/ztnet/src/utils/rule-compiler.js:398-410 | Six pairs of digits are the MAC address, on the side the keyword names. |
| RuleFields.IpFields | services/ztnet/src/utils/rule-compiler.js:412-445 | The text in front of the slash decides between IPv6, IPv4 and an error, and a missing netmask is refused. |
| RuleActions.RenderActions | services/ztnet/src/utils/rule-compiler.js:616-765 | The recursive index loop appends exactly the specified rules and stops at the specified error. |
| RuleActions.RenderClause | services/ztnet/src/utils/rule-compiler.js:665-760 | One action appends its matches, then the action itself. |
| RuleActions.ActionsShape | services/ztnet/src/utils/rule-compiler.js:616-765 | Through any nesting of includes a successful rule list has the form (MATCH* ACTION)* and every entry is in range. |
| RuleActions.ActionsStem | services/ztnet/src/utils/rule-compiler.js:616-765 | Through any nesting of includes, a rule list that renders corresponds entry by entry to what is written: each match to its keyword, with `not` and `or` exactly as written before it, and each action to its word. |
| RuleActions.RankedTerminates | services/ztnet/src/utils/rule-compiler.js:622-664 | On every include graph with a rank, rendering ends within the rank and no deeper call stack changes the result. |
| RuleActions.SelfIncludeOverflows | services/ztnet/src/utils/rule-compiler.js:622-664 | A macro that includes itself exhausts every call stack. |
| RuleStack.DeeperIsSame | services/ztnet/src/utils/rule-compiler.js:622-664 | A result other than an overflow is the same on every deeper stack. |
| RuleStack.StackEnough | services/ztnet/src/utils/rule-compiler.js:622-664 | On a stack as deep as there are include texts the result is an overflow, and then it is one on every deeper stack, or it no longer depends on the stack. |
| RuleStack.OverflowDecided | services/ztnet/src/utils/rule-compiler.js:622-664 | Every stack is exhausted if and only if one as deep as there are include texts is. |
| RuleStack.CircleExact | services/ztnet/src/utils/rule-compiler.js:622-664 | Every stack is exhausted if and only if the includes that rendering reaches lead into a circle. |
| RuleStack.SiteCircleExact | services/ztnet/src/utils/rule-compiler.js:622-664 | Where every include resolves and every clause renders, every stack is exhausted if and only if the includes that are written there form a circle. |
| RuleActions.ExpandCorrect | services/ztnet/src/utils/rule-compiler.js:616-765 | Rendering a body with plain actual parameters equals rendering its expansion without parameters. |
| RuleActions.IncludeIsSubstitution | services/ztnet/src/utils/rule-compiler.js:622-664 | `include m(a1..an)` gives exactly the rules of the body with each `$param` match argument replaced by its actual, followed by the rest. |
| RuleCalls.CallByPosition | services/ztnet/src/utils/rule-compiler.js:629-664 | A macro defined as `m(p0,...,pn)` and called as `m(a0,...,am)`: the call succeeds if and only if m >= n, and then each parameter is bound to the actual at its own (last) position. |
| RuleCalls.IncludeByPosition | services/ztnet/src/utils/rule-compiler.js:622-664 | Rendering such a call gives the rules of the body with each parameter replaced by the actual at its position. |
| RuleActions.ExpansionExact | services/ztnet/src/utils/rule-compiler.js:294-320 | Expansion equals rendering for every body if and only if all actual parameters are plain. |
| RuleActions.ProbeFails | services/ztnet/src/utils/rule-compiler.js:294-320 | The body that tells the two apart for a parameter that is not plain. |
| RuleCompiler.SplitTree | services/ztnet/src/utils/rule-compiler.js:857-1127 | The loop of pass 2 computes the specified macros, tags, capabilities and base rules, or its error. |
| RuleCompiler.DefineMacroBlock | services/ztnet/src/utils/rule-compiler.js:876-906 | The loop over the parameter list numbers the parameters by their last position, and the macro is entered, or the error is returned with its position. |
| RuleCompiler.DefineBlock | services/ztnet/src/utils/rule-compiler.js:862-1127 | One macro, tag or capability definition: the new tables, or the error with its position. |
| RuleCompiler.DefineTagBlock | services/ztnet/src/utils/rule-compiler.js:930-1018 | The loop over a tag definition computes the specified tag, or its error. |
| RuleCompiler.DefineCapBlock | services/ztnet/src/utils/rule-compiler.js:1077-1110 | The loop over a capability definition computes the specified capability, or its error. |
| RuleCompiler.SplitOk | services/ztnet/src/utils/rule-compiler.js:857-1127 | Pass 2 keeps the tables sound: names are legal and not reserved, identifiers and enum values are 32-bit, and no two capabilities share a name or an identifier. |
| RuleCompiler.SplitBase | services/ztnet/src/utils/rule-compiler.js:857-1127 | The base rules are exactly the elements outside definitions, in source order. |
| RuleCompiler.Compile | services/ztnet/src/utils/rule-compiler.js:767-1145 | All three passes together compute the specified result for every source text. |
| RuleCompiler.CompileOk | services/ztnet/src/utils/rule-compiler.js:1131-1139 | Every successful compile yields base and capability rule lists of the form (MATCH* ACTION)* with every entry in range. |
| RuleCompiler.CompileTerminates | services/ztnet/src/utils/rule-compiler.js:1131-1145 | With acyclic macros the result is no stack overflow and does not depend on the stack size. |
| RuleCompiler.CompileStackExact | services/ztnet/src/utils/rule-compiler.js:1131-1145 | For every program: a stack as deep as it has include texts decides whether compiling exhausts every stack; if not, no deeper stack changes the result. |
| RuleCompiler.ProgramStems | services/ztnet/src/utils/rule-compiler.js:1131-1139 | In every compiled table each match carries `not` and `or` exactly as written, and nothing else is in the table. |
| RuleLanguage.MacroCallsAreSubstitution | services/ztnet/src/utils/rule-compiler.js:18-206 | For the compiler's own keyword tables: a macro call is substitution for every body if and only if all actuals are plain. |
| RuleLanguage.DropIsLost | services/ztnet/src/utils/rule-compiler.js:776-853 | The text `macro drop ` is scanned to a tree without `drop`. |
| RuleLanguage.CompileSource | services/ztnet/src/utils/rule-compiler.js:767-1139 | With the compiler's own block keywords, from source text to rule tables: tokens are lost exactly in the one case of pass 1, and a successful result is complete and in range. |
| RulePrinter.BodyReads | services/ztnet/src/utils/rule-compiler.js:320-612 | Every match that can be written is read back field by field, whatever its kind. |
| RulePrinter.TableReads | services/ztnet/src/utils/rule-compiler.js:616-765 | A written rule table renders as exactly that table. |
| RulePrinter.TagReads | services/ztnet/src/utils/rule-compiler.js:905-1045 | A written tag definition is read as the tag it describes: identifier, enums, flags and default. |
| RulePrinter.FlagIsUnion | services/ztnet/src/utils/rule-compiler.js:950-976 | A flag definition is refused if and only if it names an unknown bit, and its mask is the union of the flags and bits it names. |
| RulePrinter.CapReads | services/ztnet/src/utils/rule-compiler.js:1047-1123 | A written capability is read as the one it describes: name, identifier, default and rules. |
| RuleRoundTrip.ZeroTierDocumented | services/ztnet/src/utils/rule-compiler.js:18-206 | The compiler's own tables give every documented keyword its documented meaning. |
| RuleRoundTrip.CompileRoundTrip | services/ztnet/src/utils/rule-compiler.js:767-1145 | Tags, capabilities and base rules written as source text compile to exactly these tags, capabilities and rules, on every stack. |
| RuleRoundTrip.TableRoundTrip | services/ztnet/src/utils/rule-compiler.js:767-1145 | Every complete table of writable rules has a source text that compiles to exactly that table. |
| RelayRate.RateWindow.Allow | services/relay/src/main.rs:194-226 | For all limits the call restarts or keeps the window, admits exactly what fits and updates both counters modulo 2^64; they do not wrap within the limits of `Roomy`. |
| RelayRate.AdmittedBounded | services/relay/src/main.rs:194-226 | For every run of calls on a monotone clock whose counters cannot wrap, what is admitted in any half-open interval of L whole seconds is at most L + 1 times the limit, for packets and for bytes. |
| RelayRate.BoundReached | services/relay/src/main.rs:194-226 | A run that fills one second twice: the factor cannot be lowered. |
| RelayRate.NoOverflowExact | services/relay/src/main.rs:194-226 | No run from a new window wraps a counter if and only if the packet limit is below the largest 64-bit number and the byte limit is too or at most one packet is let through. |
| RelayRate.BoundExact | services/relay/src/main.rs:194-226 | The bound of `AdmittedBounded` holds for every run from a new window if and only if the same condition on the limits holds. |
| RelayRate.AdmittedExact | services/relay/src/main.rs:194-226 | After a second without a restart, the calls of the next second are all admitted if and only if their number and their bytes are within the limits. |
| RelaySlots.StepInv | services/relay/src/main.rs:243-287 | Every atomic step of `reserve` and `release` keeps the slot invariant. |
| RelaySlots.ReserveExact | services/relay/src/main.rs:243-275 | From every reachable state with the lock free, an idle thread that runs alone ends connected if and only if a global slot is free and the address has fewer connections than it may have; otherwise it ends idle and nothing changed. |
| RelaySlots.LimitsReached | services/relay/src/main.rs:243-275 | Some run uses all global slots, and some run all slots of one address. |
| RelaySlots.SlotsSafe | services/relay/src/main.rs:243-287 | Under every interleaving of any number of threads: both limits hold, `active` equals the sum of the table plus the threads between the two updates, each entry counts its connections, and an unlocked table has no zero entry. |
| RelaySlots.NoUnderflow | services/relay/src/main.rs:262-287 | No thread ever decrements a counter that is zero. |
| RelaySlots.AllSlotsReturned | services/relay/src/main.rs:243-287 | When all threads are idle, the counter is zero and the table empty. |
| RelaySlots.ZeroLimitLeavesZeroEntry | services/relay/src/main.rs:262-275 | With a per-address limit of zero, which the configuration refuses, a zero entry stays behind. |
| RelayCredit.StepInv | services/relay/src/main.rs:402-578 | Every step of either thread keeps the credit invariant: for each destination, credit, bytes in flight, delivered, dropped and forfeited add up to what was granted. |
| RelayCredit.CreditSafe | services/relay/src/main.rs:402-578 | Under every interleaving, for each destination: credit at most 16384, delivered plus credit at most granted, delivered at most 32 times sent; the table is bounded and every key passed the policy. |
| RelayCredit.WindowBound | services/relay/src/main.rs:402-578 | Between any two moments of a run a destination delivers at most one full credit and one packet more than 32 times what it was sent meanwhile. |
| RelayCredit.UnknownSourceSilent | services/relay/src/main.rs:413-422 | Nothing is delivered from a source that was never contacted. |
| RelayCredit.RequestExact | services/relay/src/main.rs:517-575 | A request within the rate is sent if and only if the policy allows its destination and that is known or the table has room; the credit then grows by max(512, 4 times the length) up to the cap. |
| RelayCredit.ResponseExact | services/relay/src/main.rs:408-460 | A reply within the rate is delivered if and only if its source was contacted and has that much credit, which it uses up. |
| RelayCredit.BoundReached | services/relay/src/main.rs:565-573 | A run in which a 16-byte request to any allowed destination brings 512 bytes back: the factor 32 is reached. |
| RelayFrames.ContainsIsInterval | services/relay/src/main.rs:102-140 | A prefix above 32 is refused; any other block contains exactly the interval of addresses that share its prefix. |
| RelayFrames.PolicyByRanges | services/relay/src/main.rs:698-721 | The fifteen masked comparisons exclude exactly the fifteen address ranges. |
| RelayFrames.PolicyByOctets | services/relay/src/main.rs:698-721 | The policy is exactly the condition on the octets that the special-purpose blocks name. |
| RelayFrames.FrameExact | services/relay/src/main.rs:655-675 | Byte by byte: which frames are refused as protocol errors, which for their destination, and which message any other frame is. |
| RelayFrames.BodyRoundTrip | services/relay/src/main.rs:655-696 | Parsing a written frame body returns the message, or refuses its destination exactly when the policy does. |
| RelayFrames.StreamRoundTrip | services/relay/src/main.rs:491-533 | Reading any list of written frames, followed by anything, gives the messages with allowed destinations in order, then whatever follows. |
| RelayFrames.AllowedListRoundTrip | services/relay/src/main.rs:491-533 | With allowed destinations and payloads of 16 to `max_frame_len` - 7 bytes, exactly the list that was written is read. |
| RelayFrames.TcpStream.ReadExact | services/relay/src/main.rs:592-637 | However the bytes arrive, a filled buffer holds exactly the next bytes of the stream and was filled before the deadline; end of stream is reported only if too few bytes were left. |
| RelayFrames.TcpStream.ReadHeader | services/relay/src/main.rs:639-647 | A complete header is the next five bytes; its first byte came within the idle timeout and the others within the handshake timeout after it. A timeout is reported only after one of the two. |
| RelayFrames.TcpStream.ReadRequests | services/relay/src/main.rs:491-533 | The loop returns a prefix of the requests in the stream, and all of them if it ends by refusing a record or at the end of the stream. |
| AgentConfig.OverlapMeansSharedEndpoint | services/config-agent/ztplanet_agent.py:166-171 | Two bindings overlap if and only if some connection could go to both. |
| AgentConfig.CollectCidrs | services/config-agent/ztplanet_agent.py:141-152 | The loop returns the canonical networks in order, or the error. |
| AgentConfig.CheckListeners | services/config-agent/ztplanet_agent.py:187-214 | The loop over the listeners returns the specified clean listeners and warnings, or the first error. |
| AgentConfig.AcceptedIsClean | services/config-agent/ztplanet_agent.py:174-382 | Whatever is accepted satisfies every range, name and conflict rule, and its warnings are a function of the result alone. |
| AgentConfig.CleanIsFixed | services/config-agent/ztplanet_agent.py:174-382 | Every clean configuration is accepted unchanged with the same warnings, unless its host is too long. |
| AgentConfig.ValidateTwice | services/config-agent/ztplanet_agent.py:174-382 | Validating a validated configuration returns the same configuration and warnings if and only if its canonical host fits. |
| AgentConfig.LongHostIsRefusedLater | services/config-agent/ztplanet_agent.py:155-163 | An address literal whose canonical form is too long is accepted once and refused the second time. |
| AgentConfig.EffectiveApart | services/config-agent/ztplanet_agent.py:887-904 | The effective listeners of a clean section are pairwise disjoint if and only if no uncovered wildcard takes a port in use. |
| AgentConfig.AcceptedBindings | services/config-agent/ztplanet_agent.py:361-374 | All TCP bindings of an accepted configuration (effective listeners, enabled relay, direct controller) are pairwise disjoint under the same exact condition. |
| AgentConfig.WildcardIsAccepted | services/config-agent/ztplanet_agent.py:887-904 | For every lawful library that knows the wildcard, an accepted configuration whose bindings overlap. |
| AgentLibrary.SampleIsLawful | services/config-agent/ztplanet_agent.py:133-171 | A library that parses and prints every address and network meets all the laws, so the theorems about validation apply to something. |
| AgentExamples.WildcardHappens | services/config-agent/ztplanet_agent.py:887-904 | With that library an accepted configuration has overlapping sockets. |
| AgentExamples.LongHostHappens | services/config-agent/ztplanet_agent.py:155-163 | With that library a configuration is accepted once and refused the second time. |
| AgentRuntime.UnchangedView | services/config-agent/ztplanet_agent.py:855-865 | A service that `changed_services` leaves out reads the same configuration from the new files. |
| AgentRuntime.ChangedExact | services/config-agent/ztplanet_agent.py:855-865 | A service is restarted if and only if one of the sections it is configured by changed. |
| AgentRuntime.EnvironmentReads | services/config-agent/ztplanet_agent.py:511-548 | Reading the variables of `stack.env` by their names gives back the fields they are named after, and the whole relay section. |
| AgentRuntime.ChangedSymmetric | services/config-agent/ztplanet_agent.py:855-865 | The way back restarts the same services as the way there. |
| AgentRuntime.ZtnetEnvironment | services/config-agent/ztplanet_agent.py:511-549 | While ZTNet is not restarted, its environment file stays current if and only if the relay section is unchanged. |
| AgentRuntime.RestartRepairs | services/config-agent/ztplanet_agent.py:578-628 | A restart that returns leaves exactly the required services, all under current files, if and only if a relay that must go did stop. |
| AgentRuntime.ChangeOutside | services/config-agent/ztplanet_agent.py:855-865 | From a coherent state, every service the new configuration does not restart is already right for it. |
| AgentRuntime.FailureOutside | services/config-agent/ztplanet_agent.py:475-483 | A failed attempt, whatever it restarted or took down, disturbs only services that the way back restarts or stops. |
| StackMeaning.GatewayServes | services/config-agent/ztplanet_agent.py:907-948 | A client is served if and only if an effective listener takes its connection and permits its address, in that listener's TLS mode, with the controller's API behind it if and only if the exposure is `https`. |
| StackMeaning.EffectiveExact | services/config-agent/ztplanet_agent.py:887-904 | The effective listeners are the configured ones and, if and only if none of these takes connections to the ZeroTier address, the first one moved to it. |
| StackMeaning.PortsExact | services/config-agent/ztplanet_agent.py:951-987 | Which port of the host leads to which port of a container, in both directions. |
| StackMeaning.NodeSettings | services/config-agent/ztplanet_agent.py:549-570 | The node's relay mode can be read back from its settings, a relay is named exactly in the custom modes, and a port is set exactly if it is not zero. |
| StackMeaning.RelayReads | services/relay/src/main.rs:35-84 | The relay accepts every environment the agent renders for a validated configuration, with exactly the configured limits. |
| StackMeaning.RelayIsSafe | services/relay/src/main.rs:35-84 | These limits meet the conditions of the relay's slot and rate guarantees. |
| StackMeaning.LoginReads | services/ztnet/src/lib/auth.ts:22-33 | ZTNet's lockout works with exactly the configured attempts and cooldown. |
| StackMeaning.WarningsExact | services/config-agent/ztplanet_agent.py:202-359 | Each warning is given if and only if the configuration deserves it. |
| StackMeaning.ClearTextMeans | services/config-agent/ztplanet_agent.py:292-295 | The clear-text warning about the controller is given if and only if some client can reach its API through the gateway without TLS. |
| StackMeaning.AddsListenerMeans | services/config-agent/ztplanet_agent.py:243-245 | A listener is added if and only if the warning says so and no wildcard listener covers the address. |
| AgentHistory.NameOrder | services/config-agent/ztplanet_agent.py:461-491 | File names sort like their revisions if and only if the earlier revision does not exceed the leading digits of the later one. |
| AgentHistory.NameOrderNarrow | services/config-agent/ztplanet_agent.py:461-491 | Below 100000000 names sort as revisions do. |
| AgentHistory.OrderBreaks | services/config-agent/ztplanet_agent.py:461-491 | The first pair of revisions that sorts the wrong way. |
| AgentMachine.PickNewest | services/config-agent/ztplanet_agent.py:491-494 | The candidate taken is the one whose name is last. |
| AgentMachine.NewestIsLargest | services/config-agent/ztplanet_agent.py:491-494 | Below 100000000 that is the largest revision. |
| AgentMachine.Agent.ApplyRuntime | services/config-agent/ztplanet_agent.py:578-628 | Firewall, stop, `up` and health check in order: the new set of running services and whether the call returned, for every behaviour of Docker. |
| AgentMachine.Agent.Transact | services/config-agent/ztplanet_agent.py:470-483 | The `try` and `except` blocks: on success the target is current and rendered, otherwise the old configuration and files are back and recovery was attempted. |
| AgentMachine.Agent.Apply | services/config-agent/ztplanet_agent.py:450-487 | The whole new state and the outcome of an apply, in every branch. |
| AgentMachine.Agent.Rollback | services/config-agent/ztplanet_agent.py:489-509 | The whole new state and the outcome of a rollback, in every branch. |
| AgentRuns.ActSound | services/config-agent/ztplanet_agent.py:450-509 | Every action keeps the current files rendered from the current configuration and the history renderable. |
| AgentRuns.SwitchCoherent | services/config-agent/ztplanet_agent.py:470-509 | Whether a switch succeeds or fails and is recovered, the running services match the configuration that is then current. |
| AgentRuns.RunCoherent | services/config-agent/ztplanet_agent.py:450-628 | Over every run of applies, recovered failures, rollbacks and reboots in which the relay obeys its stops: exactly the required services run, the relay only while enabled, each last started under files that configure it as the current configuration does. |
| StackMeaning.RunDoesAsTold | services/config-agent/ztplanet_agent.py:450-628 | Over every such run the services do what the current configuration says: who may connect where and how, the controller behind the gateway, whether the relay runs and its limits, the node's relay mode, and the lockout of logins. |
| AgentRuns.IgnoredStop | services/config-agent/ztplanet_agent.py:583-587 | After a reported success the services are coherent if and only if the relay stays enabled, was not running, or did stop. |
| AgentExamples.StopIsIgnored | services/config-agent/ztplanet_agent.py:583-587 | A request that switches the relay off, at which Docker ignores the stop: success is reported and the relay runs on. |
| AgentExamples.EnvironmentIsStale | services/config-agent/ztplanet_agent.py:855-865 | A request that changes only the relay section: the services are coherent, but the environment ZTNet runs with is not the current one. |
| AgentRuns.ReapplyRestartsNothing | services/config-agent/ztplanet_agent.py:590-594 | Applying the current configuration again restarts nothing, so it does not repair what a failed recovery left. |
| AgentRuns.HistoryHoldsRevisions | services/config-agent/ztplanet_agent.py:457-509 | In every run, the history entry of revision r holds the configuration committed as revision r. |
| AgentRuns.NoEffectTwice | services/config-agent/ztplanet_agent.py:452-487 | In every run, across evictions and reboots, no apply request takes effect twice. |
| AgentRuns.RepeatIsStored | services/config-agent/ztplanet_agent.py:452-487 | In every run, the key of each of the last 256 successes since a reboot returns the stored result and changes nothing. |
| AgentRuns.RollbackExact | services/config-agent/ztplanet_agent.py:461-509 | In every run, a committed rollback below revision 100000000 takes the snapshot of the largest revision, and that is the current one's own if and only if an apply failed since the last commit. |
| AgentRuns.AppliesUndone | services/config-agent/ztplanet_agent.py:457-509 | k committed applies followed by k committed rollbacks restore the configuration, raise the revision by 2k and leave the earlier history alone. |
| Outbox.StepInv | services/ztnet/src/server/notifications/service.ts:232-296 | Every database call, send, crash, retry and enqueue keeps the outbox invariant. |
| Outbox.WorkEffects | services/ztnet/src/server/notifications/service.ts:232-296 | Exactly which row a step of a drain cancels, gives up, claims, reports as sent or unknown, and deletes, and that no other row changes. |
| Outbox.OtherEffects | services/ztnet/src/server/api/routers/notificationRouter.ts:80-100 | Outside drains a row changes only by a manual retry of an unknown or failed delivery for the current destination. |
| Outbox.EnqueueExact | services/ztnet/src/server/notifications/service.ts:34-66 | An event is queued if and only if messages and its type are switched on and no row has its key. |
| Outbox.RecordLoginExact | services/ztnet/src/server/notifications/service.ts:208-230 | A login is queued by whoever records it first, and recorded even if nothing is queued. |
| Outbox.StatusIsTrue | services/ztnet/src/server/notifications/service.ts:262-289 | In every run a row that is sent was confirmed by the gateway, and one that is unknown was refused by it or given up by the sweeper. |
| Outbox.SentIsFinal | services/ztnet/src/server/notifications/service.ts:232-296 | In every run a sent row that the sweeper never gave up is never sent again and stays sent until it is deleted. |
| Outbox.SentAgain | services/ztnet/src/server/notifications/service.ts:232-296 | A run in which the sweeper gave up a delivery that is then confirmed and sent once more. |
| Outbox.DrainDelivers | services/ztnet/src/server/notifications/service.ts:232-296 | A drain without interference sends every waiting row it is given once if the destination is still the same, cancels it otherwise, and leaves what the gateway answered as its status. |
| Outbox.SendsBounded | services/ztnet/src/server/notifications/service.ts:232-296 | Under every interleaving: sends <= attempts <= 1 + retries for each delivery, and it is only sent to the destination it was queued for. |
| Outbox.NoBlindResend | services/ztnet/src/server/notifications/service.ts:206-289 | Without a manual retry nothing is sent twice. |
| Outbox.LoginAnnouncedOnce | services/ztnet/src/server/notifications/service.ts:208-241 | Under every interleaving a login session has at most one delivery ever, even after its row was cleaned up, so it is sent at most once plus its retries. |
| Outbox.EventsQueuedOnce | services/ztnet/src/server/notifications/service.ts:53-66 | Under every interleaving no two rows have the same event key. |
| MemberObserver.DeparturesBounded | services/ztnet/src/server/notifications/service.ts:141-172 | Under every interleaving of pollers, events depart from a revision at most as often as it can come about, and from the unobserved state at most once. |
| MemberObserver.DeparturesReached | services/ztnet/src/server/notifications/service.ts:141-172 | A run in which a revision that can come about m times gives rise to m events. |
| MemberObserver.DepartOnceExact | services/ztnet/src/server/notifications/service.ts:141-172 | Each observed revision enqueues its events at most once in every run if and only if no controller time is seen twice. |
| MemberObserver.SwitchesAlternate | services/ztnet/src/server/notifications/service.ts:120-172 | If no controller time is seen twice, the announcements that a settled member came or went alternate under every interleaving, and no two announcements share a key. |
| MemberObserver.AlternateExact | services/ztnet/src/server/notifications/service.ts:120-172 | They alternate in every run if and only if no controller time is seen twice and the first observation cannot change `online` without an event. |
| MemberObserver.EventFacts | services/ztnet/src/server/api/utils/memberObservation.ts:65-174 | From a settled row an observation changes `online` only together with an event, which announces the new value. |
| MemberObserver.ChangeExact | services/ztnet/src/server/api/utils/memberObservation.ts:111-138 | A lasting change of path is announced by the first observation 30 seconds or more after it was first seen, and by none before. |
| MemberObserver.ChangeForgotten | services/ztnet/src/server/api/utils/memberObservation.ts:94-138 | Seeing the known path again, no path at all, or a gap of more than 45 seconds starts the waiting over. |
| MemberObserver.AlonePersists | services/ztnet/src/server/notifications/service.ts:141-172 | A poller whose read and write nobody separates leaves the row as observed and announces its event. |
| World.SerializeEndpoint | services/ztnet/ztnodeid/pkg/node/world.go:97-120 | The appended bytes are the family, the shortest address form and the port. |
| World.SerializeIdentity | services/ztnet/ztnodeid/pkg/node/world.go:124-136 | The appended bytes are the identity layout, with the private key only on request and if there is one. |
| World.SerializeRoot | services/ztnet/ztnodeid/pkg/node/world.go:143-166 | The loop gives the root layout, or an error exactly past 32 endpoints. |
| World.Serialize | services/ztnet/ztnodeid/pkg/node/world.go:168-204 | The result is the signed message or the file, or the first of the two limit errors; the size error never occurs. |
| World.NeverTooLarge | services/ztnet/ztnodeid/pkg/node/world.go:26-31 | Within the limits on roots and endpoints both forms stay below half of the permitted length. |
| World.FileFromMessage | services/ztnet/ztnodeid/pkg/node/world.go:168-204 | The file is the signed message without its sentinels and with the signature inserted at offset 81. |
| World.IdentityRoundTrip | services/ztnet/ztnodeid/pkg/node/world.go:124-136 | A decoded identity is the one written, with its private key exactly when it has one and it was asked for. |
| World.RootRoundTrip | services/ztnet/ztnodeid/pkg/node/world.go:143-166 | A decoded root is the one written, whatever follows it. |
| World.FileRoundTrip | services/ztnet/ztnodeid/pkg/node/world.go:168-204 | Every file within the limits whose signature does not start with four zero bytes decodes to its world and signature. |
| World.MessageRoundTrip | services/ztnet/ztnodeid/pkg/node/world.go:168-204 | Every message within the limits decodes to its world. |
| World.SignatureRecoverable | services/ztnet/ztnodeid/pkg/node/world.go:178-181 | The file determines the signature if and only if the signature does not start with four zero bytes. |
| Lockout.SettingsFrom | services/ztnet/src/lib/auth.ts:22-33 | Whatever the environment holds, the limit is 1 to 20 and the cooldown 60 seconds to one day. |
| Lockout.SettingsExact | services/ztnet/src/lib/auth.ts:22-33 | A number within the limits is used as it is, one outside as the nearest limit, and nothing or zero as the default. |
| Lockout.UserRow.BeforeSignIn | services/ztnet/src/lib/auth.ts:244-360 | The new counter and time and the answer, in every branch; a failure is answered exactly when one is recorded. |
| Lockout.BelowLimit | services/ztnet/src/lib/auth.ts:244-280 | Below the limit every failure is counted and nobody is refused, whatever the times. |
| Lockout.LockoutExact | services/ztnet/src/lib/auth.ts:244-280 | After as many failures as permitted, the last at time t, a sign-in is refused if and only if it is checked before t plus the cooldown; from then on a failure counts as the first. |
| Lockout.SessionClears | services/ztnet/src/lib/auth.ts:409-417 | A new session ends every count. |
| Lockout.UserRow.OnSessionCreated | services/ztnet/src/lib/auth.ts:409-417 | A new session clears the counter. |
| Lockout.CounterBounded | services/ztnet/src/lib/auth.ts:244-360 | Over every serialized run the stored counter never exceeds the limit. |
| Lockout.SpanBounded | services/ztnet/src/lib/auth.ts:244-360 | Any span shorter than the cooldown without a new session records at most the permitted number of failures. |
| Lockout.SpanOfRunBounded | services/ztnet/src/lib/auth.ts:244-417 | The same for any part of any run, whatever came before it. |
| Lockout.LimitReached | services/ztnet/src/lib/auth.ts:264-280 | That many failures in a row are all recorded. |
| Lockout.StepFits | services/ztnet/src/lib/auth.ts:244-417 | Each database call of any sign-in keeps the counter plus the sign-ins past their check within the limit - 1 + k. |
| Lockout.OverlapExact | services/ztnet/src/lib/auth.ts:238-280 | Under every interleaving with at most k sign-ins in flight the counter is at most the limit - 1 + k, and some interleaving reaches that. |
| Lockout.SerializedIsOneInFlight | services/ztnet/src/lib/auth.ts:244-417 | A serialized run is an interleaving with one sign-in in flight. |
| CidrAllocator.Frequencies | services/ztnet/src/utils/IPv4gen.ts:29-37 | The table holds the number of occurrences of every subnet. |
| CidrAllocator.GenerateCidr | services/ztnet/src/utils/IPv4gen.ts:20-59 | The result is the drawn option if a random one is asked for, and otherwise the first option of least use, whichever branch returns it. |
| CidrAllocator.AllocationRotates | services/ztnet/src/utils/IPv4gen.ts:20-59 | When every result is fed back, the n-th allocation is option n modulo the number of options, and each option's use is known exactly. |
| CidrAllocator.AllocationFair | services/ztnet/src/utils/IPv4gen.ts:20-59 | Use counts never differ by more than one. |
| CidrAllocator.DefaultAllocation | services/ztnet/src/utils/IPv4gen.ts:1-59 | For the sixteen subnets of the program, the n-th allocation is option n modulo 16. |
| Ipv4Pools.NumberIsSigned | services/ztnet/src/utils/IPv4gen.ts:120-121 | The shifting reduction is the signed 32-bit reading of the address. |
| Ipv4Pools.CountCommonBits | services/ztnet/src/utils/IPv4gen.ts:113-118 | The loop finds the first place where the strings differ. |
| Ipv4Pools.RouteFor | services/ztnet/src/utils/IPv4gen.ts:123-135 | The detour through binary strings gives the network and length of the longest common prefix, or no route exactly when the signed comparison fails. |
| Ipv4Pools.NetworkClassCidr | services/ztnet/src/utils/IPv4gen.ts:96-138 | The loop returns the routes of the ranges in order. |
| Ipv4Pools.RouteExists | services/ztnet/src/utils/IPv4gen.ts:123-126 | An ordered range gets a route if and only if both ends lie in the same half of the address space. |
| Ipv4Pools.RouteLongest | services/ztnet/src/utils/IPv4gen.ts:128-134 | A prefix puts both ends into one block if and only if it is no longer than the route's. |
| Ipv4Pools.BackwardRange | services/ztnet/src/utils/IPv4gen.ts:123-134 | A range from the upper to the lower half gives the default route. |
| Ipv4Pools.IsIpInSubnet | services/ztnet/src/utils/isIpInsubnet.ts:5-37 | The search answers whether some target matches. |
| Ipv4Pools.MatchesExact | services/ztnet/src/utils/isIpInsubnet.ts:13-34 | A target matches exactly the addresses of its block, except that `/0` matches only its own address. |
| Ipv4Pools.RangeAccepted | services/ztnet/src/utils/isIpInsubnet.ts:13-34 | Every address between the ends of a range in one half is accepted against the route of that range. |
| Ipv4Pools.PoolNumbers | services/ztnet/src/utils/IPv4gen.ts:60-94 | For every prefix up to 32 the network and both ends of the pool, modulo 2^32; a prefix of 0 works like 32. |
| Ipv4Pools.PoolExact | services/ztnet/src/utils/IPv4gen.ts:60-94 | For every prefix up to 32: the pool is every address of the subnet but its first and its last, if and only if the prefix is not 0 and the subnet is not a single address at an end of the address space. |
| Ipv4Pools.PoolRouteRoundTrip | services/ztnet/src/utils/IPv4gen.ts:60-138 | The route computed back from a generated pool is the route the pool was generated with, if and only if the prefix is 1 to 30. |

## Left out

- User interface, network and file plumbing, cryptography, certificates, token rotation, status reporting, audit log, metrics counters and file modes: no deep property, or foreign library code.
- Rule compiler texts: lower-casing and white space are ASCII, keyword tables are finite maps without JavaScript prototype names, characters are code points, and the address patterns, the float parser and the alphabet of names are parameters.
- RuleText.CleanMac: numbers beyond 2^53 and other rounding of JavaScript numbers in `parseInt` and `parseFloat` are not modelled.
- RuleCompiler.Compile: is the function as its callers use it, with empty result objects, and its stack overflow is a bound on the depth of includes rather than bytes of stack.
- RuleRoundTrip.CompileRoundTrip: drafts hold no macros (RuleCalls.IncludeByPosition covers calls), and the text of a probability is supplied by the caller, because the float parser is a parameter.
- RelaySlots.SlotsSafe: memory orderings are not modelled; atomic operations are sequentially consistent.
- RelayCredit.StepInv: the answers of the rate windows are arbitrary inputs here; the windows themselves are in RelayRate.
- RelayFrames.TcpStream.ReadRequests: models what the loop reads; what it does with each request is in RelayCredit, and the `running` flag can only end it earlier, with a prefix. The greeting and the IPv6 branches, which drop the packet, are not modelled.
- RelayFrames.ContainsIsInterval: a bit mask of leading ones is modelled by clearing the low bits arithmetically.
- AgentConfig.AcceptedIsClean: JSON is represented by absent, mistyped or given fields; address, network, URL and host name parsing are parameters with stated laws, on the addresses and networks such a library has (printing and parsing are inverse, canonical forms are stable).
- AgentMachine.Agent.Apply: files are written atomically and never fail, timestamps are left out, and `expectedRevision` is a number or absent (Python would also accept an equal boolean or float).
- AgentMachine.Agent.ApplyRuntime: the generated files are values rather than texts (variables by name, sites, port mappings); a service view is the part of them that configures the service.
- StackMeaning.GatewayServes: a site takes the connections its `bind` address takes; matching of host names and the proxied applications are not modelled.
- AgentRuns.RunCoherent: says nothing about runs in which a recovery itself fails; AgentRuns.ReapplyRestartsNothing shows why nothing can be said.
- Outbox.StepInv: a worker may list any pending rows in any order, which includes the ten oldest; message texts are not modelled.
- MemberObserver.DeparturesBounded: one member's row, which is not deleted meanwhile; the derivation of the connection status from paths is an input, and columns that do not decide about events are left out, as is `syncMemberPeersAndStatus`, which nothing calls.
- World.SerializeEndpoint: an address has four or sixteen bytes, as the parser produces; parsing of endpoints and identities from text is not modelled.
- Lockout.UserRow.BeforeSignIn: password and code checks are inputs, and the backfill of account records is left out.
- Ipv4Pools.PoolNumbers: addresses are well-formed, prefixes are 0 to 32, and `|` of shifted octets is their sum.
- `syncManager.ts`, `rateLimit.ts`, `ssrfGuard.ts` and the better-auth wiring: reference counting, or behaviour of libraries.
