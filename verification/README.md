# Verified model of the multi-agent supervisor

The repository runs language-model agents over infrastructure tools. Most of it is input and output;
this project models the parts that are algorithms, protocols or state machines, and proves what their
documentation and tests promise of them. `dafny verify dfyconfig.toml` checks everything.

| files | what they model |
|---|---|
| `UnionFind`, `Evidence`, `Confidence` | counting independent signals with a disjoint-set forest, the confidence score, the ceiling on the language model's own judgement |
| `Transcript`, `Summary`, `SummaryFacts`, `Trimming`, `ContextView`, `TrimFacts`, `AgenticLoop`, `StreamingLoop`, `LoopProperties`, `AgentFacts`, `ContextTotal`, `SseEncoder` | the bounded tool-calling loop in both hand-written variants, the trimming of its history in place, and the frames a client receives |
| `ToolSchema`, `SchemaPasses`, `SchemaReferences`, `SchemaMeaning`, `SchemaLoosening`, `SchemaExactness`, `SchemaWitness`, `ToolNames` | compiling an MCP tool's JSON Schema for the Converse API and what that does to its meaning, and tool names on their way to the model and back |
| `Canary`, `CanaryFacts`, `CanaryResidue`, `CanaryOrder`, `CanaryPrefixes`, `CanaryClosedForm` | redaction of canary tokens, however separated or cased, and the escalation of repeated leaks |
| `RateLimiter`, `DailyBudget`, `SessionLock` | three protocols on a shared Redis store with expiring keys |
| `CircuitBreaker`, `WorkerPool` | a breaker with a clock, and a pool of interleaved jobs |
| `TokenWindow`, `Luhn` | the token window of a history and the card-number check |
| `Basics` | shared vocabulary |

How the model is built:

- Objects that the source mutates are classes (`UnionFind`, `MessageHistory`, `ToolNameMap`, `McpAdapter`,
  `DetectionLog`, `AdmissionGuard`, `Budget`, `Redis` and `Lock`, `Breaker`, `WorkerPool`), and loops are
  loops. Each method is proved against a function or relation on values; lemmas then say what that
  function means.
- The language model, the tools, the guardrail and the clock of the agentic loop are oracles: functions
  of the step, the position within it and what they are given (`World`). Everything proved about runs
  holds for every such world. `PlayOf` is one account of what a run sends and which tools it calls; both
  loops are proved to follow it, and it edits no list: what is sent is a closed form of the turns so far.
- The functions that the methods are proved against are themselves pinned: for each there are lemmas that say
  what it returns in terms of fields, characters and places, without naming it (`AgentFacts`, `TrimFacts`,
  `SummaryFacts`, `SchemaPasses`, `CanaryFacts`, and lemmas beside the smaller functions).
- JSON parsing and printing are a `Codec`. The only thing assumed of it is that a parsed list has no more
  elements than its text has characters (`Sane`).
- Interleavings on Redis, and between jobs, are sequences of atomic steps: one step per transaction or
  script, and one per stretch of code between two awaits.
- What a schema accepts is read off the server's document: `Refs` says what each of its references stands
  for, and for a JSON Pointer into the document itself that is what RFC 6901 says (`InDocument`, `Lookup`).
  What the compiler finds by name in its merged table is a separate function (`Target`); the two can differ.
- The semaphore of the worker pool is the one of Python 3.11's asyncio, which the repository's image runs:
  a returned permit goes to the oldest waiter at once, and a newcomer stands behind whoever waits.
- Times are reals and clocks do not run backwards where a `requires` says so.

Where the code and its own description disagree, the model follows the code:

- `score_confidence` says fewer than three independent signals give LOW and an unexplained contradiction
  caps at MEDIUM. The code gives MEDIUM on track A, HIGH on track B and with rollback timing, and LOW for
  the contradiction (`ScoreConfidence`, `OneSignalReachesHigh`). One more record can turn HIGH into MEDIUM: a
  mechanism beside a change, a change beside two mechanisms, or any record that joins two of three signals
  (`ExtendedHigh` says exactly when; `MechanismLowers`, `ChangeLowers`, `JoiningLowers` give the inputs).
- Two records in different fault domains are meant to be independent; they are not when one domain is
  missing and the subtypes derive, and such a record can make one signal of two (`MissingDomainJoins`).
- `check_rate` says it records a request on allow; it records denied ones too, so a client that retries
  prolongs its own ban (`AgreesWithDescription`, `RetryingProlongsTheBan`).
- The prefix cleanup of the canary guard is meant to leave no residue. It runs once in every round that
  finds its token, over the whole response, and leaves a prefix exactly when two stood in front of a marker
  after the last such round had replaced its token (`RoundsResidue`). How many prefixes go depends on how
  many tokens leaked and on the order in which they are tried (`SecondPrefixSurvives`, `OrderMatters`). Where
  tokens keep apart from one another and from prefixes, the residue can be read off the response
  (`ResidueInResponse`); where a token runs into a prefix, it cannot (`FusedCountFails`).
- Trimming keeps one tool-result turn more verbatim than configured, and summarizes old summaries again on
  every turn (`TurnAsSent`, `NeverRestored`).
- `run_agentic_loop` reads an unbound name when the budget is spent before the first call; the streaming
  loop ends properly (`LoopsAgree`).
- Registering a colliding tool name again hands out a new alias each time (`ReRegister`, `SecondAlias`), and
  the router sends a name to the last adapter that advertises it (`RouteIsOwn`).
- Before the name map exists the adapter reads a Converse name back by turning every underscore into a hyphen;
  a tool whose name has both is then out of reach (`UnmappedNameReaches`).
- HALF_OPEN is described as one attempt; it admits any number until an outcome is recorded
  (`ProbeRepeatedly`).
- The worker pool is described as rejecting at once and never queueing. A job admitted before another
  starts can wait (`AdmittedMayWait`), and so can one admitted to an empty table, behind a waiter that has
  been handed the permit but has not resumed (`AdmittedBehindWaiter`, `AdmittedStartsAtOnce`). Two jobs under
  one id would make the pool look emptier than it is (`FreePlusActive`, `SharedIdHidesJob`); this concerns
  the pool's interface, as the gateway draws a fresh id for every job (src/gateway/main.py:185, 254).
- `release` is described as releasing the lock if it is held. A holder that has acquired again no longer knows
  that it holds, and its release leaves the key; otherwise a holder's release frees the session
  (`ReleaseFreesSession`, `FlagInsideLease`, `ReacquireForgets`).
- The schema compiler is meant to keep what a schema accepts, and does under conditions (`NormalizeIsExact`,
  `NormalizeOnlyLoosens`). A reference is followed only by name in the
  definitions tables: any other, such as "#/properties/a", becomes "any object" (`OutsideAcceptsObjects`,
  `PointerIsLost`), and a name that both tables define is read from `definitions` (`SharedNameIsLost`).
  Inlining a reference drops the keywords beside it, which JSON Schema 2020-12 Core section 8.2 asserts, so it
  can loosen, and below `oneOf` refuse (`SiblingsAreLost`, `OneOfLosesExactness`). Stripping
  `patternProperties` or `prefixItems` refuses what only they allowed (`PatternsAreForgotten`,
  `ItemsTakeOver`). A nullable union loses null (`NullIsRefused`); a union of several types, and anything at
  the depth limit, compiles to "any object" (`CollapseAcceptsObjects`, `VariantIsRefused`,
  `CutAcceptsObjects`, `DeepTextIsRefused`). A reference under `additionalProperties` stays and leads nowhere
  (`ReferenceStays`).

## Model

| member | source | states |
|---|---|---|
| UnionFindForest.UnionFind.Find | src/core/investigation.py:206-210 | find with path halving ends on links of any length, returns the representative, and rewrites links without moving any element to another class |
| UnionFindForest.UnionFind.Union | src/core/investigation.py:212-215 | afterwards exactly the two classes are one, every other class is as before |
| UnionFindForest.LinkKeepsForest | src/core/investigation.py:212-215 | hanging one root under another, with no balancing, keeps the links free of cycles |
| UnionFindForest.HalvingKeepsForest | src/core/investigation.py:206-210 | halving a link keeps the links free of cycles and every representative |
| EvidenceModel.CountIndependent | src/core/investigation.py:187-240 | the count is the number of connected components of dependence between records |
| EvidenceModel.IndependenceRules | src/core/investigation.py:160-235 | by the fields alone: records linked by a source or a trace depend on each other; of the others two in different domains never do, two of which one or both lack a domain do exactly if their subtypes are listed, and two in one domain also if their layers agree; the relation is symmetric |
| EvidenceModel.ListedPairs | src/core/investigation.py:26-36 | the nine pairs of subtypes of which the second derives from the first |
| EvidenceModel.IndependentRecords | src/core/investigation.py:187-240 | records of which no two depend on each other are as many signals as records |
| EvidenceModel.ParsedRecords | src/supervisor/investigation.py:174-205 | records as they are parsed from an agent's answer, without source, trace, subtype and domain, are each a signal of their own, alike or not |
| EvidenceModel.RootsAreComponents | src/core/investigation.py:217-240 | once all pairs are scanned, two records share a representative if and only if a chain of dependent records joins them |
| EvidenceModel.CountIgnoresOrder | src/core/investigation.py:187-240 | every reordering of the evidence has the same number of components |
| EvidenceModel.MissingDomainJoins | src/core/investigation.py:160-184 | for any two independent records, a third without a fault domain whose subtype derives from or to both turns two signals into one |
| Confidence.ValidateTemporalOrder | src/core/investigation.py:243-290 | reports a violation for each pair of layers whose earliest signs are out of order, and no other |
| Confidence.ViolationsAre | src/core/investigation.py:266-290 | of each of the three pairs of layers: a reported violation carries the earliest timestamps of both, out of order, and one is reported exactly if the pair is out of order |
| Confidence.PrecedesMeans | src/core/investigation.py:257-290 | if both layers have records with a timestamp, one record of the first is not later than any of the second |
| Confidence.PrecedesBecause | src/core/investigation.py:257-290 | and they are in order only then, or if one of the layers has no timestamp |
| Confidence.OrderedMeans | src/core/investigation.py:266-290 | the order asked for is that of change and mechanism, mechanism and impact, and change and impact |
| Basics.FirstDifference | src/core/investigation.py:260-264 | timestamps compare as strings: the first character that differs decides, and a text comes after what it begins with |
| Confidence.EarliestIsLeast | src/core/investigation.py:257-264 | the earliest timestamp of a layer is one of its own and no later than any other; none if the layer has none |
| Confidence.NoViolationsMeansOrdered | src/core/investigation.py:243-290 | no violation if and only if each layer has a sign no later than every sign of the layers after it |
| Confidence.Classify | src/core/investigation.py:311-328 | the accumulators hold which layers are present, how many mechanism records there are, and whether a contradiction is unexplained |
| Confidence.ScoreConfidence | src/core/investigation.py:293-364 | the cascade of early returns computes a score stated without order of tests; HIGH if and only if the evidence is in order, unblocked, shows impact and explains it in one of three ways; with fewer than three independent signals LOW exactly when the evidence is blocked or covers at most one layer |
| Confidence.ScoreMeans | src/core/investigation.py:293-364 | level and track by what the evidence holds, written out: when exactly HIGH, when exactly LOW, and the track on HIGH and MEDIUM by whether there is a change |
| Confidence.OneSignalReachesHigh | src/core/investigation.py:348-351 | one independent signal, seen three times, already gives HIGH on track B |
| Confidence.ExtendedHigh | src/core/investigation.py:335-364 | for every record added to a HIGH score: LOW exactly if the evidence is then blocked, MEDIUM exactly if it then has change and mechanism but fewer than three signals, HIGH otherwise |
| Confidence.MechanismLowers | src/core/investigation.py:342-356 | three records of one trace score HIGH, and MEDIUM once a mechanism is added |
| Confidence.ChangeLowers | src/core/investigation.py:342-356 | two mechanisms and an impact of one trace score HIGH, and MEDIUM once a change is added |
| Confidence.JoiningLowers | src/core/investigation.py:342-344 | three independent records of change, mechanism and impact score HIGH, and MEDIUM once any record joins two of them |
| Confidence.ScoreIgnoresOrder | src/core/investigation.py:293-364 | the score is the same for every order of the evidence |
| Confidence.AltaMeans | src/supervisor/investigation.py:268-291 | the final label is "alta" if and only if the model gives HIGH, there are three distinct (agent, signal) pairs, and no contradicting index is valid |
| Confidence.BaixaMeans | src/supervisor/investigation.py:268-291 | the final label is "baixa" if and only if the model gives LOW, or there are fewer than two pairs, or two with a valid contradiction |
| Confidence.ContradictionsOnlyLower | src/supervisor/investigation.py:270-291 | naming more contradictions never raises the label, and no list raises it above the evidence model's level |
| Confidence.SignalsAre | src/core/investigation.py:142-145 | the pairs that are counted are those of agent and signal type of the records |
| Confidence.LabelIgnoresOrder | src/supervisor/investigation.py:268-291 | the final label is the same for every order of the evidence |
| Canary.MatchEndSound | src/core/canary.py:65-91 | whatever the matcher finds is a word of the pattern's language |
| Canary.MatchEndComplete | src/core/canary.py:65-91 | a pattern none of whose letters is a separator has at most one match at a place, and the matcher finds it |
| Canary.SearchIsLeftmost | src/core/canary.py:198-206 | search finds the leftmost match, or there is none |
| Canary.SubRedacts | src/core/canary.py:206-210 | a substitution cuts the text into words of the pattern and stretches without any, keeps the stretches in order and turns each word into one marker |
| Canary.SubRemoves | src/core/canary.py:206 | substituting a token's own pattern leaves no occurrence of it, however separated or cased |
| Canary.SubKeepsClean | src/core/canary.py:206-210 | a substitution of any pattern never re-creates a token |
| Canary.RoundsClean | src/core/canary.py:193-210 | after all rounds no injected token occurs: later rounds never undo earlier ones |
| Canary.RoundsUnchanged | src/core/canary.py:173-175 | the response comes back unchanged if and only if no token occurred in it |
| Canary.LeakSurvives | src/core/canary.py:192-204 | whether a leak is noticed does not depend on the order of the tokens |
| Canary.ExactIsFuzzy | src/core/canary.py:195-198 | an exact copy of a token is a match of its separator-tolerant pattern |
| CanaryFacts.ObfuscatedIsFound | src/core/canary.py:65-79 | a token is found if and only if its digits, each as it is or as its upper-case letter, stand in order in the response with nothing between them but white space, "-", "_", "." and zero-width spaces |
| CanaryFacts.PrefixIsSpelled | src/core/canary.py:82-91 | a prefix is found if and only if "CNRY", in either case and spaced in the same way, stands before a marker in one piece |
| CanaryFacts.TokenShape | src/core/canary.py:44-62 | a token is "CNRY-" and digits from 0 to 9 and a to f |
| CanaryFacts.LoneToken | src/core/canary.py:192-210 | a response that is a token, or the digits of one, becomes "[redacted]" |
| Canary.RedactTokens | src/core/canary.py:192-210 | the loop returns the redacted response, reports a leak exactly when a token occurred, and leaves no token |
| Canary.DetectionLog.Detect | src/core/canary.py:158-231 | returns the redacted response; a leaking call with a session adds one to that session's count and is blocked exactly when the count passes the threshold; a call without a session or without a leak is never blocked and leaves the counts alone |
| CanaryFacts.CallsAreCounted | src/core/canary.py:212-230 | the same of the calls that ProbesAreCapped counts |
| Canary.ProbesAreCapped | src/core/canary.py:177-187 | however calls of sessions interleave, a session is answered on its first `threshold` leaks and on no later one |
| CanaryResidue.CleanupResidue | src/core/canary.py:82-91 | after the prefix cleanup a prefix stands in front of a marker if and only if the text held the prefix twice in front of one |
| CanaryResidue.RoundsResidue | src/core/canary.py:192-210 | after all rounds a prefix stands in front of a marker if and only if it stood there twice after the last round that fired had replaced its token, for every response and every list of tokens |
| CanaryResidue.ResidueOfLoop | src/core/canary.py:192-210 | there is such a last round exactly when a token leaked; otherwise the response is unchanged |
| CanaryClosedForm.ResidueInResponse | src/core/canary.py:192-210 | read off the response: a prefix is left if and only if a marker in it has more prefixes in front than tokens leaked, or a token has more than leaked from its own round on; for every response in which tokens overlap neither each other nor the first letter of a prefix |
| CanaryClosedForm.PrefixesAfter | src/core/canary.py:192-210 | the same after any number of rounds and for any number of prefixes |
| CanaryClosedForm.FusedCountFails | src/core/canary.py:192-210 | for every token that ends in "c" a response where the token runs into a prefix and the count is wrong |
| CanaryPrefixes.CleanupTakesOne | src/core/canary.py:82-91 | one cleanup takes exactly one prefix from every marker that has one, for any number of prefixes |
| CanaryPrefixes.RedactionMoves | src/core/canary.py:206 | replacing a token hands its prefixes to the marker and leaves those of other markers alone |
| CanaryResidue.SecondPrefixSurvives | src/core/canary.py:192-210 | a token with a second prefix in front comes back with a prefix left over, from any list of tokens in which no other one leaked |
| CanaryOrder.OrderMatters | src/core/canary.py:192-210 | for any two tokens of one length, one response that leaks both comes back without a prefix in one order of the tokens and with one in the other |
| ToolSchema.NormalizeIsReady | src/core/tool_schema.py:215-242 | whatever a server sends, a result is an object schema with only accepted keywords, no reference and no union on any properties/items path, and nesting at most the limit |
| ToolSchema.OutputIsClean | src/core/tool_schema.py:163-212 | capping and then stripping leaves only what Converse accepts, at every depth |
| ToolSchema.CleanNests | src/core/tool_schema.py:163-184 | an accepted schema nests no deeper than the limit |
| ToolSchema.FixedPoints | src/core/tool_schema.py:215-242 | the compiler leaves a schema alone if and only if Converse accepts it |
| ToolSchema.NormalizeIsIdempotent | src/core/tool_schema.py:215-242 | compiling twice is compiling once |
| SchemaPasses.UnwrappedUnion | src/core/tool_schema.py:130-141 | a union with one variant that is not null, in any place and beside any siblings, becomes that variant, simplified: exactly its keywords, and the union's description if it has a true one and the variant has none |
| SchemaPasses.CollapsedUnion | src/core/tool_schema.py:142-150 | a union of nothing but null becomes any object, and one of several types any object under the description |
| SchemaPasses.VariantsAre | src/core/tool_schema.py:132-134 | which values are unions, and which make the compilation fail |
| SchemaPasses.NonNullInOrder | src/core/tool_schema.py:134 | the variants that are not null are kept in their order |
| SchemaPasses.SimplifyNode | src/core/tool_schema.py:152-162 | a schema without a union keeps every keyword; unions are looked for under properties and items |
| SchemaPasses.ResolveNode | src/core/tool_schema.py:104-118 | a schema without a reference keeps each keyword but the tables; references are resolved under properties, items and unions, and nowhere else |
| SchemaPasses.ResolveReference | src/core/tool_schema.py:87-102 | a reference becomes what it names, itself resolved, or any object if it names nothing or the hops are used up |
| SchemaPasses.TargetOf | src/core/tool_schema.py:95-99 | under either prefix the name is looked up in the merged tables; any other path finds nothing |
| SchemaPasses.CapNode | src/core/tool_schema.py:163-184 | at the fourth level any object under the description, above it every keyword, one level deeper under properties and items |
| SchemaPasses.StripNode | src/core/tool_schema.py:187-212 | the accepted keywords stay, and properties and items are stripped in turn |
| SchemaPasses.AllowedKeywords | src/core/tool_schema.py:197-201 | the fourteen accepted keywords |
| SchemaPasses.FalseValues | src/core/tool_schema.py:139 | what Python takes for false |
| SchemaPasses.KeywordNames | src/core/tool_schema.py:95-97 | the keywords by their names in a reference |
| SchemaPasses.DefinitionsOf | src/core/tool_schema.py:227-230 | a definitions table that is missing or empty defines nothing |
| SchemaPasses.CompiledOf | src/core/tool_schema.py:221-242 | the passes' result if it says "object" at its root, and otherwise, or without a schema, any object with no properties |
| ToolSchema.ResolveKeeps | src/core/tool_schema.py:77-117 | resolving references is the identity on an accepted schema |
| ToolSchema.SimplifyKeeps | src/core/tool_schema.py:120-160 | simplifying unions is the identity on an accepted schema |
| ToolSchema.CapKeeps | src/core/tool_schema.py:163-184 | capping is the identity on an accepted schema |
| ToolSchema.StripKeeps | src/core/tool_schema.py:187-212 | stripping is the identity on an accepted schema |
| ToolSchema.ResolveInlines | src/core/tool_schema.py:77-117 | for every schema and every table of definitions, cyclic ones too, the result has no reference and no definitions table through properties, items and unions |
| ToolSchema.CapIsHarmless | src/core/tool_schema.py:80-90 | when reference chains are short enough, more hops would not change the result |
| ToolSchema.SimplifyLeavesNoUnion | src/core/tool_schema.py:120-160 | no anyOf or oneOf is left before keywords are stripped |
| SchemaReferences.LocalAgrees | src/core/tool_schema.py:95-108 | where a reference names an entry of the table it mentions, and `definitions` does not define a name of `$defs` again, the compiler inlines what the document's pointer leads to |
| SchemaReferences.DefsReference | src/core/tool_schema.py:227-230 | what the document and the compiler make of a reference into `$defs`: they differ if and only if `definitions` gives the name another schema |
| SchemaMeaning.LocalReferencesAgree | src/core/tool_schema.py:95-108 | so such references meet the condition of the next results exactly if they stand for schemas |
| SchemaMeaning.ResolveKeepsMeaning | src/core/tool_schema.py:77-117 | the inlined schema accepts whatever the document accepts, keywords beside references asserted, where the compiler follows each reference to what the document says or the document says objects (below `oneOf` only annotations may stand beside one, and past the hop limit only objects be named); where all references are followed to the end and only annotations stand beside them it accepts exactly that |
| SchemaMeaning.KeptIsWeaker | src/core/tool_schema.py:187-212 | what a whole schema accepts, the part of it that can survive the compiler accepts |
| SchemaLoosening.SimplifyLoosens | src/core/tool_schema.py:120-162 | unwrapping nullable unions refuses no instance without nulls (SchemaExactness.SimplifyAddsNothing is the converse) |
| SchemaLoosening.CapLoosens | src/core/tool_schema.py:163-184 | capping refuses nothing when only objects are cut |
| SchemaLoosening.StripLoosens | src/core/tool_schema.py:187-212 | stripping refuses nothing where no `patternProperties` stands beside `additionalProperties` and no `prefixItems` beside `items` |
| SchemaLoosening.NormalizeOnlyLoosens | src/core/tool_schema.py:215-242 | whatever arguments without nulls the server's schema accepts, the compiled schema accepts, under conditions on the server's schema alone: references found by name where the document leads, or to objects; objects past the hop limit and at the depth limit; unions of one schema or null; no accepted keyword beside a stripped one that it depends on; an object at the root |
| SchemaExactness.UnwrapMeans | src/core/tool_schema.py:130-141 | for every instance but null: the union accepts exactly what its variant accepts, and the unwrapped schema exactly what the simplified variant accepts |
| SchemaExactness.SimplifyAddsNothing | src/core/tool_schema.py:120-162 | what the simplified schema accepts the schema accepts, where every union is one schema or null beside nothing but annotations |
| SchemaExactness.StripAddsNothing | src/core/tool_schema.py:163-212 | what the capped and stripped schema accepts the schema accepts, where nothing but "object" is asked at the depth limit and no keyword that counts is stripped |
| SchemaExactness.NormalizeIsExact | src/core/tool_schema.py:215-242 | of arguments without nulls the compiled schema accepts exactly those that the server's schema accepts, by its kept keywords, or in full if nothing is stripped: where references are followed to the end, every union is one schema or null, only annotations stand beside references and unions, only "object" is asked at the depth limit, and the root says "object" |
| SchemaLoosening.CollapseAcceptsObjects | src/core/tool_schema.py:142-149 | any other union accepts exactly the objects afterwards |
| SchemaLoosening.CutAcceptsObjects | src/core/tool_schema.py:168-172 | a schema at the depth limit accepts exactly the objects afterwards |
| SchemaWitness.PatternsAreForgotten | src/core/tool_schema.py:187-212 | for every pattern and every name that matches it: the object is accepted before and refused by the compiled schema |
| SchemaWitness.ItemsTakeOver | src/core/tool_schema.py:187-212 | without `prefixItems` an array is refused whose first element only that keyword allowed |
| SchemaWitness.PrefixIsForgotten | src/core/tool_schema.py:187-212 | such as a text before an integer |
| SchemaWitness.OutsideAcceptsObjects | src/core/tool_schema.py:95-108 | whatever a reference outside the definitions tables stands for, it accepts exactly the objects afterwards |
| SchemaWitness.PointerIsLost | src/core/tool_schema.py:95-108 | an instance of one property's schema, no object, under another property that refers to the first is accepted by the document and refused by the compiled schema |
| SchemaWitness.TextByPointerIsLost | src/core/tool_schema.py:95-108 | such as a text under a property that refers to "#/properties/a" |
| SchemaWitness.SharedNameIsLost | src/core/tool_schema.py:227-230 | an instance of what `$defs` gives to a name is refused when `definitions` gives the name a schema that refuses it |
| SchemaWitness.TextBySharedNameIsLost | src/core/tool_schema.py:227-230 | such as a text under a name for texts in `$defs` and for integers in `definitions` |
| SchemaWitness.SiblingsAreLost | src/core/tool_schema.py:95-108 | what a keyword beside a reference refuses and the definition accepts is accepted after inlining |
| SchemaWitness.LengthIsLost | src/core/tool_schema.py:95-108 | such as a text longer than `maxLength` beside a reference |
| SchemaWitness.OneOfLosesExactness | src/core/tool_schema.py:95-117 | below `oneOf` a lost sibling makes two variants accept where one did, so the instance is refused |
| SchemaWitness.OneOfTwoLengths | src/core/tool_schema.py:95-117 | such as a text of two characters, at most one beside a reference or at most two |
| SchemaWitness.ReferenceStays | src/core/tool_schema.py:77-117 | a reference under `additionalProperties` survives the compiler while its definitions do not |
| SchemaWitness.NullIsRefused | src/core/tool_schema.py:120-160 | a nullable union accepts null before and not afterwards |
| SchemaWitness.VariantIsRefused | src/core/tool_schema.py:142-149 | whatever one of two types accepts, unless it is an object, is refused afterwards |
| SchemaWitness.TextIsRefused | src/core/tool_schema.py:142-149 | such as a text under a union of texts and integers |
| SchemaWitness.DeepTextIsRefused | src/core/tool_schema.py:163-184 | a text schema at the depth limit no longer accepts texts |
| ToolNames.ToolNameMap.Register | src/core/tool_schema.py:45-58 | the suffix search ends and picks the least free suffix, and both directions of the map stay consistent |
| ToolNames.RegisterKeeps | src/core/tool_schema.py:31-58 | registration keeps names hyphen-free, round trips, and never re-points a name already handed out |
| ToolNames.ConverseNamesAreDistinct | src/core/tool_schema.py:45-66 | distinct server names have distinct Converse names |
| ToolNames.ReRegister | src/core/tool_schema.py:45-58 | registering again returns the same name if and only if the name does not collide |
| ToolNames.SecondAlias | src/core/tool_schema.py:45-58 | whenever two server names sanitize alike, registering the first once and the second twice leaves three names: the sanitized one, _1 and _2 |
| ToolNames.NamesAre | src/core/tool_schema.py:45-57 | hyphens become underscores and nothing else changes; an alias is the name, an underscore and a decimal number |
| ToolNames.McpAdapter.BuildSpecs | src/core/adapters.py:361-380 | advertises one hyphen-free name per allowlisted tool, in order, and calling any of them afterwards reaches the tool it was built from |
| ToolNames.FilteredInOrder | src/core/adapters.py:361-380 | the tools that are advertised are the allowlisted ones in the server's order |
| ToolNames.McpAdapter.CallTool | src/core/adapters.py:407-415 | which server tool a name reaches, or that it is refused: only allowlisted tools are reached, and before there is a map a name that spells none of them is refused |
| ToolNames.AccessIs | src/core/adapters.py:407-460 | which tool a name reaches, written out, with a map and without: the mapped tool, else the tool of just that name, else the tool of that name with hyphens for underscores, and none that is not allowlisted |
| ToolNames.UnmappedNameReaches | src/core/adapters.py:442-460 | without a map the Converse name of an allowlisted tool reaches that tool if and only if the tool's name has no hyphen, or no underscore and nobody else has the Converse name |
| ToolNames.MappedNameReaches | src/core/adapters.py:442-451 | a name in the map reaches exactly the tool it stands for, if that is allowlisted, and is refused otherwise |
| ToolNames.BuildRoutes | src/core/agentic_loop.py:315-331 | the route of a name is the last adapter that advertises it |
| ToolNames.RouteIsOwn | src/core/agentic_loop.py:178-189 | a call goes back to an adapter of the advertising one's name if and only if the last adapter that advertises the tool has that name |
| Trimming.FindPairedToolUse | src/core/truncation.py:294-324 | the name and arguments of the first tool use with this id in the nearest assistant message before; ("unknown", "{}") if there is none or the id is empty |
| TrimFacts.TrimsExactly | src/core/truncation.py:217-291 | a message is rewritten if and only if it is a tool-result turn, not the first and not among the last two messages, and at least as many such turns follow as are kept, and one even if none is to be kept; of it every text in a result is summarized under its own tool, and nothing else changes |
| TrimFacts.ToolOfId | src/core/truncation.py:294-324 | where the ids of a response's tool uses are not empty and differ, each id finds its own tool's name and arguments |
| Trimming.MessageHistory.Trim | src/core/truncation.py:217-296 | the in-place loops rewrite exactly the turns before the last N, every text of every result, and nothing else |
| Trimming.MessageHistory.RewriteMessage | src/core/truncation.py:268-291 | rewriting one turn block by block changes that message only, and only texts inside tool results |
| Trimming.TrimKeepsProtocol | src/core/truncation.py:217-232 | trimming keeps the Converse protocol and the first message |
| ContextView.TrimReachesView | src/core/truncation.py:242-291 | trimming the list in place, turn after turn, yields the closed form: turn t summarized max(0, k - N - t) times, everything else verbatim |
| ContextView.ViewKeepsProtocol | src/core/truncation.py:217-296 | every such list obeys the Converse protocol |
| ContextView.NewestVerbatim | src/core/truncation.py:246-263 | the first message, all assistant messages and the newest N + 1 tool-result turns are verbatim |
| AgenticLoop.ExecuteTools | src/core/agentic_loop.py:447-527 | one answer per tool use, in order: for a tool that ran the opening tag, its output screened and then truncated, and the framing, and for the others an error that says why; the calls made and the tools not run, in order |
| AgentFacts.CallsInOrder | src/core/agentic_loop.py:447-493 | the calls made are those of the tool uses that are safe and have a route, each once, in order, through the adapter of its route; the names of all others, in order, are the unfulfilled ones |
| AgentFacts.ToolsInOrder | src/core/agentic_loop.py:428-430 | the tool uses of a turn are the tool-use blocks of the response, in order |
| AgentFacts.PartsInOrder | src/core/agentic_loop.py:605-619 | the assistant's message holds every text and every tool use of the response, in order, and nothing else |
| AgentFacts.TextsInOrder | src/core/agentic_loop.py:420-423 | an answer is made of the texts of the response that are not empty, in order |
| AgentFacts.AnswerJoins | src/core/agentic_loop.py:420-423 | and the texts are joined by line breaks |
| AgenticLoop.TurnAnswers | src/core/agentic_loop.py:441-533 | blocked, unrouted, failed or successful, every tool use of a turn gets exactly one answer with its id, in order |
| AgenticLoop.EveryToolIsAccountedFor | src/core/agentic_loop.py:447-488 | no tool use is lost or called twice: each reaches the adapter its route names, once and in order, or is reported as unfulfilled and answered with an error |
| AgenticLoop.Step | src/core/agentic_loop.py:372-535 | one turn of the loop does what the account of a run says |
| AgenticLoop.RunLoop | src/core/agentic_loop.py:351-561 | the loop sends the message lists, makes the calls and returns the result of the account of a run |
| StreamingLoop.ExecuteAndStream | src/core/agentic_loop_streaming.py:399-497 | the same answers, calls and tools not run as in the other loop, written out in the same way, and the pair of events of each tool use |
| StreamingLoop.CallThenResult | src/core/agentic_loop_streaming.py:411-480 | the trace tells each tool use in order, its call and right after it its result, and the result of a tool that ran is made from its screened output |
| StreamingLoop.StreamStep | src/core/agentic_loop_streaming.py:302-507 | one turn of the streaming loop follows the same account, with its events |
| StreamingLoop.RunStreaming | src/core/agentic_loop_streaming.py:274-546 | the stream's exchanges with the model are those of the account, and its events are the trace and then the ending |
| StreamingLoop.ChunksJoin | src/core/agentic_loop_streaming.py:367-372 | chunking loses nothing and every chunk has 1 to 200 characters |
| StreamingLoop.LoopsAgree | src/core/agentic_loop_streaming.py:274-546 | for every world the streamed text is the returned one, up to "(no response)"; "length" comes exactly when the budget ran out; both fail alike; out of budget they carry the same partial answer; the unbound name occurs exactly when the first budget check fails |
| StreamingLoop.BothDegradeAlike | src/core/agentic_loop.py:537-561 | when the budget is spent after a response, both loops hand over the text of the last response, one in front of its note and the other behind its own |
| StreamingLoop.BothLoops | src/core/agentic_loop_streaming.py:274-546 | both loops, run on one world, have the same exchanges message list for message list and call for call, and agree |
| LoopProperties.EveryCallObeysProtocol | src/core/agentic_loop.py:441-535 | at call k of any run the list alternates, is 2k + 1 long, begins with the first message and answers every tool use in the very next message |
| LoopProperties.BudgetsHold | src/core/agentic_loop.py:353-370 | a run makes at most the configured number of calls, each begun within the time limit and before the replies so far have used up the tokens |
| LoopProperties.WholeRun | src/core/agentic_loop.py:351-535 | every exchange sends the view of the turns before it, and every turn is what the model's reply made of it |
| LoopProperties.TurnAsSent | src/core/truncation.py:242-291 | what call k shows of turn t, exactly |
| AgentFacts.LogIsTrue | src/core/agentic_loop.py:375-497 | every exchange of every run: the model answered the list that is logged, and the tool calls logged with it are those of its turn |
| AgentFacts.RunEndsBecause | src/core/agentic_loop.py:353-449 | why every run ended: by the model's last answer, by an error, or at a budget check that failed, with the tokens spent and the tools left undone by then |
| AgentFacts.OutputIsSent | src/core/agentic_loop.py:505-533 | every call carries, of every turn that is not trimmed, what its tools put out, screened, truncated and framed, or why they were not run, under the ids of the tool uses and in order |
| AgentFacts.OutputShows | src/core/agentic_loop.py:505-527 | two worlds in which the screened and truncated output of a tool differs answer that tool use differently |
| TrimFacts.OutputIsSummarized | src/core/truncation.py:242-324 | at every call of every run, where the ids of a turn's tool uses are not empty and differ, result i of the turn is the answer to tool use i, summarized under that tool's own name and arguments exactly once for every call since the turn left the newest N + 1 |
| AgentFacts.ReturnsLastWord | src/core/agentic_loop.py:410-449 | what a run returns, by its last response: the text of an answer, the error, or out of budget the partial text and the note |
| AgentFacts.ToolIsTold | src/core/agentic_loop_streaming.py:408-480 | a tool use is told as a call and right after it its result: a digest of the screened output, or why it was not run |
| AgentFacts.ThoughtsInOrder | src/core/agentic_loop_streaming.py:345-358 | a thinking event for each reasoning block, or each text, that is not empty, in order |
| AgentFacts.TurnIsTold | src/core/agentic_loop_streaming.py:341-497 | the trace is told call by call: the reasoning, the narration if the model wants tools, and then the tools |
| AgentFacts.ChunksInOrder | src/core/agentic_loop_streaming.py:369-373 | an answer is told in pieces of exactly 200 characters, the last one shorter |
| AgentFacts.StreamEndsWith | src/core/agentic_loop_streaming.py:350-546 | how every stream ends, by the last response of the run |
| LoopProperties.NeverRestored | src/core/truncation.py:242-291 | what a later call shows of a turn is what an earlier one showed, summarized again, and once more for every call between if the turn was past the newest N |
| LoopProperties.OnlyScreenedOutput | src/core/agentic_loop.py:505-511 | worlds whose screened tool outputs agree have the same run, whatever the raw outputs were: nothing raw reaches the model |
| LoopProperties.OnlyScreenedTrace | src/core/agentic_loop_streaming.py:471-480 | nor the trace shown to the user |
| LoopProperties.AgedFits | src/core/truncation.py:116-154 | however often a result is summarized it stays within the cap of one summary |
| LoopProperties.ContextFits | src/core/agentic_loop.py:510-527 | every tool-result text the model is sent is bounded, by the summary cap for trimmed turns and the verbatim cap for the newest |
| ContextTotal.ContextIsBounded | src/core/agentic_loop.py:375-535 | all tool-result text of a call adds up to at most the verbatim cap for each result of the newest N + 1 turns and the summary cap for each older one, besides the first message |
| LoopProperties.SourceRespectsCaps | src/core/truncation.py:116-200 | the source's own truncation and summaries meet those bounds with explicit numbers |
| Summary.SummaryFits | src/core/truncation.py:116-154 | a summary of a text that is no JSON object has at most 495 characters, the tool name and the digits of one count |
| Summary.SampleFits | src/core/truncation.py:157-200 | a sample has at most 244 characters |
| Summary.CountFits | src/core/truncation.py:23-86 | an item count never exceeds the length of the text |
| Summary.TableIsCounted | src/core/truncation.py:23-86 | a table printed row by row is counted by its rows, without its header if it has one |
| Summary.TruncateFits | src/core/agentic_loop.py:575-602 | a truncated result is at most the limit and its marker long |
| SummaryFacts.SummaryIs | src/core/truncation.py:116-154 | the summary of a trimmed result, written out |
| SummaryFacts.TruncatedIs | src/core/agentic_loop.py:575-602 | a text within the limit stays; of a longer one exactly the first characters are kept behind a line that says how many, and how many items or characters there were |
| SummaryFacts.StripIs | src/core/truncation.py:38-40 | stripping takes the white space off both ends and nothing else |
| SummaryFacts.CollectionIs | src/core/truncation.py:56-62 | an object is counted by the list under the first of six names that holds one |
| SummaryFacts.LargestIs | src/core/truncation.py:63-71 | and otherwise by its largest list |
| SummaryFacts.JsonIsCounted | src/core/truncation.py:42-75 | an array is counted by its elements, an object by the collection in it unless that is empty |
| SummaryFacts.HeaderIs | src/core/truncation.py:89-113 | a line is a table header if and only if it has two words or more, all in capitals or the first one of six |
| SummaryFacts.TokensAre | src/core/truncation.py:95 | words with a space between them are what a line is split into |
| SummaryFacts.LineBreaksAre | src/core/truncation.py:77 | the characters that end a line |
| SummaryFacts.SampleIs | src/core/truncation.py:157-192 | a sample is taken from an array, or from the first list of an object that is not empty |
| SummaryFacts.SamplesAre | src/core/truncation.py:166-171 | the first three elements, each in at most 80 characters |
| SummaryFacts.KeysAre | src/core/truncation.py:203-214 | the keys of an object are its first five |
| SummaryFacts.LinesAreSampled | src/core/truncation.py:194-200 | a text that is no JSON is sampled by its first three lines, in at most 240 characters |
| SseEncoder.Encode | src/supervisor/openai_compat.py:374-446 | the generator with its two flags emits the frames of a fold over the events up to the first done |
| SseEncoder.StreamIsWellFramed | src/supervisor/openai_compat.py:374-446 | for every finite event sequence: one prelude first, one finish and then [DONE] last, at most one trace block, opened before it is closed and always closed, and the answer text in order |
| SseEncoder.EmitIs | src/supervisor/openai_compat.py:385-436 | the frames of one event by the two flags: nothing for a trace that is off, an opening frame before its first step, a closing frame before an answer if a block is open |
| SseEncoder.ReasonIs | src/supervisor/openai_compat.py:374-446 | the stream ends with the first done and for its reason, and without one for "stop" |
| SseEncoder.ClientSees | src/supervisor/openai_compat.py:385-436 | of a stream of the shape the loop produces, the client sees the whole trace in one bracketed block and the answer only after it |
| SseEncoder.ServeRun | src/supervisor/openai_compat.py:319-446 | the same of every run of the streaming loop that does not fail |
| RateLimiter.AdmissionGuard.CheckRate | src/core/rate_limiter.py:71-95 | the pruned, expiring set decides as the full history would: allowed if and only if fewer than the rate of attempts fell in the last 60 seconds; the attempt is added, the key expires in 60 seconds, and other users are untouched |
| RateLimiter.WindowBound | src/core/rate_limiter.py:71-95 | in every run, no 60-second window holds more than the rate of allowed requests |
| RateLimiter.StricterThanDescribed | src/core/rate_limiter.py:74-85 | whatever is allowed would be allowed by a limiter that records only allowed requests |
| RateLimiter.AgreesWithDescription | src/core/rate_limiter.py:74-85 | the two decide a whole run alike if and only if every denied attempt had the full rate of allowed ones in its window |
| RateLimiter.RetryingProlongsTheBan | src/core/rate_limiter.py:82-95 | a run in which a denied retry makes the code deny what the description allows |
| DailyBudget.Budget.CheckBudget | src/core/rate_limiter.py:97-129 | reserves exactly when the whole day's grants and the cost stay within the cap; no day goes over it |
| DailyBudget.KeyOutlivesDay | src/core/rate_limiter.py:53-54 | the one-day expiry never drops the key of a day that still lasts |
| DailyBudget.ReservedGrows | src/core/rate_limiter.py:97-129 | each grant counts for its own day |
| DailyBudget.DayIs | src/core/rate_limiter.py:53-54 | a day is 86400 seconds long |
| SessionLock.Lock.Acquire | src/core/session_lock.py:75-94 | succeeds exactly when no live key holds the session, then sets it to the own token, and takes the objects along a run of the protocol |
| SessionLock.Lock.Release | src/core/session_lock.py:96-106 | deletes the key exactly when the flag is set and the key is live with the own token, and takes the objects along a run of the protocol |
| SessionLock.AcquireIs | src/core/session_lock.py:75-94 | one acquire in the protocol: with a live key only the flag changes, without one the key and the lease begin, both for the TTL |
| SessionLock.ReleaseIs | src/core/session_lock.py:96-106 | one release in the protocol: the lease ends, and a live key goes if it carries the own token |
| SessionLock.StepKeepsConsistent | src/core/session_lock.py:29-35 | every step of any worker or of the clock keeps the live keys and the leases in exact correspondence |
| SessionLock.MutualExclusion | src/core/session_lock.py:75-106 | over all interleavings at most one worker per session is inside its unexpired lease |
| SessionLock.AcquireSucceedsWhenFree | src/core/session_lock.py:84-87 | over all interleavings an acquire succeeds if and only if no worker is inside a lease on the session |
| SessionLock.ReleaseTakesOnlyOwn | src/core/session_lock.py:25-35 | over all interleavings a release takes away no other lease and no key with another token |
| SessionLock.ReleaseFreesSession | src/core/session_lock.py:85-106 | over all interleavings the release of a worker inside its lease frees the session if and only if the worker has not acquired again; otherwise it changes nothing |
| SessionLock.FlagInsideLease | src/core/session_lock.py:85-101 | over all interleavings the flag of a worker inside its lease is set if and only if its last acquire was not made inside that lease |
| SessionLock.ReacquireForgets | src/core/session_lock.py:85-101 | such a run: a holder acquires again, releases, and the key is still there |
| CircuitBreaker.Breaker.CanExecute | src/core/circuit_breaker.py:175-186 | false if and only if the failures since the last success reach the threshold and the last is less than the timeout ago |
| CircuitBreaker.ProbeRepeatedly | src/core/circuit_breaker.py:175-186 | after the timeout every one of any number of calls is admitted while no outcome is recorded |
| CircuitBreaker.Breaker.RecordSuccess | src/core/circuit_breaker.py:188-193 | closes the circuit, forgets the failures, refuses at no later time, and keeps the state a function of the outcomes |
| CircuitBreaker.Breaker.RecordFailure | src/core/circuit_breaker.py:195-209 | counts one more failure and opens the circuit exactly at the threshold; while half open one failure refuses again for a whole timeout |
| CircuitBreaker.SuccessForgets | src/core/circuit_breaker.py:188-193 | nothing before the last success matters |
| CircuitBreaker.RefusedAfter | src/core/circuit_breaker.py:175-209 | after a success, or from the start: any number of failures in a row refuses a call if and only if there are at least as many as the threshold and the last is less than the timeout ago |
| WorkerPool.WorkerPool.SubmitJob | src/gateway/worker_pool.py:96-108 | admits exactly while the table of active jobs is below the limit |
| WorkerPool.WorkerPool.StartJob | src/gateway/worker_pool.py:115-122 | takes a permit and enters the table if and only if one is free and nobody is in line or about to resume; otherwise joins the end of the line |
| WorkerPool.WorkerPool.WakeJob | src/gateway/worker_pool.py:115-122 | a waiter that was handed a permit enters the table, and passes on what else is free |
| WorkerPool.WorkerPool.AbandonJob | src/gateway/worker_pool.py:110-122 | a job cancelled before it runs leaves the line, and a permit already handed to it goes to the next waiter |
| WorkerPool.WorkerPool.ResumeJob | src/gateway/worker_pool.py:123-158 | on any way out the entry goes and the permit passes to the oldest waiter or comes free; the status is completed, cancelled, failed, or the timeout that fits whether a chunk was delivered, and none if the consumer closes; a chunk changes only the budget of the next wait |
| WorkerPool.PermitsAreConserved | src/gateway/worker_pool.py:110-158 | for every interleaving and every exit, free permits, permits handed to waiters and running jobs add up to the limit, and nobody is in line twice |
| WorkerPool.CapacityOf | src/gateway/worker_pool.py:72-87 | the capacity `submit` sees is never below the permits that are free or handed over, equal to them if and only if every running job is in the table, and equal to the free ones if and only if, besides, none is handed over |
| WorkerPool.FreePlusActive | src/gateway/worker_pool.py:89-158 | free and handed-over permits and active jobs add up to the limit throughout a run if and only if no job starts under the id of one still running; free permits and active jobs alone do if and only if, besides, none is ever handed over |
| WorkerPool.SharedIdHidesJob | src/gateway/worker_pool.py:120-149 | two jobs under one id: the table is empty while one still runs |
| WorkerPool.AdmittedStartsAtOnce | src/gateway/worker_pool.py:105-116 | without clashes, a job starts at once if and only if it is admitted and nobody is in line or holds a permit without running |
| WorkerPool.AdmittedMayWait | src/gateway/worker_pool.py:100-116 | of two jobs admitted before either starts, one waits |
| WorkerPool.AdmittedBehindWaiter | src/gateway/worker_pool.py:100-122 | a job admitted to an empty table waits behind one that has its permit but has not resumed |
| WorkerPool.NobodyIsForgotten | src/gateway/worker_pool.py:110-158 | no wake-up is lost: while anyone waits, no permit is free or a waiter with one is about to resume |
| WorkerPool.FirstComeFirstServed | src/gateway/worker_pool.py:115-122 | in every state of every run, of two jobs that joined the line and are not cancelled in it, the later one has no permit before the earlier has been handed one |
| WorkerPool.TimeoutTellsFirstByte | src/gateway/worker_pool.py:125-138 | a timeout is recorded as idle if and only if some chunk of the job was delivered before |
| TokenWindow.TruncateHistory | src/core/token_budget.py:260-306 | keeps the longest suffix whose estimated tokens fit, and reports its exact total |
| TokenWindow.WindowLaws | src/core/token_budget.py:260-306 | one result per window, a larger window keeps at least as much, and truncating again changes nothing |
| TokenWindow.LongerCostsMore | src/core/model_tier.py:174-183 | a longer suffix costs at least four tokens more per message |
| TokenWindow.TotalIs | src/core/model_tier.py:174-183 | a message costs four tokens and one for every four characters, rounded down, but at least one if it is not empty |
| Luhn.LuhnValid | src/core/output_filter.py:75-92 | the left-to-right loop with its parity test computes the right-to-left modulus-10 formula of Annex B of ISO/IEC 7812-1, for every length |
| Luhn.TotalIs | src/core/output_filter.py:82-92 | every second digit from the right, beginning next to the check digit, counts double, less nine if that has two digits |
| Luhn.GroupsAreRead | src/core/output_filter.py:75-80 | digits are read back whatever other characters stand between their groups |
| Luhn.DetectsOneDigit | src/core/output_filter.py:75-92 | changing any one digit of a valid number makes it invalid |
| Luhn.DetectsSwap | src/core/output_filter.py:75-92 | swapping two neighbours goes unnoticed if and only if they are equal or are 0 and 9 |
| Luhn.OneCheckDigit | src/core/output_filter.py:75-92 | every prefix has exactly one check digit |

## Left out

- Confidence.Classify: evidence records are arbitrary; parsing them from an agent's answer is not part of this model, and neither are summaries, URLs and the timeline built from them.
- Confidence.ValidateTemporalOrder: violations are records rather than the formatted messages.
- Canary.RedactTokens: tokens have any number of hex digits from five up; how they are drawn and injected, the audit log and the homoglyph, base64 and pattern scans of other modules are left out.
- Canary.LongTokensMissMarker: a token of four digits or fewer could be part of the marker itself; the source always draws 32.
- SchemaLoosening.NormalizeOnlyLoosens: `$ref` means what `Refs` says it stands for; only for pointers without percent signs is that tied to the document, so anchors, other documents, `$id` and percent-encoding are the caller's. Properties, items behind `prefixItems`, the names of `patternProperties` and the three unions are read as JSON Schema 2020-12 reads them; every other keyword has any meaning that depends on its value and, for `additionalProperties`, on the declared names and patterns. The conditions are sufficient, not necessary; inputs show what is lost without them, for references, stripped siblings, unions, nulls and depth. References inside keywords that no pass reads into are excluded.
- SchemaExactness.NormalizeIsExact: the conditions are sufficient, not necessary; a union beside keywords that ask for something, and a root that says "object" only beside a union, are excluded.
- CanaryClosedForm.ResidueInResponse: where tokens overlap, or one runs into a prefix, only CanaryResidue.RoundsResidue speaks, about the text of the last round.
- ToolSchema.NormalizeIsReady: a schema whose parts have the wrong JSON type makes the source raise, and has no result here; a definitions table given as a list of pairs, which Python would accept, counts as one of these. Python's own recursion limit is not modelled.
- ToolNames.BuildRoutes: descriptions and schemas of tool specs are not carried along, and the cache of specs and its expiry are left out.
- Summary.SummaryFits: gives no bound for a text that looks like a JSON object, because the source copies its first five keys in full.
- ContextTotal.ContextIsBounded: bounds the tool-result text of a call; the assistant's own text and tool arguments are the model's and unbounded.
- AgenticLoop.RunLoop: a model call that raises ends the run as an error; session pooling, retries, per-server breakers, metrics, tracing and logging are left out, and the wording of the degraded note and of the result framing is a parameter.
- StreamingLoop.RunStreaming: extended thinking only adds a request field and is left out; display forms of arguments and results are parameters, and the emoji in two fixed summaries are dropped.
- SseEncoder.Encode: frames are tagged by why they are sent; their JSON, the routing line's confidence figure and the non-agentic stream are left out.
- RateLimiter.AdmissionGuard.CheckRate: Redis is reachable; the fail-open branches allow everything. The member of the sorted set is the time itself, so attempts at the same instant count once.
- DailyBudget.Budget.CheckBudget: amounts are reals, so rounding of the stored strings is left out.
- SessionLock.MutualExclusion: leases are measured on Redis's clock from the moment the key is set; a worker that overruns its lease, or goes on after a refused acquire with raising turned off, is outside it, and so are the fail-open branches.
- CircuitBreaker.Breaker.CanExecute: in-memory mode only; state shared through Redis, and mixed state after an outage, are left out.
- WorkerPool.TimeoutTellsFirstByte: a cancellation that arrives while a status is being written is left out, and so are the Redis copies of statuses and cancel flags and the polling task.
- WorkerPool.WorkerPool.ResumeJob: time itself is an event; the overall job timeout is stored but never used by the source.
- TokenWindow.TruncateHistory: messages are their texts; missing or non-string contents are left out.
- Luhn.LuhnValid: only the ASCII digits count as digits.
- The token budget per session, tier selection, the health cache, authentication, triage, skills, the knowledge base and configuration validators would only add single-branch claims.
- Bedrock, Kubernetes, HTTP, database and chat clients, the web routes, prompts, evaluations and scripts are calls into code outside this model.
