# KhazarOS daemons: a verified model

KhazarOS answers spoken and typed queries with a few small C daemons that talk over sockets. This
project models the ones that decide something and proves what they promise:

- **The Tier 0 rule engine.** A query passes a cache and then five stages: intent table, regex,
  token, alias and fuzzy matching. `EditDistance` and `Fuzzy` show that the in-place table computes
  the length of a shortest edit script, hence a metric. `Cache` shows that the hash-probed,
  evicting table is a finite map of at most 256 queries in every reachable state, and `Eviction`
  follows it through a burst of stores. `RuleTables` and `Matcher` show that clearing a source
  compacts a table stably and that every compiled regex has one owner until it is freed once.
  `Pipeline` shows that over every run of requests, rule additions, reloads and clears the cached
  pipeline answers as the pipeline without a cache, and which stage that answer comes from.
  `Engine` ties the imperative process to that state machine, `Requests` ties a raw request, which
  may be split in two, to its pipeline runs, and `RuleRuns` says what a run does to the rule tables
  and the counters. `Metrics` has the laws of those counters.
- **Messages between processes.** `Pieces` sees a message as the texts between its quotes and shows
  where a search for a quoted key lands. On it rest `Json` (escape, unescape, key search, string
  arrays; `JsonMeaning` compares the printers and readers with RFC 8259), `Register` (the SDK's
  register message and the SDK's parser for it), `Registration` (the same message as the
  orchestrator reads it), `AgentMessages` (the one the bundled agents print), `RuntimeText`
  (generated text from the model runtime to the classifier), and `PolicyRequest`, `PolicyReply` and
  `PolicyWire` (a policy question, its answer, and the decision on its way through both).
- **Decisions and slot tables.** `Policy` is the highest-priority scan with default deny,
  `Keywords` the classifier's longest-keyword fallback, `Sessions` and `Registry` the
  orchestrator's slot tables, `Orchestrator` its message handler over every run, `GuardedRuns`
  the orchestrator and the policy engine running together, and `Replies` what every message is
  answered in either kind of run.

`Scan` is the one scan all of these share (keep the first candidate that beats the best so far);
`CStrings` holds the C string functions; `Fields` is the field reader that several daemons repeat;
`Folds` has the laws of a run as a fold.

Where the C code updates arrays and globals, the model is a class or a method with loops, proved
equal to a function of the old state; the lemmas are about those functions. A C string is the text
before its terminator, a byte is a `char`, a float is a `real`, and the clock and latencies are
parameters. `regcomp`, `regexec` and `fnmatch` are arbitrary functions.

Some laws one would expect do not hold of the code. For each there is a lemma with inputs that break
it and a theorem with its exact condition:

| the law fails | inputs | exact condition |
|---|---|---|
| with the cache as the only enabled stage the first query is answered with intent 0 | `CacheAloneIsNotTransparent` | `TransparentExactly` |
| strings of 127 bytes and more are compared by their first 126 bytes | `LongStringsCollide` | `SimilarityRange` |
| the evicted cache entry need not be the oldest, and can be the newest, once every timestamp lies ahead of the clock | `NewestCanBeEvicted` | `VictimIsOldest` |
| a regex with an empty pattern is dropped without being freed when another source is cleared | `EmptyPatternLeaks` | `ClearKeepsSound` |
| an alias is missed when it first occurs inside a longer word | `AliasMissesLaterWord` | `AliasResolvesExactly` |
| the SDK does not parse its own register message back when a text holds a quote or a backslash, or equals a later key and so hides that key's value | `NamedVersion` | `RegisterRoundTrips` |
| the orchestrator does not take a register message for one when something in it is called "query", and misses the list when the agent is called "capabilities" and its version holds a bracket | `NamedQuery`, `CapsLost` | `TakenForRegistration`, `RegistrationArrivesExactly` |
| an agent named "target" makes the policy engine read the capability as the target, on which no decision depends | `AgentNamedTarget` | `TargetParses` |
| a target that holds quotes can make the policy engine take the question for another message | `QuotedTargetMistaken` | `DecisionArrivesExactly` |
| a question taken for an added rule changes what later questions are answered | `AskedThenAllowed` | `AskingChangesNothing`, `MistakenDecidesExactly` |
| an agent is sent its first capability, not the one the policy was asked about | `OtherCapabilitySent` | `SentCapabilityExactly` |
| two clients can share a session id | `CutIdsCollide` | `IdNamesClientExactly` |
| escaped text need not be a JSON string, and the readers do not know every escape that JSON allows | `BackspaceFails` | `EscapedMeansExactly`, `GeneratedMeansExactly`, `SdkReadsExactly`, `ItemReadsExactly`, `ClassifierReadsExactly` |
| an agent named "socket" has its version read as its socket | `NamedSocket` | `AnnouncementArrives` |
| a message that adds a rule about the capability "action" has its agent read as the action | `ActionCapability` | `RuleArrivesExactly` |
| a client id of 64 bytes or more is not recognised and takes a new slot every time while there is one | `RecognisedExactly` | `RecognisedExactly` |

The regex leak does not happen in the rule engine's own runs, since only file rules can have an
empty pattern and only file rules are cleared (`EngineRunsNeverLeak`, `EveryRunFreesOnce`).

One answer of the policy engine never makes the client allow more than the rules held at that moment
do, whatever the target (`DecisionSurvivesBothMessages`, `EveryDispatchAllowed`). The rules
themselves can change with the question: one that is taken for an added rule adds a rule about its own
agent and capability, and later questions are answered by it. As long as every target leaves its
question a policy check, as targets without quotes do, the rules stay as they were and every dispatch
is allowed by them (`ChecksKeepRules`, `ChecksDispatchAllowed`).

The SDK's register message carries no socket, so an agent registered by it cannot be sent a task
(`SocketIsNotSent`). The bundled agents print their own message, with one, which `AgentMessages`
follows into the registry (`AnnouncementTakesEffect`).

Documentation and code disagree on the order of the stages; the model follows the code
(`khazar/components/rule-engine/main.c`, lines 125-151).

## Model

| member | source | states |
|---|---|---|
| EditDistance.DistIsShortestScript | khazar/components/rule-engine/fuzzy/fuzzy.c:26-50 | The recurrence of the table equals n exactly when some script of n single-byte inserts, deletes and replacements turns one string into the other and no script is shorter |
| EditDistance.NoShorterScript | khazar/components/rule-engine/fuzzy/fuzzy.c:39-47 | Every edit script between two strings is at least as long as their distance |
| EditDistance.BestScript | khazar/components/rule-engine/fuzzy/fuzzy.c:39-47 | A script of exactly that length exists, read off the table's choices |
| EditDistance.DistTriangle | khazar/components/rule-engine/fuzzy/fuzzy.c:39-47 | Triangle inequality across any three strings |
| EditDistance.DistBounds | khazar/components/rule-engine/fuzzy/fuzzy.c:39-47 | The distance is at most the longer length and at least the difference of the lengths |
| Fuzzy.Levenshtein | khazar/components/rule-engine/fuzzy/fuzzy.c:26-50 | The in-place table computes the distance of the two strings, each taken as its first 126 bytes |
| Fuzzy.DistanceIsMetric | khazar/components/rule-engine/fuzzy/fuzzy.c:26-50 | The computed distance is symmetric, satisfies the triangle inequality, and is zero exactly for strings equal in their first 126 bytes |
| Fuzzy.ComputeSimilarity | khazar/components/rule-engine/fuzzy/fuzzy.c:52-58 | One minus the distance over the longer length, and 1 for two empty strings |
| Fuzzy.SimilarityRange | khazar/components/rule-engine/fuzzy/fuzzy.c:52-58 | Similarity lies in 0..1 and is 1 exactly when the first 126 bytes agree; for shorter strings exactly when they are equal |
| Fuzzy.SimilarityByScripts | khazar/components/rule-engine/fuzzy/fuzzy.c:52-58 | Similarity is one minus the length of a shortest edit script between the first 126 bytes over the longer length |
| Fuzzy.LongStringsCollide | khazar/components/rule-engine/fuzzy/fuzzy.c:29-30 | Two different strings of similarity 1 |
| Fuzzy.FuzzyMatch | khazar/components/rule-engine/fuzzy/fuzzy.c:60-99 | The scan over the table finds what the fuzzy stage is specified to find and fills the result record |
| Fuzzy.FuzzyStagePicksMostSimilar | khazar/components/rule-engine/fuzzy/fuzzy.c:72-98 | The stage succeeds exactly when some entry has positive similarity at or above the threshold, case ignored, and answers with the fields of the earliest entry of highest similarity and that similarity |
| Scan.FirstBestIsEarliestMaximum | khazar/components/rule-engine/tokens/tokens.c:47-55 | Keeping the first candidate that beats the best so far yields exactly the earliest of the largest keys above the floor |
| Stages.IntentLookup | khazar/components/rule-engine/intent/intent.c:35-61 | Lower-cases both sides and answers with the first equal entry |
| Stages.IntentStagePicksFirst | khazar/components/rule-engine/intent/intent.c:44-60 | The earliest entry that equals the query but for the case of letters answers with its own fields and confidence 0.99; the stage misses exactly when there is none |
| CStrings.LowerIff | khazar/components/rule-engine/intent/intent.c:33 | Two lower-cased texts are equal exactly when the texts differ in nothing but the case of letters |
| Stages.IntentAdd | khazar/components/rule-engine/intent/intent.c:20-31 | Appends the rule, its fields cut to size, unless the table is full |
| Stages.TokensLookup | khazar/components/rule-engine/tokens/tokens.c:38-68 | The scan finds what the token stage is specified to find |
| Stages.TokenStagePicksBest | khazar/components/rule-engine/tokens/tokens.c:47-67 | Of the tokens found in the query, case ignored, the earliest whose weight and length add up to most answers, with that sum over itself plus ten as confidence and the query as target; none does exactly when no such sum is positive |
| Stages.ConfidenceRises | khazar/components/rule-engine/tokens/tokens.c:57-66 | Token confidence rises strictly with the score |
| Stages.RejectedTokenSpeaksForAll | khazar/components/rule-engine/tokens/tokens.c:47-67 | If the chosen token fails a threshold, so would every other token of positive score in the query |
| Stages.AliasResolve | khazar/components/rule-engine/alias/alias.c:33-86 | The scan answers with the first alias that the word-bounded test accepts |
| Stages.AliasIsWord | khazar/components/rule-engine/alias/alias.c:45-81 | The first alias named in the query answers with its canonical form and confidence 0.85, and only a whole word of the query is named; the stage misses exactly when none is |
| Stages.AliasResolvesExactly | khazar/components/rule-engine/alias/alias.c:45-62 | An alias resolves exactly when it is a whole word of the query and no occurrence inside a longer word comes first |
| Stages.AliasMissesLaterWord | khazar/components/rule-engine/alias/alias.c:45-62 | A query in which a whole-word alias is missed |
| RuleTables.FilterIsStable | khazar/components/rule-engine/tokens/tokens.c:70-81 | What a clear leaves is exactly the kept rules, read at strictly increasing positions of the old table |
| RuleTables.ReloadKeepsOthersThenFile | khazar/components/rule-engine/rules/rules.c:167-197 | After a reload a table is its old kept rules in order, then the file's rules up to capacity |
| RuleTables.ReloadTwice | khazar/components/rule-engine/rules/rules.c:167-197 | Reloading the same file again changes nothing |
| RuleTables.ReloadedIsReload | khazar/components/rule-engine/rules/rules.c:167-197 | A reloaded table is read off the old one at increasing positions, exactly those kept, and goes on with the front of the file that fits |
| RuleTables.AppendAllTakesWhatFits | khazar/components/rule-engine/rules/rules.c:74-105 | Adding rules one by one takes exactly those that fit |
| RuleTables.Table.Add | khazar/components/rule-engine/tokens/tokens.c:20-30 | Appends the rule unless the table is full |
| RuleTables.Table.ClearRules | khazar/components/rule-engine/tokens/tokens.c:70-81 | The in-place compaction leaves the rules of other sources in order |
| RuleTables.Table.Load | khazar/components/rule-engine/rules/rules.c:74-105 | Appends a file's rules and counts those added |
| Cache.QueryCache.HashQuery | khazar/components/rule-engine/cache/cache.c:22-29 | The shift-and-add loop with 32-bit wrap-around computes the times-33 hash modulo 256 |
| Cache.HashIs | khazar/components/rule-engine/cache/cache.c:22-29 | A query's first slot is its value as a number to base 33 behind the digit 5381, modulo 256: the 32-bit wrap-around of the loop does not show |
| Cache.QueryCache.Lookup | khazar/components/rule-engine/cache/cache.c:31-64 | Finds what the probe sequence finds, touches only that slot, and fills the result record |
| Cache.QueryCache.Store | khazar/components/rule-engine/cache/cache.c:66-118 | The whole new table, count and tick counter of a store |
| Cache.QueryCache.FindOldest | khazar/components/rule-engine/cache/cache.c:102-107 | The scan for the slot to evict finds the earliest slot of least timestamp among those not after the current time, else slot 0 |
| Cache.QueryCache.Clear | khazar/components/rule-engine/cache/cache.c:131-137 | Empties the table and resets both counters |
| Cache.SeekIsMember | khazar/components/rule-engine/cache/cache.c:35-60 | Probing meets a query exactly when it is in the finite map |
| Cache.LookupRefines | khazar/components/rule-engine/cache/cache.c:31-64 | A lookup answers from the map and leaves the map and its invariant alone |
| Cache.StoreRefines | khazar/components/rule-engine/cache/cache.c:66-118 | A store of an answer without an intent or to a known query leaves the map as it is; any other adds the query with its cut answer, and in a map of 256 the victim's query goes |
| Cache.StoreEvictsOne | khazar/components/rule-engine/cache/cache.c:101-117 | With every slot taken the new query takes the victim's place and no other query is lost |
| Cache.VictimIsOldest | khazar/components/rule-engine/cache/cache.c:102-107 | The victim has the least timestamp exactly when some timestamp is not after the current time, or slot 0 has the least |
| Cache.VictimExactly | khazar/components/rule-engine/cache/cache.c:102-107 | The victim is the earliest of the slots of least timestamp if the clock has reached any timestamp, and slot 0 otherwise |
| Cache.LookupRenews | khazar/components/rule-engine/cache/cache.c:46-59 | A hit gives the query's slot the time now plus a 256th of the tick counter and one more hit; every other slot, the count and the ticks stay |
| Cache.MissChangesNothing | khazar/components/rule-engine/cache/cache.c:42-63 | A lookup of a query that is not held changes nothing |
| Cache.RepeatedStoreRenews | khazar/components/rule-engine/cache/cache.c:93-99 | Storing a held query does what a hit does, keeps its answer and moves the tick counter on |
| Cache.NewStoreStamps | khazar/components/rule-engine/cache/cache.c:80-117 | A new query takes a free slot, or in a full table the victim's, with the same time and one hit; every other slot stays |
| Cache.UsedIsKept | khazar/components/rule-engine/cache/cache.c:31-118 | In a full table a query that was looked up outlives the next new query whenever some other slot was last used before and not after the time of the store |
| Eviction.NewestCanBeEvicted | khazar/components/rule-engine/cache/cache.c:66-118 | Of 514 new queries stored within one second, starting from the empty cache, the last evicts the one stored just before it |
| Eviction.BurstHolds | khazar/components/rule-engine/cache/cache.c:66-118 | Occupied slots and their timestamps after each store of such a burst: fill, replace slot by slot, then slot 0 |
| Cache.EveryRunIsValid | khazar/components/rule-engine/cache/cache.c:31-137 | After every run of lookups, stores and clears no query sits in two slots, every probe path is occupied up to its query, and the count is the size of a map of at most 256 non-empty queries |
| Matcher.RegexTable.AddRule | khazar/components/rule-engine/matcher/matcher.c:21-45 | Adds a slot with a new handle unless the table is full or the pattern does not compile |
| Matcher.RegexTable.ClearRules | khazar/components/rule-engine/matcher/matcher.c:111-128 | Both passes: which handles are freed, in what order, and which slots remain |
| Matcher.RegexTable.Cleanup | khazar/components/rule-engine/matcher/matcher.c:183-189 | Frees every live slot's handle once and empties the table |
| Matcher.RegexTable.Match | khazar/components/rule-engine/matcher/matcher.c:82-109 | The priority scan finds what the regex stage is specified to find: the earliest matching rule of highest non-negative priority, with the target and action its pattern takes from the query |
| Matcher.RegexTable.Load | khazar/components/rule-engine/rules/rules.c:41-72 | The whole table after the file's rules are added one by one, handles included; its rules are the old ones and the compiling patterns up to capacity, and the count returned is that of the rules added |
| Matcher.ExtractTarget | khazar/components/rule-engine/matcher/matcher.c:47-80 | For a pattern that starts with a group, behind a caret or not, the target is the first word of the query if it has one, and otherwise the whole query, each cut to its field; the action is the pattern behind its caret and its longest front of marks |
| Matcher.OneFirstWord | khazar/components/rule-engine/matcher/matcher.c:51-65 | A query has at most one first word: a text without spaces that only spaces precede and a space or nothing follows |
| Matcher.RegexStagePicksBest | khazar/components/rule-engine/matcher/matcher.c:89-105 | The earliest matching rule of highest non-negative priority answers with its intent, its pattern's target and action and confidence 0.95; the stage misses exactly when there is none |
| Matcher.AddKeepsSound | khazar/components/rule-engine/matcher/matcher.c:21-45 | A new rule keeps every handle owned once or freed once and leaks nothing |
| Matcher.ClearKeepsSound | khazar/components/rule-engine/matcher/matcher.c:111-128 | A clear never frees twice or frees a handle still held; it leaks exactly when a slot of another source has an empty pattern |
| Matcher.EveryRunOwnsItsRegexes | khazar/components/rule-engine/matcher/matcher.c:21-189 | Over every interleaving of adding, clearing and cleaning up each handle is owned by at most one slot and freed at most once; when every clear names the source of every empty pattern added, none leaks and a last cleanup leaves each freed exactly once |
| Matcher.EmptyPatternLeaks | khazar/components/rule-engine/matcher/matcher.c:111-128 | Clearing the file rules leaks a runtime rule whose pattern is empty |
| Matcher.EngineRunsNeverLeak | khazar/components/rule-engine/rules/rules.c:41-72 | Runs in which only file rules may have an empty pattern and only file rules are cleared, as in the rule engine, leak nothing |
| Matcher.RegexReload | khazar/components/rule-engine/rules/rules.c:41-72 | A reload keeps the surviving rules in order, then the accepted file rules up to capacity; a second reload changes nothing |
| Metrics.MetricsStore.RecordRun | khazar/components/rule-engine/main.c:153-160 | The end of a pipeline run counts it, classes it and times it |
| Metrics.MetricsStore.RecordLatency | khazar/components/rule-engine/metrics/metrics.c:52-61 | The running average and the maximum after one latency |
| Metrics.Conservation | khazar/components/rule-engine/metrics/metrics.c:19-43 | Total requests equal the runs and equal unknown plus the six per-source hits |
| Metrics.CountsExactly | khazar/components/rule-engine/metrics/metrics.c:19-43 | Each of the six hit counters is the number of the runs that found an intent by that stage, and the unknown counter that of the runs that found none |
| Metrics.AverageWithin | khazar/components/rule-engine/metrics/metrics.c:52-61 | The running average stays within any bounds on the latencies |
| Metrics.LatencyMovesAverage | khazar/components/rule-engine/metrics/metrics.c:52-61 | The running average is linear in the latencies: the first counts in full, every other as a twentieth, each faded by 0.95 for every run after it |
| Metrics.MaximumIsLargest | khazar/components/rule-engine/metrics/metrics.c:52-61 | The maximum is the largest latency recorded, or zero, its initial value |
| Pipeline.EveryRunIsTransparent | khazar/components/rule-engine/main.c:117-166 | After every run of requests, rule additions, reloads and periodic clears, every query gets the code, intent, target and action of the pipeline without a cache on the current tables |
| Pipeline.FirstPassingStageAnswers | khazar/components/rule-engine/main.c:105-151 | The answer is the hit of the first enabled stage, in the order intents, regex, tokens, aliases, fuzzy, that finds something at or above its own threshold; with none nothing is accepted, and the record is what the last enabled stage left |
| Pipeline.AcceptedReachesItsFloor | khazar/components/rule-engine/main.c:105-115 | What is accepted has at least the confidence its own stage demands |
| Pipeline.CacheAnswersExactly | khazar/components/rule-engine/main.c:125-126 | With the cache on, a held query is answered from the map with confidence 1 when the cache threshold lets that pass, and every other query as without a cache |
| Pipeline.RememberedExactly | khazar/components/rule-engine/main.c:128-151 | After a request the cache holds its query exactly when the pipeline accepts an answer with an intent to it |
| Pipeline.AskedAgainIsHit | khazar/components/rule-engine/main.c:117-166 | After every run, a query whose answer is accepted with an intent is answered from the cache when it is asked again, with the same intent, target and action |
| Pipeline.EveryRunIsCoherent | khazar/components/rule-engine/main.c:125-151 | In every reachable state each cached answer is one the pipeline accepts for that query today |
| Pipeline.StoreKeepsCoherent | khazar/components/rule-engine/main.c:128-131 | Storing an accepted answer keeps the cache coherent, whether it adds, keeps or evicts |
| Pipeline.TransparentExactly | khazar/components/rule-engine/main.c:117-166 | Transparency holds over all runs exactly when some other stage is enabled or the cache is off |
| Pipeline.CacheAloneIsNotTransparent | khazar/components/rule-engine/main.c:122-126 | With the cache as the only stage the first query is answered with intent 0, where the pipeline finds nothing |
| Pipeline.StartIrrelevant | khazar/components/rule-engine/main.c:128-151 | Once any stage runs, what a missed cache lookup left in the result record does not matter |
| Pipeline.EveryRunConserves | khazar/components/rule-engine/main.c:153-160 | In every reachable state of the engine total requests equal unknown plus the six per-source hits |
| RuleRuns.CountersAreOfAnswers | khazar/components/rule-engine/main.c:153-160 | The counters after a run are those of its answered requests and nothing else |
| RuleRuns.TokenAdded | khazar/components/rule-engine/main.c:192-202 | A runtime token goes to the end of its table and the cache is emptied; with an unknown intent or a full table nothing changes, not even the cache |
| RuleRuns.RegexAdded | khazar/components/rule-engine/main.c:181-191 | The same for a regex, which must also compile |
| RuleRuns.IntentAdded | khazar/components/rule-engine/main.c:203-213 | The same for an intent entry |
| RuleRuns.AliasAdded | khazar/components/rule-engine/main.c:214-224 | The same for an alias, which has no intent |
| RuleRuns.ReloadExactly | khazar/components/rule-engine/rules/rules.c:167-197 | A reload empties the cache and gives each of the four tables its own rules of other sources, in order, and then the file's up to capacity; regexes with an empty pattern go, and those of the file that do not compile are left out |
| RuleRuns.OwnRulesStay | khazar/components/rule-engine/main.c:61-229 | A rule that is not from a file is still in its table after every later run, save a regex with an empty pattern |
| RuleRuns.TablesStaySized | khazar/components/rule-engine/include/common.h:9-12 | No table outgrows its capacity over any run |
| RuleRuns.ClearsForget | khazar/components/rule-engine/main.c:61-69 | A reload and a periodic clear leave the cache empty; without files a reload does nothing else |
| Engine.RuleEngine.RunStages | khazar/components/rule-engine/main.c:128-151 | The five stages over one result record end at the first accepted result |
| Engine.RuleEngine.Answer | khazar/components/rule-engine/main.c:125-151 | Result and new cache of one run; the rule tables stay as they are |
| Engine.RuleEngine.RunPipeline | khazar/components/rule-engine/main.c:117-166 | One run moves the whole engine, counters included, by one request step |
| Engine.RuleEngine.HandleRequest | khazar/components/rule-engine/main.c:270-299 | The parts of a request are answered in turn, each in the state the one before left; the engine moves on by those runs and the number answered is counted |
| Engine.SuccessesAre | khazar/components/rule-engine/main.c:281-286 | The number counted is that of the parts that found an intent |
| Engine.EveryPartIsPlain | khazar/components/rule-engine/main.c:270-299 | In every reachable state, unless the cache is the only stage, every part of every request gets the answer of the pipeline without a cache on the current tables |
| Engine.RuleEngine.HandleAddRule | khazar/components/rule-engine/main.c:168-229 | A runtime rule is refused or added, the cache is cleared exactly when a table changed, and the regex table, handles included, takes the step's operations |
| Engine.RuleEngine.AddRegexRule | khazar/components/rule-engine/main.c:181-191 | A runtime regex is appended exactly when it compiles and fits |
| Engine.RuleEngine.DoReload | khazar/components/rule-engine/main.c:61-69 | Clears the cache and reloads the four tables, or only clears the cache when the files cannot be loaded; the regex table, handles included, takes the step's operations |
| Engine.RuleEngine.LoadAll | khazar/components/rule-engine/rules/rules.c:167-197 | All four tables after clearing file rules and loading the files |
| Engine.RuleEngine.ClearPeriodically | khazar/components/rule-engine/main.c:385-390 | The periodic clear empties the cache and changes nothing else |
| Engine.EveryRunFreesOnce | khazar/components/rule-engine/main.c:61-69 | Over every run of the engine's steps each compiled regex is held by one slot or was freed once, none is leaked, and cleaning up leaves each freed exactly once |
| Engine.RegexesAreOwned | khazar/components/rule-engine/main.c:61-191 | Over every run the regexes of the engine's tables are those of the slots whose compiled regexes that law is about |
| Requests.SplitQuery | khazar/components/rule-engine/main.c:71-103 | The separator search and the trimming loops give the parts, or none when a side is blank |
| Requests.SplitExactly | khazar/components/rule-engine/main.c:71-103 | For any list of separators, a query is asked in two parts exactly when it joins two non-blank texts at the first occurrence of the first separator found, and the parts are those texts trimmed |
| Requests.AskedExactly | khazar/components/rule-engine/main.c:72 | The same for the five separators of the source in its order |
| Requests.TrimIsCore | khazar/components/rule-engine/main.c:83-97 | Trimming removes exactly the blanks around a text and empties it exactly when it is blank |
| Requests.OnlyTrimIsCore | khazar/components/rule-engine/main.c:83-97 | No other text is the given one without the blanks around it |
| Pieces.FindPieces | khazar/sdk/json/json.c:12-18 | A search for a quoted pattern lands at the first run of pieces equal to it, and on nothing inside a piece |
| Pieces.NoPieces | khazar/sdk/json/json.c:12-18 | It finds nothing when no run of pieces equals the pattern |
| Json.JsonEscape | khazar/sdk/json/json.c:131-148 | For every destination of at least two bytes the buffer ends up holding the escaped text, terminated and in bounds |
| Json.JsonUnescape | khazar/sdk/json/json.c:150-172 | The buffer ends up holding the unescaped text up to the first unescaped quote or the buffer's end |
| Json.EscapeUnescape | khazar/sdk/json/json.c:131-172 | For all buffer sizes reading an escaped text back gives a prefix of the source, without splitting an escape pair or consuming the tail after the closing quote |
| Json.ConsumesAll | khazar/sdk/json/json.c:131-148 | The whole source is taken exactly when the escaped text before its last character fits |
| Json.RoundTrip | khazar/sdk/json/json.c:131-172 | Escape then unescape is the identity when both buffers suffice |
| JsonMeaning.EscapedMeansExactly | khazar/sdk/json/json.c:131-148 | What the SDK escapes stands for the text in the sense of section 7 of RFC 8259 exactly when that holds no control characters other than line feeds, carriage returns and tabs, and is otherwise no JSON string |
| JsonMeaning.GeneratedMeansExactly | khazar/components/model-runtime/protocol/protocol.c:105-114 | The same for the model runtime, exactly when it holds none other than line feeds |
| JsonMeaning.SdkReadsExactly | khazar/sdk/json/json.c:150-172 | Of every string in the sense of RFC 8259 without numbered characters, the SDK reads what it stands for exactly when it holds no escaped backspace or form feed |
| JsonMeaning.ItemReadsExactly | khazar/sdk/json/json.c:98-101 | String arrays, and the daemons' readers like it, exactly when it escapes only quotes, backslashes and slashes |
| JsonMeaning.ClassifierReadsExactly | khazar/components/intent-classifier/main.c:170-193 | The classifier exactly when it escapes only quotes, backslashes and line feeds |
| JsonMeaning.BackspaceFails | khazar/sdk/json/json.c:136-164 | The SDK prints a backspace as it is, and reads an escaped one as the letter b |
| Json.FindKey | khazar/sdk/json/json.c:12-26 | The value position is the first quoted occurrence of the key followed by a colon, or nothing |
| Json.KeyValueExactly | khazar/sdk/json/json.c:12-26 | The value of a key is what stands behind its first quoted occurrence and a colon, with any whitespace around the colon; there is none exactly when that occurrence is followed by something else |
| Json.LongKeyIsCut | khazar/sdk/json/json.c:15-17 | A key of 126 bytes or more is looked for by its first 126 bytes and without its closing quote |
| Json.JsonExtractString | khazar/sdk/json/json.c:28-38 | The destination holds the key's string value, or is untouched on failure |
| Json.JsonExtractStringArray | khazar/sdk/json/json.c:81-110 | On every input the loop ends, with at most max items, each cut to 63 bytes |
| Json.FindKeyPiece | khazar/sdk/json/json.c:12-18 | The first piece equal to the key is where its search lands |
| Json.ValuePiece | khazar/sdk/json/json.c:28-38 | A key followed by the piece ":" has the next piece as its value |
| Json.NoValuePiece | khazar/sdk/json/json.c:19-25 | A key met first as a value, so followed by a comma, is reported absent |
| Register.BuildRegister | khazar/sdk/protocol/protocol.c:100-112 | The loop over the capabilities prints the message |
| Register.CapsBufferIs | khazar/sdk/protocol/protocol.c:100-108 | A capability list of any length is printed as far as its 2048-byte buffer goes |
| Register.AgentRecord.ParseRegister | khazar/sdk/protocol/protocol.c:66-79 | Fills name, version and capabilities from the message |
| Register.ItemsOfCaps | khazar/sdk/json/json.c:81-110 | Reading a printed capability list gives the list back exactly when no capability holds a quote or a backslash |
| Register.SpacedListReads | khazar/sdk/json/json.c:92-108 | Whitespace before and behind the items of a list changes nothing |
| Register.ReadIffPlain | khazar/sdk/json/json.c:150-172 | A text printed unescaped reads back as itself exactly when it holds no quote and no backslash |
| Register.ParsesBack | khazar/sdk/protocol/protocol.c:66-112 | For all texts: the name is recovered exactly when it is plain, then the version exactly when plain and not hidden by the name, then the capabilities exactly when plain and not hidden by either |
| Register.RegisterRoundTrips | khazar/sdk/protocol/protocol.c:66-112 | Printing an agent and parsing it back gives the same agent exactly when its texts hold no quote and no backslash and no field that equals a later key hides a non-empty value |
| Register.NamedVersion | khazar/sdk/protocol/protocol.c:66-79 | An agent called "version" does not come back |
| Registration.ReadAgent | khazar/components/orchestrator/main.c:169-240 | The four reading passes over a registration: name, version, socket under either key, and the capability loop |
| Registration.KindExactly | khazar/components/orchestrator/protocol/protocol.c:15-54 | The order in which the kinds are looked for, with their texts |
| Registration.LooseCap | khazar/components/orchestrator/main.c:219-234 | A capability may have any text without quotes before it and any text without comma and bracket behind it |
| Registration.TakenForRegistration | khazar/components/orchestrator/protocol/protocol.c:9-57 | A printed registration is taken for a request exactly when its name, version or a capability is "query", and for a registration otherwise |
| Registration.QueryArrivesExactly | khazar/components/orchestrator/protocol/protocol.c:20-40 | A request message is taken for a request, and its quote-free query is read as it is exactly when it holds no backslash |
| Registration.NamedQuery | khazar/components/orchestrator/protocol/protocol.c:21 | The registration of an agent called "query" is taken for a request |
| Registration.RegistrationArrives | khazar/components/orchestrator/main.c:169-240 | Name and version of a printed registration always come back, even "version"; the whole agent does when nothing is called "query" and the version does not hide the list |
| Registration.NameAndVersionExactly | khazar/components/orchestrator/main.c:173-199 | Name and version of a printed registration both come back exactly when neither holds a quote |
| Registration.RegistrationArrivesExactly | khazar/components/orchestrator/main.c:169-240 | With a given name and version, whatever they are, every quote-free capability list that fits and does not hold "query" arrives exactly when neither holds a quote or is "query" and not both the name is "capabilities" and the version holds a bracket |
| Registration.CapsLost | khazar/components/orchestrator/main.c:215-237 | With such a name and version a one-capability list does not come back |
| Registration.PrintedWhole | khazar/sdk/agent/agent.c:174-175 | The printer's buffers and the agent's 4096-byte message buffer cut nothing of such a registration |
| Registration.AgentIsReadable | khazar/components/orchestrator/main.c:173-238 | Whatever the message, the name and capabilities read are C strings without quotes that fit their fields |
| Registration.SocketIsNotSent | khazar/sdk/protocol/protocol.c:100-112 | Unless a text is called like its key, an agent is registered without a socket |
| AgentMessages.AnnouncementKind | khazar/components/orchestrator/protocol/protocol.c:15-54 | What a bundled agent prints is taken for a request exactly when its name, version, socket or a capability is "query", and for a registration otherwise |
| AgentMessages.AnnouncementArrives | khazar/agents/desktop-agent/main.c:67-71 | The orchestrator reads the name, version, socket and capabilities printed; only an agent named "socket" has its version read as its socket, and only a bracket in a text behind one called "capabilities" can hide the list |
| AgentMessages.NamedSocket | khazar/components/orchestrator/main.c:201-214 | An agent announced as "socket" is registered with its version as socket |
| RuntimeText.EscapeGenerated | khazar/components/model-runtime/protocol/protocol.c:105-114 | The escape loop never hits its buffer's end and writes the escaped text |
| RuntimeText.ReadRawOutput | khazar/components/intent-classifier/main.c:165-193 | The key search and unescape loop fill the raw output |
| RuntimeText.TextArrives | khazar/components/intent-classifier/main.c:165-193 | For every text the classifier's raw output is that text or its first 4095 bytes |
| RuntimeText.ReplyFits | khazar/components/model-runtime/protocol/protocol.c:98-120 | The printed reply fits the message buffers |
| RuntimeText.IntentUnderstood | khazar/components/intent-classifier/main.c:87-128 | The intent and target the model named, as classified after both hops, even for an intent named like a key |
| Fields.ReadField | khazar/components/policy-engine/protocol/protocol.c:52-66 | Key, colon, quote, copy loop: the zeroed buffer ends up holding the field's value cut to size |
| Fields.FieldPiece | khazar/components/policy-engine/protocol/protocol.c:52-66 | The value read is the piece after the first ":" piece that follows the key |
| Policy.PolicyStore.AddRule | khazar/components/policy-engine/policy/policy.c:157-174 | Appends the rule unless the store is full |
| Policy.PolicyStore.Reload | khazar/components/policy-engine/policy/policy.c:219-228 | Forgets every rule and loads the files' rules up to capacity |
| Policy.PolicyStore.Check | khazar/components/policy-engine/policy/policy.c:176-217 | The priority scan returns the specified decision |
| Policy.DecisionOfWinner | khazar/components/policy-engine/policy/policy.c:17-29 | The earliest rule of highest non-negative priority that names the capability or every one, and the agent, every one or a pattern of it, answers with its action, message and description; there is none exactly when no such rule exists, and then the answer is deny |
| Policy.OthersRuleIgnored | khazar/components/policy-engine/policy/policy.c:17-29 | A rule about another capability, or about agents this one is not among, changes no decision wherever it stands |
| Policy.OrderDoesNotMatter | khazar/components/policy-engine/policy/policy.c:186-203 | When no two different applying rules share a priority, every order of the rules gives the same answer |
| Policy.WeakerRuleChangesNothing | khazar/components/policy-engine/policy/policy.c:157-217 | Appending a rule that does not apply, is negative, or is no higher than the winner leaves the answer unchanged |
| Policy.StrongerRuleDecides | khazar/components/policy-engine/policy/policy.c:157-217 | A rule appended above every applying rule answers from then on |
| PolicyRequest.ReadRequest | khazar/components/policy-engine/protocol/protocol.c:45-99 | The pointer loops fill agent, capability and target as specified |
| PolicyRequest.TypeFoundExactly | khazar/components/policy-engine/protocol/protocol.c:31-43 | For any target another message type is found in a question exactly when the quoted target contains its text |
| PolicyRequest.TypeExactly | khazar/components/policy-engine/protocol/protocol.c:36-40 | The order in which the types are looked for, with their texts |
| PolicyRequest.TargetDecidesType | khazar/components/policy-engine/protocol/protocol.c:31-43 | The target alone decides what the engine takes a question for, policy check unless its quoted text names another type |
| PolicyRequest.PlainTargetIsCheck | khazar/components/policy-engine/protocol/protocol.c:31-43 | A target without quotes leaves every question a policy check |
| PolicyRequest.QuotedTargetMistaken | khazar/components/policy-engine/protocol/protocol.c:39 | Targets with which a question is taken for the addition of a rule |
| PolicyRequest.AgentParses | khazar/components/policy-engine/protocol/protocol.c:45-99 | The agent arrives unchanged, for any target |
| PolicyRequest.CapabilityParses | khazar/components/policy-engine/protocol/protocol.c:45-99 | The capability arrives unchanged, for any target and even from an agent named "capability" |
| PolicyRequest.LongTextsAreCut | khazar/components/policy-engine/protocol/protocol.c:63-80 | Longer agents and capabilities arrive as their first 63 bytes |
| PolicyRequest.TargetParses | khazar/components/policy-engine/protocol/protocol.c:45-99 | The target arrives up to its first quote, so unchanged exactly when it has none; except that an agent named "target" puts the capability there |
| PolicyRequest.AgentNamedTarget | khazar/components/policy-engine/protocol/protocol.c:84-96 | A question of an agent named "target" whose target is read as its capability |
| PolicyReply.ExtractStr | khazar/components/orchestrator/policy_client/policy_client.c:56-71 | The search, the closing quote, the length clamp and the copy leave the field's value in the zeroed buffer |
| PolicyReply.ReadReply | khazar/components/orchestrator/policy_client/policy_client.c:114-125 | For every answer the engine prints the client is allowed exactly if it was an allow, and gets the reason up to its first quote |
| PolicyReply.ReplyAllowsExactly | khazar/components/orchestrator/policy_client/policy_client.c:114-125 | Whatever the reason holds, the client reads allow exactly when the engine answered allow, and the action text says which of the three it was |
| PolicyReply.ReasonArrives | khazar/components/orchestrator/policy_client/policy_client.c:114-125 | The client reads the reason up to its first quote |
| PolicyReply.MatchedRuleArrives | khazar/components/policy-engine/protocol/protocol.c:122-129 | The matched rule can be read from the answer when it and the reason hold no quote |
| PolicyReply.MembersNeverAllow | khazar/components/policy-engine/protocol/protocol.c:131-145 | No answer made of other members than an action and a reason is read as an allow, or as giving a reason |
| PolicyWire.ReadRule | khazar/components/policy-engine/protocol/protocol.c:101-120 | The rule read from a message, with its defaults |
| PolicyWire.RuleArrivesExactly | khazar/components/policy-engine/protocol/protocol.c:101-120 | A message that adds a rule adds the one it names, of priority 10 and without a text; only for a capability called "action" is the agent read as the action |
| PolicyWire.ActionCapability | khazar/components/policy-engine/protocol/protocol.c:116-117 | A rule that denies the capability "action" to an agent "allow" is added as one that allows it |
| PolicyWire.FixedAnswers | khazar/components/policy-engine/protocol/protocol.c:131-145 | What every message that is no check is answered |
| PolicyWire.Serve | khazar/components/policy-engine/main.c:26-89 | The answer to any message and the rules it leaves |
| PolicyWire.RuleAddedNeverAllows | khazar/components/policy-engine/protocol/protocol.c:143-145 | Not even a question taken for an added rule is answered with something the client reads as an allow |
| PolicyWire.DecisionSurvivesBothMessages | khazar/components/orchestrator/policy_client/policy_client.c:73-132 | For any target the client allows exactly when the question is taken for a policy check and the rules decide allow for that agent and capability |
| PolicyWire.ReasonSurvivesBothMessages | khazar/components/orchestrator/policy_client/policy_client.c:114-125 | The reason the client reads is that of the decision up to its first quote for a policy check, and empty for any other answer |
| PolicyWire.DecisionArrivesExactly | khazar/components/orchestrator/policy_client/policy_client.c:73-132 | The client learns the decision of every set of rules exactly when the quoted target names no other message type, as when it holds no quote |
| PolicyWire.AskingChangesNothing | khazar/components/policy-engine/main.c:52-69 | A question leaves the engine's rules as they are except exactly when it is taken for a reload that finds other rules or for an added rule that fits |
| PolicyWire.MistakenDecidesExactly | khazar/components/policy-engine/protocol/protocol.c:101-120 | After a question taken for an added rule the decision about its agent and capability is as before when the store is full or an applying rule of priority 10 or more is held, and otherwise what the question's text says about an action, allow if it says nothing |
| PolicyWire.AskedThenAllowed | khazar/components/policy-engine/main.c:59-69 | With no rules held such a question is followed by an allow for its own agent and capability, where it was denied before |
| PolicyWire.EngineReplyClean | khazar/components/policy-engine/main.c:26-89 | With rules free of NUL the answer to every message is a C string |
| Sessions.SessionManager.GetOrCreate | khazar/components/orchestrator/session/session.c:35-80 | The three loops together, for any client id and any table |
| Sessions.ServedIsOwn | khazar/components/orchestrator/session/session.c:57-68 | In a table of active slots with distinct clients the reuse loop only ever hits the caller's own expired slot |
| Sessions.ServedExactly | khazar/components/orchestrator/session/session.c:35-80 | A client that fits its field keeps its slot, touched while less than the timeout has passed and otherwise started afresh without history; a new one gets the next slot while there is one |
| Sessions.SessionManager.AddHistory | khazar/components/orchestrator/session/session.c:82-104 | The first session with that id takes the entry while it has room, and is touched |
| Sessions.NotedExactly | khazar/components/orchestrator/session/session.c:82-104 | A note touches the first session of the id and is kept while that has fewer than 50 entries; without such a session it is dropped |
| Sessions.EveryRunKeepsOwners | khazar/components/orchestrator/session/session.c:35-104 | In every reachable state used slots are active with distinct clients, and no slot changes owner |
| Sessions.ServedOnceServedAlways | khazar/components/orchestrator/session/session.c:35-80 | A client served once is always served again, from the same slot |
| Sessions.ServedIsHeld | khazar/components/orchestrator/session/session.c:35-80 | At the end of every run each client that was served in it still has a slot |
| Sessions.RefusedOnceRefusedAlways | khazar/components/orchestrator/session/session.c:35-80 | A client refused once is refused after every later run |
| Sessions.RecognisedExactly | khazar/components/orchestrator/session/session.c:42-51 | A client is served again from its slot, and the table keeps its clients distinct, exactly when its id is shorter than 64 bytes |
| Sessions.SessionIdNamesClient | khazar/components/orchestrator/session/session.c:31-33 | Two session ids that both fit their field uncut and are equal belong to one client |
| Sessions.IdNamesClientExactly | khazar/components/orchestrator/session/session.c:31-33 | No other client under 64 bytes has this session id at any time exactly when the id is shorter than 63 bytes, or the client has 63 bytes and is not itself a shorter client, an underscore and the start of a number |
| Sessions.CutIdsCollide | khazar/components/orchestrator/session/session.c:31-33 | Two clients whose cut session ids are equal |
| Sessions.NotesReachTheirSession | khazar/components/orchestrator/session/session.c:82-104 | While ids fit, history noted under a session's id changes that session and no other |
| Registry.AgentRegistry.Register | khazar/components/orchestrator/registry/registry.c:25-55 | Replaces the agent of that name in place or appends it; fails exactly for a new name in a full table |
| Registry.AgentRegistry.Unregister | khazar/components/orchestrator/registry/registry.c:57-74 | Moves the last agent into the gap; succeeds exactly for a known name |
| Registry.AgentRegistry.Find | khazar/components/orchestrator/registry/registry.c:76-94 | The first live agent offering the capability |
| Registry.RegisterRefines | khazar/components/orchestrator/registry/registry.c:25-55 | Registration updates a directory with unique names, marks the agent alive and gives it the current time; a new name needs fewer than 64 agents |
| Registry.RegisteredSlots | khazar/components/orchestrator/registry/registry.c:30-52 | A known agent is replaced where it stands, a new one comes last while there are fewer than 64, and no other slot changes |
| Registry.UnregisterRefines | khazar/components/orchestrator/registry/registry.c:57-74 | Removal by moving the last agent removes exactly that name and no other |
| Registry.UnregisteredSlots | khazar/components/orchestrator/registry/registry.c:62-69 | The last agent takes the slot of the one removed and every other stays where it is |
| Registry.FoundAgentOffers | khazar/components/orchestrator/registry/registry.c:76-94 | The agent found is alive, held under its name and offers the capability; none is found exactly when no live agent does |
| Registry.FirstIsFound | khazar/components/orchestrator/registry/registry.c:81-90 | The agent found is the first that is alive and offers the capability |
| Orchestrator.OrchestratorProcess.OnRequest | khazar/components/orchestrator/main.c:73-167 | Replies, dispatches and registry after a request |
| Orchestrator.OrchestratorProcess.OnMessage | khazar/components/orchestrator/main.c:48-268 | Replies, dispatches and registry after any message |
| Orchestrator.ReadMessage | khazar/components/orchestrator/protocol/protocol.c:9-57 | The kind of a message by its text, and the query of a request |
| Orchestrator.EveryMessageAnsweredOnce | khazar/components/orchestrator/main.c:48-268 | Over every message sequence there is exactly one reply each, in order, and a request's reply bears its id |
| Orchestrator.Resolve | khazar/components/orchestrator/main.c:84-106 | The first of rule engine, local router and classifier that knows the query decides the intent |
| Replies.UnresolvedSucceeds | khazar/components/orchestrator/main.c:108-113 | Over every run, a request that no resolver knows is answered with success and not dispatched |
| Replies.UnservedFails | khazar/components/orchestrator/main.c:115-125 | One whose capability no live agent offers fails, naming it |
| Replies.RefusedFails | khazar/components/orchestrator/main.c:129-145 | One to which the policy engine answers anything but an allow fails with the reason read, or "action not permitted" without one |
| Replies.DispatchedIsAnswered | khazar/components/orchestrator/main.c:146-165 | One that is allowed, or not answered by the policy engine, is dispatched to the first live agent that offers it, and answered with exactly the status and payload the agent returned |
| Replies.UndispatchedIsAnswered | khazar/components/orchestrator/main.c:153-159 | Without an agent client it is not dispatched and succeeds; without a socket it fails |
| Replies.OthersAnswered | khazar/components/orchestrator/main.c:59-71 | A ping is answered, a message of no known kind fails, and a registration succeeds exactly when it names an agent; none is dispatched |
| Orchestrator.RegistryStaysSound | khazar/components/orchestrator/main.c:169-258 | Over every message sequence the registry's agents are alive, uniquely named and at most 64, and their texts hold no quote and fit their fields |
| Orchestrator.RegistrationTakesEffect | khazar/components/orchestrator/main.c:169-258 | A message printed by the SDK, handled from its text on, leaves the agent in the registry with the version and capabilities printed |
| Orchestrator.AnnouncementTakesEffect | khazar/components/orchestrator/main.c:169-258 | What a bundled agent prints, handled from its text on, leaves exactly that agent in the registry, with its socket |
| Orchestrator.EveryDispatchJustified | khazar/components/orchestrator/main.c:73-167 | Every dispatch went to an agent then registered, alive, with a socket and offering the capability its request resolved to, and never after a policy reply other than allow |
| Orchestrator.DispatchNeedsAllow | khazar/components/orchestrator/main.c:129-150 | When the policy engine answered its question, a dispatch implies that the engine's rules allow that agent and capability, for any target |
| Orchestrator.WithEngineAnswers | khazar/components/orchestrator/main.c:132-136 | There is a world in which an engine with given rules answers every question about a registered agent |
| Orchestrator.DispatchedExactly | khazar/components/orchestrator/main.c:114-156 | A resolved request for a reachable agent is dispatched exactly when the rules allow it and its target leaves the question a policy check |
| Orchestrator.SentCapabilityExactly | khazar/components/orchestrator/agent_client/agent_client.c:89-93 | The capability sent is the one the request was resolved to exactly when it is the agent's first |
| Orchestrator.OtherCapabilitySent | khazar/components/orchestrator/agent_client/agent_client.c:89-93 | A request for an agent's second capability is sent as one for its first |
| GuardedRuns.EveryDispatchAllowed | khazar/components/orchestrator/main.c:129-156 | Over every run of the orchestrator and the engine together, with the rules changing as questions and other messages change them, each dispatch was allowed by the rules held when its request was handled |
| GuardedRuns.DispatchedByRules | khazar/components/orchestrator/main.c:129-156 | In such a run a request for a reachable agent is dispatched exactly when the rules of the moment allow it and its target leaves the question a policy check |
| Replies.RefusedByRules | khazar/components/orchestrator/main.c:129-145 | Over every joint run, a request that the rules of the moment do not allow, or whose target makes the question another message, fails with the reason of the deciding rule up to its first quote, or without one |
| Replies.AllowedIsAnswered | khazar/components/orchestrator/main.c:146-165 | And one that they allow is dispatched and answered with exactly the status and payload the agent returned |
| Replies.UnresolvedJointly | khazar/components/orchestrator/main.c:108-113 | One that no resolver knows succeeds and is not dispatched |
| Replies.UnservedJointly | khazar/components/orchestrator/main.c:115-125 | One whose capability no live agent offers fails |
| GuardedRuns.AskedThenDispatched | khazar/components/policy-engine/main.c:57-67 | With no rules held a request is not dispatched; after one whose target makes its question an added rule, the same request with a plain target is |
| GuardedRuns.ChecksKeepRules | khazar/components/policy-engine/main.c:70-82 | When every target leaves its question a policy check the rules stay as they were over the whole run |
| GuardedRuns.ChecksDispatchAllowed | khazar/components/orchestrator/main.c:129-156 | And every dispatch of the run is allowed by the rules it started with |
| GuardedRuns.SomethingIsDispatched | khazar/components/orchestrator/main.c:73-258 | The conditions of these theorems are met by a run in which an agent registers and a request is dispatched to it |
| Keywords.KeywordClassify | khazar/components/intent-classifier/main.c:251-299 | Lower-casing, scan and target loop give the specified classification |
| Keywords.LongestKeywordWins | khazar/components/intent-classifier/main.c:263-294 | The earliest of the longest keywords in the query decides, with its own target or else what follows its first occurrence and blanks, "unknown" when nothing does; no answer exactly when none occurs |
| Keywords.ContainedKeywordNeverWins | khazar/components/intent-classifier/main.c:263-277 | A keyword properly contained in another keyword of the query never wins |

## Left out

- Sockets, epoll, threads and locks, partial reads and writes, timeouts, signals, logging and file reading: a whole message or file is taken as given.
- Requests interleaved inside a reload: a reload is one step. The cache law is not claimed between its clear and its last load.
- The text form of rule files, of runtime rule messages and of policy files: the model starts from the parsed rules. The default rules' contents are not modelled.
- The multi-intent reply (`khazar/components/rule-engine/main.c`, lines 279-288) and its counter: results are stored by part and printed by count. The two pipeline runs themselves are modelled.
- Engine.RuleEngine.HandleRequest: promises the answers of each part and their number, not the text of the reply.
- Terminators that strncpy leaves out: a query of 2047 bytes or an alias of 127 lower-cased into a buffer is taken as terminated.
- Float rounding: thresholds, similarities, confidences and latencies are real numbers.
- Wrap-around of the cache's tick counter and of the 64-bit metrics counters.
- The query that alias resolution rewrites locally and never uses.
- Json.JsonEscape: a destination of one byte for a non-empty text, where the source's size arithmetic wraps, and one of no bytes are not modelled.
- Register.RegisterRoundTrips: texts are within their fields and the capability list within its 2047 bytes; what a longer list prints is in `CapsBufferIs`.
- PolicyWire.DecisionSurvivesBothMessages: agent and capability hold no quote, which every registration guarantees; request ids are printed digits.
- RuntimeText.TextArrives: the reply's id and numbers are printed digits; number printing itself is not modelled.
- Matcher.ExtractTarget: the inner loop that would skip pattern characters never runs a step and is not repeated.
- Cache.QueryCache.Store: the model stores the fields a lookup reads back; confidence, source and pattern are not cached by the source either.
- Orchestrator.OrchestratorProcess.OnMessage: reading a request's number, the local keyword router, the orchestrator's own metrics and the wording of a registration's reply are parameters, as is what a connected agent answers.
- Agents, their command handlers and heartbeats, configuration readers, the desktop integration, service units and build scripts.
