/** The Tier 0 pipeline and the cache in front of it (components/rule-engine/main.c). */
module Pipeline {
  import opened CStrings
  import opened RuleTables
  import opened Stages
  import opened Matcher
  import opened Fuzzy
  import opened Cache
  import Metrics

  datatype Config = Config(enableCache: bool, enableIntents: bool, enableRegex: bool, enableTokens: bool,
                           enableAlias: bool, enableFuzzy: bool,
                           cacheFloor: real, intentFloor: real, regexFloor: real, tokenFloor: real, aliasFloor: real,
                           fuzzyThreshold: real)

  datatype Tables = Tables(intents: seq<Rule<IntentRule>>, regex: seq<Rule<RegexRule>>, tokens: seq<Rule<TokenRule>>,
                           aliases: seq<Rule<AliasRule>>, fuzzy: seq<Rule<IntentRule>>)

  function ConfidenceOk(cfg: Config, r: MatchResult): bool {
    match r.source
    case CacheHit => r.confidence >= cfg.cacheFloor
    case Regex => r.confidence >= cfg.regexFloor
    case Token => r.confidence >= cfg.tokenFloor
    case IntentTable => r.confidence >= cfg.intentFloor
    case Alias => r.confidence >= cfg.aliasFloor
    case FuzzyTable => true
  }

  /** A stage is off, or it ran and found something or not. */
  datatype Try = Off | Ran(hit: Option<MatchResult>)

  function TryOf(enabled: bool, hit: Option<MatchResult>): Try {
    if enabled then Ran(hit) else Off
  }

  function Tries(cfg: Config, lib: RegexLib, t: Tables, query: string): seq<Try> {
    [TryOf(cfg.enableIntents, IntentStage(t.intents, query)),
     TryOf(cfg.enableRegex, RegexStage(t.regex, query, lib)),
     TryOf(cfg.enableTokens, TokenStage(t.tokens, query)),
     TryOf(cfg.enableAlias, AliasStage(t.aliases, query)),
     TryOf(cfg.enableFuzzy, FuzzyStage(t.fuzzy, query, cfg.fuzzyThreshold))]
  }

  datatype Outcome = Outcome(result: MatchResult, accepted: bool)

  /** The stages in order over one result record: a stage that runs overwrites it, and the first
      result that passes its threshold ends the pipeline. */
  function RunTries(cfg: Config, tries: seq<Try>, result: MatchResult): Outcome {
    if tries == [] then Outcome(result, false)
    else
      match tries[0]
      case Off => RunTries(cfg, tries[1..], result)
      case Ran(None) => RunTries(cfg, tries[1..], NO_MATCH)
      case Ran(Some(r)) => if ConfidenceOk(cfg, r) then Outcome(r, true) else RunTries(cfg, tries[1..], r)
  }

  /** The pipeline with the cache off. */
  function Reply(cfg: Config, lib: RegexLib, t: Tables, query: string): Outcome {
    RunTries(cfg, Tries(cfg, lib, t, query), NO_MATCH)
  }

  function Over(tr: Try, r: MatchResult): MatchResult {
    if tr.Off? then r else if tr.hit.Some? then tr.hit.value else NO_MATCH
  }

  predicate Ends(cfg: Config, tr: Try) {
    tr.Ran? && tr.hit.Some? && ConfidenceOk(cfg, tr.hit.value)
  }

  /** Five stages, written out. */
  lemma Unrolled(cfg: Config, tries: seq<Try>, r: MatchResult)
    requires |tries| == 5
    ensures RunTries(cfg, tries, r) ==
              var r0 := Over(tries[0], r);
              if Ends(cfg, tries[0]) then Outcome(r0, true) else
              var r1 := Over(tries[1], r0);
              if Ends(cfg, tries[1]) then Outcome(r1, true) else
              var r2 := Over(tries[2], r1);
              if Ends(cfg, tries[2]) then Outcome(r2, true) else
              var r3 := Over(tries[3], r2);
              if Ends(cfg, tries[3]) then Outcome(r3, true) else
              Outcome(Over(tries[4], r3), Ends(cfg, tries[4]))
  {
    var t1 := tries[1..];
    var t2 := t1[1..];
    var t3 := t2[1..];
    var t4 := t3[1..];
    assert t1[0] == tries[1] && t2[0] == tries[2] && t3[0] == tries[3] && t4[0] == tries[4] && t4[1..] == [];
    var r0 := Over(tries[0], r);
    var r1 := Over(tries[1], r0);
    var r2 := Over(tries[2], r1);
    var r3 := Over(tries[3], r2);
    OneTry(cfg, tries, r);
    OneTry(cfg, t1, r0);
    OneTry(cfg, t2, r1);
    OneTry(cfg, t3, r2);
    OneTry(cfg, t4, r3);
  }

  lemma OneTry(cfg: Config, tries: seq<Try>, r: MatchResult)
    requires tries != []
    ensures RunTries(cfg, tries, r) == if Ends(cfg, tries[0]) then Outcome(Over(tries[0], r), true)
                                       else RunTries(cfg, tries[1..], Over(tries[0], r))
  {
  }

  function OrNone(hit: Option<MatchResult>): MatchResult {
    if hit.Some? then hit.value else NO_MATCH
  }

  /** The first stage that is on, finds something and reaches its own floor answers. If none does, nothing is accepted
      and the record is left as the last stage that is on left it. */
  lemma FirstPassingStageAnswers(cfg: Config, lib: RegexLib, t: Tables, query: string)
    ensures var intents, regex := IntentStage(t.intents, query), RegexStage(t.regex, query, lib);
            var tokens, aliases := TokenStage(t.tokens, query), AliasStage(t.aliases, query);
            var fuzzy := FuzzyStage(t.fuzzy, query, cfg.fuzzyThreshold);
            Reply(cfg, lib, t, query) ==
              if cfg.enableIntents && intents.Some? && intents.value.confidence >= cfg.intentFloor
              then Outcome(intents.value, true)
              else if cfg.enableRegex && regex.Some? && regex.value.confidence >= cfg.regexFloor
              then Outcome(regex.value, true)
              else if cfg.enableTokens && tokens.Some? && tokens.value.confidence >= cfg.tokenFloor
              then Outcome(tokens.value, true)
              else if cfg.enableAlias && aliases.Some? && aliases.value.confidence >= cfg.aliasFloor
              then Outcome(aliases.value, true)
              else if cfg.enableFuzzy && fuzzy.Some? then Outcome(fuzzy.value, true)
              else Outcome(if cfg.enableFuzzy then NO_MATCH
                           else if cfg.enableAlias then OrNone(aliases)
                           else if cfg.enableTokens then OrNone(tokens)
                           else if cfg.enableRegex then OrNone(regex)
                           else if cfg.enableIntents then OrNone(intents)
                           else NO_MATCH, false)
  {
    var tries := Tries(cfg, lib, t, query);
    TriesAre(cfg, lib, t, query);
    StageSources(cfg, lib, t, query);
    Unrolled(cfg, tries, NO_MATCH);
    EndsAtFloor(cfg, cfg.enableIntents, IntentStage(t.intents, query), IntentTable);
    EndsAtFloor(cfg, cfg.enableRegex, RegexStage(t.regex, query, lib), Regex);
    EndsAtFloor(cfg, cfg.enableTokens, TokenStage(t.tokens, query), Token);
    EndsAtFloor(cfg, cfg.enableAlias, AliasStage(t.aliases, query), Alias);
    EndsAtFloor(cfg, cfg.enableFuzzy, FuzzyStage(t.fuzzy, query, cfg.fuzzyThreshold), FuzzyTable);
  }

  lemma StageSources(cfg: Config, lib: RegexLib, t: Tables, query: string)
    ensures IntentStage(t.intents, query).Some? ==> IntentStage(t.intents, query).value.source == IntentTable
    ensures RegexStage(t.regex, query, lib).Some? ==> RegexStage(t.regex, query, lib).value.source == Regex
    ensures TokenStage(t.tokens, query).Some? ==> TokenStage(t.tokens, query).value.source == Token
    ensures AliasStage(t.aliases, query).Some? ==> AliasStage(t.aliases, query).value.source == Alias
    ensures var fuzzy := FuzzyStage(t.fuzzy, query, cfg.fuzzyThreshold);
            fuzzy.Some? ==> fuzzy.value.source == FuzzyTable
  {
  }

  lemma TriesAre(cfg: Config, lib: RegexLib, t: Tables, query: string)
    ensures var tries := Tries(cfg, lib, t, query);
            && |tries| == 5 && tries[0] == TryOf(cfg.enableIntents, IntentStage(t.intents, query))
            && tries[1] == TryOf(cfg.enableRegex, RegexStage(t.regex, query, lib))
            && tries[2] == TryOf(cfg.enableTokens, TokenStage(t.tokens, query))
            && tries[3] == TryOf(cfg.enableAlias, AliasStage(t.aliases, query))
            && tries[4] == TryOf(cfg.enableFuzzy, FuzzyStage(t.fuzzy, query, cfg.fuzzyThreshold))
  {
  }

  lemma EndsAtFloor(cfg: Config, enabled: bool, hit: Option<MatchResult>, source: MatchSource)
    requires hit.Some? ==> hit.value.source == source
    ensures source == IntentTable ==>
              (Ends(cfg, TryOf(enabled, hit)) <==> enabled && hit.Some? && hit.value.confidence >= cfg.intentFloor)
    ensures source == Regex ==>
              (Ends(cfg, TryOf(enabled, hit)) <==> enabled && hit.Some? && hit.value.confidence >= cfg.regexFloor)
    ensures source == Token ==>
              (Ends(cfg, TryOf(enabled, hit)) <==> enabled && hit.Some? && hit.value.confidence >= cfg.tokenFloor)
    ensures source == Alias ==>
              (Ends(cfg, TryOf(enabled, hit)) <==> enabled && hit.Some? && hit.value.confidence >= cfg.aliasFloor)
    ensures source == FuzzyTable ==> (Ends(cfg, TryOf(enabled, hit)) <==> enabled && hit.Some?)
  {
  }

  /** So what is accepted reaches the floor of the stage it came from, and what none of the stages that are on found at
      its floor is not accepted. */
  lemma AcceptedReachesItsFloor(cfg: Config, lib: RegexLib, t: Tables, query: string)
    requires Reply(cfg, lib, t, query).accepted
    ensures var r := Reply(cfg, lib, t, query).result;
            && (r.source == IntentTable ==> cfg.enableIntents && r.confidence >= cfg.intentFloor)
            && (r.source == Regex ==> cfg.enableRegex && r.confidence >= cfg.regexFloor)
            && (r.source == Token ==> cfg.enableTokens && r.confidence >= cfg.tokenFloor)
            && (r.source == Alias ==> cfg.enableAlias && r.confidence >= cfg.aliasFloor)
            && (r.source == FuzzyTable ==> cfg.enableFuzzy && r.confidence >= cfg.fuzzyThreshold)
            && r.source != CacheHit
  {
    FirstPassingStageAnswers(cfg, lib, t, query);
    FuzzyConfidence(t.fuzzy, query, cfg.fuzzyThreshold);
  }

  lemma FuzzyConfidence(rows: seq<Rule<IntentRule>>, query: string, threshold: real)
    ensures FuzzyStage(rows, query, threshold).Some? ==>
              FuzzyStage(rows, query, threshold).value.confidence >= threshold
  {
  }

  function AnswerOf(r: MatchResult): Answer {
    Answer(r.intent, r.target, r.action)
  }

  /** The return code: 0 when an intent was found. */
  function Code(r: MatchResult): int {
    if r.intent == UNKNOWN then -1 else 0
  }

  /** What lookup leaves in the result record. */
  function CacheRecord(c: CacheState, query: string): MatchResult
    requires |c.slots| == SLOTS
  {
    var found := Found(c.slots, query);
    if found.Some? then CacheResult(found.value) else ZERO_RESULT
  }

  /** The pipeline with the cache in front. */
  function Cached(cfg: Config, lib: RegexLib, t: Tables, c: CacheState, query: string): Outcome
    requires |c.slots| == SLOTS
  {
    if !cfg.enableCache then Reply(cfg, lib, t, query)
    else
      var r := CacheRecord(c, query);
      if Found(c.slots, query).Some? && ConfidenceOk(cfg, r) then Outcome(r, false)
      else RunTries(cfg, Tries(cfg, lib, t, query), r)
  }

  function CacheAfter(cfg: Config, lib: RegexLib, t: Tables, c: CacheState, query: string, now: int): (next: CacheState)
    requires |c.slots| == SLOTS
    ensures |next.slots| == SLOTS
  {
    if !cfg.enableCache then c
    else
      var out := Cached(cfg, lib, t, c, query);
      var looked := Looked(c, query, now);
      if out.accepted then Stored(looked, query, AnswerOf(out.result), now) else looked
  }

  // ---- the engine as a state machine ----

  datatype RuleFiles = RuleFiles(regex: seq<RegexRule>, tokens: seq<TokenRule>, intents: seq<IntentRule>,
                                 aliases: seq<AliasRule>)

  datatype EngineState = EngineState(tables: Tables, cache: CacheState, counters: Metrics.Counters)

  datatype Step =
    | Request(query: string, now: int, latency: real)
    | AddRegex(pattern: string, intent: Intent, priority: int)
    | AddToken(token: string, intent: Intent, weight: int)
    | AddIntent(query: string, intent: Intent, target: string, action: string)
    | AddAlias(name: string, canonical: string)
    | Reload(files: Option<RuleFiles>)
    | PeriodicClear

  /** A runtime rule; a rule with an unknown intent is refused. */
  function TablesAfterAdd(lib: RegexLib, t: Tables, step: Step): Tables
    requires step.AddRegex? || step.AddToken? || step.AddIntent? || step.AddAlias?
  {
    match step
    case AddRegex(pattern, intent, priority) =>
      if intent == UNKNOWN || !lib.compiles(pattern) then t
      else t.(regex := Append(t.regex, Rule(Compiled(pattern, intent, priority), Runtime), MAX_REGEX_RULES))
    case AddToken(token, intent, weight) =>
      if intent == UNKNOWN then t
      else t.(tokens := Append(t.tokens, Rule(TokenRule(Cut(token, MAX_TOKEN_LEN - 1), intent, weight), Runtime),
                               MAX_TOKENS))
    case AddIntent(query, intent, target, action) =>
      if intent == UNKNOWN then t
      else t.(intents := Append(t.intents, Rule(IntentRow(query, intent, target, action), Runtime), MAX_INTENT_ENTRIES))
    case AddAlias(name, canonical) =>
      t.(aliases := Append(t.aliases,
                           Rule(AliasRule(Cut(name, MAX_TOKEN_LEN - 1), Cut(canonical, MAX_TOKEN_LEN - 1)), Runtime),
                           MAX_ALIASES))
  }

  function TablesAfterReload(lib: RegexLib, t: Tables, files: RuleFiles): Tables {
    t.(regex := ReloadedRegex(t.regex, files.regex, lib),
       tokens := Reloaded(t.tokens, NotFrom(File), files.tokens, MAX_TOKENS),
       intents := Reloaded(t.intents, NotFrom(File), files.intents, MAX_INTENT_ENTRIES),
       aliases := Reloaded(t.aliases, NotFrom(File), files.aliases, MAX_ALIASES))
  }

  function Next(cfg: Config, lib: RegexLib, s: EngineState, step: Step): (next: EngineState)
    requires |s.cache.slots| == SLOTS
    ensures |next.cache.slots| == SLOTS
  {
    match step
    case Request(query, now, latency) =>
      var result := Cached(cfg, lib, s.tables, s.cache, query).result;
      EngineState(s.tables, CacheAfter(cfg, lib, s.tables, s.cache, query, now),
                  Metrics.Recorded(s.counters, Metrics.Event(result, latency)))
    case Reload(files) =>
      s.(tables := if files.Some? then TablesAfterReload(lib, s.tables, files.value) else s.tables, cache := Cleared())
    case PeriodicClear => s.(cache := Cleared())
    case _ =>
      var tables := TablesAfterAdd(lib, s.tables, step);
      if tables == s.tables then s else s.(tables := tables, cache := Cleared())
  }

  function Run(cfg: Config, lib: RegexLib, start: Tables, steps: seq<Step>): (s: EngineState)
    ensures |s.cache.slots| == SLOTS
  {
    if steps == [] then EngineState(start, Cleared(), Metrics.ZERO)
    else Next(cfg, lib, Run(cfg, lib, start, steps[..|steps| - 1]), steps[|steps| - 1])
  }

  // ---- transparency ----

  predicate AnyStage(cfg: Config) {
    cfg.enableIntents || cfg.enableRegex || cfg.enableTokens || cfg.enableAlias || cfg.enableFuzzy
  }

  /** Once a stage runs, what the record held before does not matter. */
  lemma {:induction false} StartIrrelevant(cfg: Config, tries: seq<Try>, r1: MatchResult, r2: MatchResult)
    requires exists i :: 0 <= i < |tries| && tries[i].Ran?
    ensures RunTries(cfg, tries, r1) == RunTries(cfg, tries, r2)
  {
    if tries[0].Off? {
      var i :| 0 <= i < |tries| && tries[i].Ran?;
      assert tries[1..][i - 1] == tries[i];
      StartIrrelevant(cfg, tries[1..], r1, r2);
    }
  }

  predicate Fits(r: MatchResult) {
    |r.target| < MAX_TARGET_LEN && |r.action| < MAX_ACTION_LEN
  }

  lemma {:induction false} RunTriesFits(cfg: Config, tries: seq<Try>, r: MatchResult)
    requires Fits(r)
    requires forall i :: 0 <= i < |tries| && tries[i].Ran? && tries[i].hit.Some? ==> Fits(tries[i].hit.value)
    ensures Fits(RunTries(cfg, tries, r).result)
  {
    if tries != [] {
      var next := if tries[0].Off? then r else if tries[0].hit.Some? then tries[0].hit.value else NO_MATCH;
      RunTriesFits(cfg, tries[1..], next);
    }
  }

  lemma TryFits(cfg: Config, lib: RegexLib, t: Tables, query: string, i: nat)
    requires i < 5
    ensures var tr := Tries(cfg, lib, t, query)[i];
            tr.Ran? && tr.hit.Some? ==> Fits(tr.hit.value)
  {
  }

  lemma ReplyFits(cfg: Config, lib: RegexLib, t: Tables, query: string)
    ensures Fits(Reply(cfg, lib, t, query).result)
  {
    var tries := Tries(cfg, lib, t, query);
    forall i | 0 <= i < |tries| && tries[i].Ran? && tries[i].hit.Some?
      ensures Fits(tries[i].hit.value)
    {
      TryFits(cfg, lib, t, query, i);
    }
    RunTriesFits(cfg, tries, NO_MATCH);
  }

  lemma MissEqualsReply(cfg: Config, lib: RegexLib, t: Tables, query: string, r: MatchResult)
    requires AnyStage(cfg)
    ensures RunTries(cfg, Tries(cfg, lib, t, query), r) == Reply(cfg, lib, t, query)
  {
    var tries := Tries(cfg, lib, t, query);
    assert tries[0].Ran? || tries[1].Ran? || tries[2].Ran? || tries[3].Ran? || tries[4].Ran?;
    StartIrrelevant(cfg, tries, r, NO_MATCH);
  }

  /** Requests carry a non-empty query that fits its field. */
  ghost predicate ProperSteps(steps: seq<Step>) {
    forall i :: 0 <= i < |steps| && steps[i].Request? ==> Query(steps[i].query)
  }

  /** Every cached answer is what the pipeline accepts today. */
  ghost predicate Coherent(cfg: Config, lib: RegexLib, t: Tables, c: CacheState) {
    Valid(c) && AllCurrent(cfg, lib, t, Abstract(c.slots))
  }

  ghost predicate AllCurrent(cfg: Config, lib: RegexLib, t: Tables, m: map<string, Answer>) {
    forall q :: q in m ==> CurrentAnswer(cfg, lib, t, q, m[q])
  }

  lemma StillCurrent(cfg: Config, lib: RegexLib, t: Tables, m: map<string, Answer>, q: string, a: Answer,
                     victim: string)
    requires AllCurrent(cfg, lib, t, m) && CurrentAnswer(cfg, lib, t, q, a)
    ensures AllCurrent(cfg, lib, t, m[q := a]) && AllCurrent(cfg, lib, t, (m - {victim})[q := a])
  {
  }

  ghost predicate CurrentAnswer(cfg: Config, lib: RegexLib, t: Tables, q: string, a: Answer) {
    var out := Reply(cfg, lib, t, q);
    out.accepted && a == AnswerOf(out.result) && a.intent != UNKNOWN
  }

  lemma CachedIsReply(cfg: Config, lib: RegexLib, t: Tables, c: CacheState, query: string)
    requires AnyStage(cfg) && Coherent(cfg, lib, t, c) && Query(query)
    ensures AnswerOf(Cached(cfg, lib, t, c, query).result) == AnswerOf(Reply(cfg, lib, t, query).result)
    ensures Cached(cfg, lib, t, c, query).accepted ==> Cached(cfg, lib, t, c, query) == Reply(cfg, lib, t, query)
  {
    if cfg.enableCache {
      FoundIsMember(c.slots, query);
      ReplyFits(cfg, lib, t, query);
      MissEqualsReply(cfg, lib, t, query, CacheRecord(c, query));
      if Found(c.slots, query).Some? {
        assert CurrentAnswer(cfg, lib, t, query, Found(c.slots, query).value);
      }
    }
  }

  lemma StoreKeepsCoherent(cfg: Config, lib: RegexLib, t: Tables, c: CacheState, query: string, now: int)
    requires Coherent(cfg, lib, t, c) && Query(query) && Reply(cfg, lib, t, query).accepted
    ensures Coherent(cfg, lib, t, Stored(c, query, AnswerOf(Reply(cfg, lib, t, query).result), now))
  {
    var a := AnswerOf(Reply(cfg, lib, t, query).result);
    if a.intent != UNKNOWN {
      ReplyFits(cfg, lib, t, query);
      assert Trimmed(a) == a;
      StoreRefines(c, query, a, now);
      StillCurrent(cfg, lib, t, Abstract(c.slots), query, a, c.slots[Victim(c.slots, now)].query);
    }
  }

  lemma RequestKeepsCoherent(cfg: Config, lib: RegexLib, t: Tables, c: CacheState, query: string, now: int)
    requires AnyStage(cfg) && Coherent(cfg, lib, t, c) && Query(query)
    ensures Coherent(cfg, lib, t, CacheAfter(cfg, lib, t, c, query, now))
  {
    if cfg.enableCache {
      CachedIsReply(cfg, lib, t, c, query);
      LookupRefines(c, query, now);
      if Cached(cfg, lib, t, c, query).accepted {
        StoreKeepsCoherent(cfg, lib, t, Looked(c, query, now), query, now);
      }
    }
  }

  lemma {:induction false} EveryRunIsCoherent(cfg: Config, lib: RegexLib, start: Tables, steps: seq<Step>)
    requires AnyStage(cfg) && ProperSteps(steps)
    ensures Coherent(cfg, lib, Run(cfg, lib, start, steps).tables, Run(cfg, lib, start, steps).cache)
  {
    ClearedIsEmpty();
    if steps != [] {
      var before, step := Run(cfg, lib, start, steps[..|steps| - 1]), steps[|steps| - 1];
      EveryRunIsCoherent(cfg, lib, start, steps[..|steps| - 1]);
      if step.Request? {
        RequestKeepsCoherent(cfg, lib, before.tables, before.cache, step.query, step.now);
      }
    }
  }

  /** In this state the cached pipeline answers this query as the pipeline without a cache would. */
  ghost predicate Transparent(cfg: Config, lib: RegexLib, s: EngineState, query: string)
    requires |s.cache.slots| == SLOTS
  {
    var cached, plain := Cached(cfg, lib, s.tables, s.cache, query).result, Reply(cfg, lib, s.tables, query).result;
    Code(cached) == Code(plain) && AnswerOf(cached) == AnswerOf(plain)
  }

  /** The cache is transparent: after any run of requests, rule additions, reloads and clears, every
      query gets the code, intent, target and action of the pipeline on the current tables. */
  lemma EveryRunIsTransparent(cfg: Config, lib: RegexLib, start: Tables, steps: seq<Step>, query: string)
    requires AnyStage(cfg) || !cfg.enableCache
    requires Query(query) && ProperSteps(steps)
    ensures Transparent(cfg, lib, Run(cfg, lib, start, steps), query)
  {
    if cfg.enableCache {
      EveryRunIsCoherent(cfg, lib, start, steps);
      var s := Run(cfg, lib, start, steps);
      CachedIsReply(cfg, lib, s.tables, s.cache, query);
    }
  }

  /** With the cache as the only stage it is not: the first query of all is answered with intent 0. */
  lemma CacheAloneIsNotTransparent(cfg: Config, lib: RegexLib, start: Tables, query: string)
    requires cfg.enableCache && !AnyStage(cfg) && Query(query)
    ensures Cached(cfg, lib, start, Cleared(), query).result == ZERO_RESULT
    ensures Reply(cfg, lib, start, query).result == NO_MATCH
  {
    EmptyFindsNothing(query);
    var tries := Tries(cfg, lib, start, query);
    AllOff(cfg, tries, ZERO_RESULT);
    AllOff(cfg, tries, NO_MATCH);
  }

  lemma EmptyFindsNothing(query: string)
    requires Query(query)
    ensures Found(Cleared().slots, query).None?
  {
    ClearedIsEmpty();
    FoundIsMember(Cleared().slots, query);
  }

  lemma {:induction false} AllOff(cfg: Config, tries: seq<Try>, r: MatchResult)
    requires forall i :: 0 <= i < |tries| ==> tries[i].Off?
    ensures RunTries(cfg, tries, r) == Outcome(r, false)
  {
    if tries != [] {
      AllOff(cfg, tries[1..], r);
    }
  }

  lemma FirstQueryDiffers(cfg: Config, lib: RegexLib, start: Tables, query: string)
    requires cfg.enableCache && !AnyStage(cfg) && Query(query)
    ensures !Transparent(cfg, lib, Run(cfg, lib, start, []), query)
  {
    CacheAloneIsNotTransparent(cfg, lib, start, query);
  }

  /** After every run, every query is answered as without a cache. */
  ghost predicate AlwaysTransparent(cfg: Config, lib: RegexLib, start: Tables) {
    forall steps: seq<Step>, query: string :: ProperSteps(steps) && Query(query)
      ==> Transparent(cfg, lib, Run(cfg, lib, start, steps), query)
  }

  /** Exactly when some other stage is on, or the cache is off. */
  lemma TransparentExactly(cfg: Config, lib: RegexLib, start: Tables)
    ensures AlwaysTransparent(cfg, lib, start) <==> AnyStage(cfg) || !cfg.enableCache
  {
    if AnyStage(cfg) || !cfg.enableCache {
      forall steps: seq<Step>, query: string | ProperSteps(steps) && Query(query)
        ensures Transparent(cfg, lib, Run(cfg, lib, start, steps), query)
      {
        EveryRunIsTransparent(cfg, lib, start, steps, query);
      }
    } else {
      assert Query("x") && ProperSteps([]);
      FirstQueryDiffers(cfg, lib, start, "x");
    }
  }

  // ---- what the cache answers, and what it remembers ----

  /** With the cache on, a query the map holds is answered from it if the floor lets confidence 1 pass, and every
      other as without a cache. */
  lemma CacheAnswersExactly(cfg: Config, lib: RegexLib, t: Tables, c: CacheState, query: string)
    requires cfg.enableCache && AnyStage(cfg) && Valid(c) && Query(query)
    ensures Cached(cfg, lib, t, c, query) ==
              if query in Abstract(c.slots) && cfg.cacheFloor <= 1.0
              then var a := Abstract(c.slots)[query];
                   Outcome(MatchResult(a.intent, Cut(a.target, 255), Cut(a.action, 127), 1.0, CacheHit, ""), false)
              else Reply(cfg, lib, t, query)
  {
    FoundIsMember(c.slots, query);
    MissEqualsReply(cfg, lib, t, query, CacheRecord(c, query));
  }

  /** After a request the cache holds its query exactly when the pipeline accepts an answer with an intent to it. */
  lemma RememberedExactly(cfg: Config, lib: RegexLib, t: Tables, c: CacheState, query: string, now: int)
    requires cfg.enableCache && AnyStage(cfg) && Coherent(cfg, lib, t, c) && Query(query)
    ensures query in Abstract(CacheAfter(cfg, lib, t, c, query, now).slots) <==>
              Reply(cfg, lib, t, query).accepted && Reply(cfg, lib, t, query).result.intent != UNKNOWN
  {
    var out, looked := Cached(cfg, lib, t, c, query), Looked(c, query, now);
    CacheAnswersExactly(cfg, lib, t, c, query);
    LookupRefines(c, query, now);
    if query in Abstract(c.slots) {
      assert CurrentAnswer(cfg, lib, t, query, Abstract(c.slots)[query]);
    }
    if out.accepted {
      StoreRefines(looked, query, AnswerOf(out.result), now);
    }
  }

  /** So after every run, a request that is accepted with an intent is answered from the cache when it is asked again.
      */
  lemma AskedAgainIsHit(cfg: Config, lib: RegexLib, start: Tables, steps: seq<Step>, query: string, now: int,
                        latency: real)
    requires cfg.enableCache && AnyStage(cfg) && cfg.cacheFloor <= 1.0 && ProperSteps(steps) && Query(query)
    requires var r := Reply(cfg, lib, Run(cfg, lib, start, steps).tables, query);
             r.accepted && r.result.intent != UNKNOWN
    ensures var s := Run(cfg, lib, start, steps);
            var r, again := Reply(cfg, lib, s.tables, query).result, Next(cfg, lib, s, Request(query, now, latency));
            Cached(cfg, lib, again.tables, again.cache, query).result
              == MatchResult(r.intent, r.target, r.action, 1.0, CacheHit, "")
  {
    var s := Run(cfg, lib, start, steps);
    EveryRunIsCoherent(cfg, lib, start, steps);
    RememberedExactly(cfg, lib, s.tables, s.cache, query, now);
    RequestKeepsCoherent(cfg, lib, s.tables, s.cache, query, now);
    HitIsReply(cfg, lib, s.tables, CacheAfter(cfg, lib, s.tables, s.cache, query, now), query);
  }

  lemma HitIsReply(cfg: Config, lib: RegexLib, t: Tables, c: CacheState, query: string)
    requires cfg.enableCache && AnyStage(cfg) && cfg.cacheFloor <= 1.0 && Coherent(cfg, lib, t, c) && Query(query)
    requires query in Abstract(c.slots)
    ensures var r := Reply(cfg, lib, t, query).result;
            Cached(cfg, lib, t, c, query).result == MatchResult(r.intent, r.target, r.action, 1.0, CacheHit, "")
  {
    CacheAnswersExactly(cfg, lib, t, c, query);
    ReplyFits(cfg, lib, t, query);
    assert CurrentAnswer(cfg, lib, t, query, Abstract(c.slots)[query]);
  }

  // ---- conservation of the counters over the same runs ----

  ghost predicate Conserves(c: Metrics.Counters) {
    c.total == c.unknown + Metrics.HitsOf(c)
  }

  lemma NextConserves(cfg: Config, lib: RegexLib, s: EngineState, step: Step)
    requires |s.cache.slots| == SLOTS && Conserves(s.counters)
    ensures Conserves(Next(cfg, lib, s, step).counters)
  {
    if step.Request? {
      Metrics.RecordedCounts(s.counters, Metrics.Event(Cached(cfg, lib, s.tables, s.cache, step.query).result,
                                                       step.latency));
    }
  }

  lemma {:induction false} EveryRunConserves(cfg: Config, lib: RegexLib, start: Tables, steps: seq<Step>)
    ensures Conserves(Run(cfg, lib, start, steps).counters)
  {
    if steps != [] {
      EveryRunConserves(cfg, lib, start, steps[..|steps| - 1]);
      NextConserves(cfg, lib, Run(cfg, lib, start, steps[..|steps| - 1]), steps[|steps| - 1]);
    }
  }
}
