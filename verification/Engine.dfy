/** The rule engine process: its module tables, its cache and the handlers that update them
    (components/rule-engine/main.c). */
module Engine {
  import opened CStrings
  import opened RuleTables
  import opened Stages
  import opened Matcher
  import opened Fuzzy
  import opened Cache
  import opened Pipeline
  import opened Metrics
  import opened Requests
  import opened Folds

  class RuleEngine {
    const cfg: Config
    const cache: QueryCache
    const regex: RegexTable
    const tokens: RuleTables.Table<TokenRule>
    const intents: RuleTables.Table<IntentRule>
    const aliases: RuleTables.Table<AliasRule>
    const fuzzy: RuleTables.Table<IntentRule>
    const metrics: MetricsStore

    ghost predicate Valid()
      reads cache, regex, tokens, intents, aliases, fuzzy
    {
      && cache.Shaped() && regex.Valid()
      && tokens.Valid() && tokens.rows.Length == MAX_TOKENS
      && intents.Valid() && intents.rows.Length == MAX_INTENT_ENTRIES
      && aliases.Valid() && aliases.rows.Length == MAX_ALIASES
      && fuzzy.Valid() && fuzzy != intents && fuzzy.rows != intents.rows
    }

    ghost function TablesNow(): Tables
      requires Valid()
      reads cache, regex, regex.rows, tokens, tokens.rows, intents, intents.rows, aliases, aliases.rows, fuzzy,
      fuzzy.rows
    {
      Tables(intents.Contents(), Rules(regex.State().slots), tokens.Contents(), aliases.Contents(), fuzzy.Contents())
    }

    ghost function State(): EngineState
      requires Valid()
      reads cache, cache.slots, regex, regex.rows, tokens, tokens.rows, intents, intents.rows, aliases, aliases.rows
      reads fuzzy, fuzzy.rows, metrics
    {
      EngineState(TablesNow(), cache.State(), metrics.c)
    }

    /** The modules' init functions, with nothing loaded yet. */
    constructor (cfg: Config, lib: RegexLib)
      ensures Valid() && regex.lib == lib && this.cfg == cfg
      ensures State() == Pipeline.Run(cfg, lib, Tables([], [], [], [], []), [])
    {
      this.cfg := cfg;
      cache := new QueryCache();
      regex := new RegexTable(lib);
      tokens := new RuleTables.Table<TokenRule>(MAX_TOKENS);
      intents := new RuleTables.Table<IntentRule>(MAX_INTENT_ENTRIES);
      aliases := new RuleTables.Table<AliasRule>(MAX_ALIASES);
      fuzzy := new RuleTables.Table<IntentRule>(MAX_INTENT_ENTRIES);
      metrics := new MetricsStore();
    }

    ghost function TriesNow(query: string): (tries: seq<Try>)
      requires Valid()
      reads cache, regex, regex.rows, tokens, tokens.rows, intents, intents.rows, aliases, aliases.rows, fuzzy,
      fuzzy.rows
      ensures |tries| == 5
    {
      Tries(cfg, regex.lib, TablesNow(), query)
    }

    method TryIntents(query: string, before: MatchResult) returns (ends: bool, result: MatchResult)
      requires Valid()
      ensures result == Over(TriesNow(query)[0], before) && (ends <==> Ends(cfg, TriesNow(query)[0]))
    {
      ends, result := false, before;
      if cfg.enableIntents {
        ends, result := IntentLookup(intents, query);
        ends := ends && ConfidenceOk(cfg, result);
      }
    }

    method TryRegex(query: string, before: MatchResult) returns (ends: bool, result: MatchResult)
      requires Valid()
      ensures result == Over(TriesNow(query)[1], before) && (ends <==> Ends(cfg, TriesNow(query)[1]))
    {
      ends, result := false, before;
      if cfg.enableRegex {
        ends, result := regex.Match(query);
        ends := ends && ConfidenceOk(cfg, result);
      }
    }

    method TryTokens(query: string, before: MatchResult) returns (ends: bool, result: MatchResult)
      requires Valid()
      ensures result == Over(TriesNow(query)[2], before) && (ends <==> Ends(cfg, TriesNow(query)[2]))
    {
      ends, result := false, before;
      if cfg.enableTokens {
        ends, result := TokensLookup(tokens, query);
        ends := ends && ConfidenceOk(cfg, result);
      }
    }

    method TryAlias(query: string, before: MatchResult) returns (ends: bool, result: MatchResult)
      requires Valid()
      ensures result == Over(TriesNow(query)[3], before) && (ends <==> Ends(cfg, TriesNow(query)[3]))
    {
      ends, result := false, before;
      if cfg.enableAlias {
        ends, result := AliasResolve(aliases, query);
        ends := ends && ConfidenceOk(cfg, result);
      }
    }

    method TryFuzzy(query: string, before: MatchResult) returns (ends: bool, result: MatchResult)
      requires Valid()
      ensures result == Over(TriesNow(query)[4], before) && (ends <==> Ends(cfg, TriesNow(query)[4]))
    {
      FuzzyTry(cfg, regex.lib, TablesNow(), query);
      ends, result := false, before;
      if cfg.enableFuzzy {
        ends, result := FuzzyMatch(fuzzy, query, cfg.fuzzyThreshold);
      }
    }

    /** The stages in the order of the source; each ends the pipeline if its result passes. */
    method RunStages(query: string, start: MatchResult) returns (out: Outcome)
      requires Valid()
      ensures out == RunTries(cfg, TriesNow(query), start)
    {
      Unrolled(cfg, TriesNow(query), start);
      var ends, result := TryIntents(query, start);
      if ends { return Outcome(result, true); }
      ends, result := TryRegex(query, result);
      if ends { return Outcome(result, true); }
      ends, result := TryTokens(query, result);
      if ends { return Outcome(result, true); }
      ends, result := TryAlias(query, result);
      if ends { return Outcome(result, true); }
      ends, result := TryFuzzy(query, result);
      return Outcome(result, ends);
    }

    method Answer(query: string, now: int) returns (result: MatchResult)
      requires Valid() && query != ""
      modifies cache, cache.slots
      ensures Valid() && TablesNow() == old(TablesNow())
      ensures result == Cached(cfg, regex.lib, TablesNow(), old(cache.State()), query).result
      ensures cache.State() == CacheAfter(cfg, regex.lib, TablesNow(), old(cache.State()), query, now)
    {
      var found := false;
      result := NO_MATCH;
      if cfg.enableCache {
        found, result := cache.Lookup(query, now);
        if found && ConfidenceOk(cfg, result) { return; }
      }
      var out := RunStages(query, result);
      result := out.result;
      if out.accepted && cfg.enableCache {
        cache.Store(query, AnswerOf(result), now);
      }
    }

    method RunPipeline(query: string, now: int, latency: real) returns (code: int, result: MatchResult)
      requires Valid() && query != ""
      modifies cache, cache.slots, metrics
      ensures Valid()
      ensures result == Cached(cfg, regex.lib, old(TablesNow()), old(cache.State()), query).result
      ensures code == Code(result) == if result.intent == 30 then -1 else 0
      ensures State() == Next(cfg, regex.lib, old(State()), Request(query, now, latency))
    {
      result := Answer(query, now);
      metrics.RecordRun(result, latency);
      code := if result.intent == UNKNOWN then -1 else 0;
    }

    /** The parts of a request are answered in turn, each in the state the one before left. */
    method HandleRequest(query: string, clock: int -> int, latency: int -> real)
      returns (results: seq<MatchResult>, found: nat)
      requires Valid() && Query(query)
      modifies cache, cache.slots, metrics
      ensures Valid()
      ensures State() == Fold(Stepper(cfg, regex.lib), old(State()), StepsOf(Asked(query), clock, latency))
      ensures results == Outputs(Stepper(cfg, regex.lib), Answerer(cfg, regex.lib), old(State()),
                                 StepsOf(Asked(query), clock, latency))
      ensures found == Successes(results)
    {
      var parts := SplitQuery(Separators(), query);
      if |parts| < 2 {
        parts := [query];
      }
      assert parts == Asked(query);
      results, found := AnswerParts(parts, clock, latency);
    }

    method AnswerParts(parts: seq<string>, clock: int -> int, latency: int -> real)
      returns (results: seq<MatchResult>, found: nat)
      requires Valid() && forall i :: 0 <= i < |parts| ==> Query(parts[i])
      modifies cache, cache.slots, metrics
      ensures Valid()
      ensures State() == Fold(Stepper(cfg, regex.lib), old(State()), StepsOf(parts, clock, latency))
      ensures results == Outputs(Stepper(cfg, regex.lib), Answerer(cfg, regex.lib), old(State()),
                                 StepsOf(parts, clock, latency))
      ensures found == Successes(results)
    {
      ghost var all, s := StepsOf(parts, clock, latency), State();
      ghost var next, out := Stepper(cfg, regex.lib), Answerer(cfg, regex.lib);
      results, found := [], 0;
      for i := 0 to |parts|
        invariant Valid() && State() == Fold(next, s, all[..i])
        invariant results == Outputs(next, out, s, all[..i]) && found == Successes(results)
      {
        OneMore(next, out, s, all, i);
        var code, result := AnswerPart(parts[i], clock(i), latency(i));
        SuccessesPush(results, result);
        results := results + [result];
        if code == 0 {
          found := found + 1;
        }
      }
      assert all[..|parts|] == all;
    }

    method AnswerPart(query: string, now: int, latency: real) returns (code: int, result: MatchResult)
      requires Valid() && Query(query)
      modifies cache, cache.slots, metrics
      ensures Valid() && code == Code(result)
      ensures State() == Stepper(cfg, regex.lib)(old(State()), Request(query, now, latency))
      ensures result == Answerer(cfg, regex.lib)(old(State()), Request(query, now, latency))
    {
      code, result := RunPipeline(query, now, latency);
    }

    /** A runtime rule: refused for an unknown intent, a full table or a pattern that does not compile;
        otherwise the cache is cleared. */
    method HandleAddRule(step: Step) returns (added: bool)
      requires Valid() && (step.AddRegex? || step.AddToken? || step.AddIntent? || step.AddAlias?)
      modifies cache, cache.slots, regex, regex.rows, tokens, tokens.rows, intents, intents.rows, aliases, aliases.rows
      ensures Valid() && State() == Next(cfg, regex.lib, old(State()), step)
      ensures added <==> TablesNow() != old(TablesNow())
      ensures regex.State() == Fold(OpStep(regex.lib), old(regex.State()), RegexOps(step))
    {
      added := AddToTables(step);
      if added {
        cache.Clear();
      }
    }

    method AddToTables(step: Step) returns (added: bool)
      requires Valid() && (step.AddRegex? || step.AddToken? || step.AddIntent? || step.AddAlias?)
      modifies regex, regex.rows, tokens, tokens.rows, intents, intents.rows, aliases, aliases.rows
      ensures Valid() && TablesNow() == TablesAfterAdd(regex.lib, old(TablesNow()), step)
      ensures added <==> TablesNow() != old(TablesNow())
      ensures regex.State() == Fold(OpStep(regex.lib), old(regex.State()), RegexOps(step))
    {
      added := false;
      match step {
        case AddRegex(pattern, intent, priority) =>
          if intent != UNKNOWN {
            added := AddRegexRule(pattern, intent, priority);
          }
        case AddToken(token, intent, weight) =>
          if intent != UNKNOWN {
            added := tokens.Add(TokenRule(Cut(token, MAX_TOKEN_LEN - 1), intent, weight), Runtime);
          }
        case AddIntent(query, intent, target, action) =>
          if intent != UNKNOWN {
            added := IntentAdd(intents, query, intent, target, action, Runtime);
          }
        case AddAlias(name, canonical) =>
          added := aliases.Add(AliasRule(Cut(name, MAX_TOKEN_LEN - 1), Cut(canonical, MAX_TOKEN_LEN - 1)), Runtime);
      }
    }

    method AddRegexRule(pattern: string, intent: Intent, priority: int) returns (added: bool)
      requires regex.Valid()
      modifies regex, regex.rows
      ensures regex.Valid()
      ensures var rules := old(Rules(regex.State().slots));
              Rules(regex.State().slots) == if regex.lib.compiles(pattern)
                                            then Append(rules, Rule(Compiled(pattern, intent, priority), Runtime),
                                                        MAX_REGEX_RULES)
                                            else rules
      ensures added <==> Rules(regex.State().slots) != old(Rules(regex.State().slots))
      ensures regex.State() == Added(old(regex.State()), regex.lib, pattern, intent, priority, Runtime)
    {
      ghost var before := regex.State();
      added := regex.AddRule(pattern, intent, priority, Runtime);
      assert added ==> |Rules(regex.State().slots)| == |Rules(before.slots)| + 1;
    }

    /** A reload: the cache first, then each table cleared of its file rules, then each file loaded. */
    method DoReload(files: Option<RuleFiles>)
      requires Valid() && (files.Some? ==> AsParsed(files.value.regex))
      modifies cache, cache.slots, regex, regex.rows, tokens, tokens.rows, intents, intents.rows, aliases, aliases.rows
      ensures Valid() && State() == Next(cfg, regex.lib, old(State()), Reload(files))
      ensures regex.State() == Fold(OpStep(regex.lib), old(regex.State()), RegexOps(Reload(files)))
    {
      cache.Clear();
      if files.Some? {
        ClearThenLoad(regex.lib, regex.State(), files.value.regex);
        ClearedWithFiles(regex.lib, TablesNow(), files.value);
        LoadAll(files.value);
      }
    }

    method LoadAll(files: RuleFiles)
      requires Valid() && AsParsed(files.regex)
      modifies regex, regex.rows, tokens, tokens.rows, intents, intents.rows, aliases, aliases.rows
      ensures Valid() && TablesNow() == WithFiles(regex.lib, FilesCleared(old(TablesNow())), files)
      ensures regex.State() == Fold(OpStep(regex.lib), ClearedOf(old(regex.State()), File), FileOps(files.regex))
    {
      ClearFileRules();
      AppendFiles(files);
    }

    method AppendFiles(files: RuleFiles)
      requires Valid() && AsParsed(files.regex)
      modifies regex, regex.rows, tokens, tokens.rows, intents, intents.rows, aliases, aliases.rows
      ensures Valid() && TablesNow() == WithFiles(regex.lib, old(TablesNow()), files)
      ensures regex.State() == Fold(OpStep(regex.lib), old(regex.State()), FileOps(files.regex))
    {
      var n := regex.Load(files.regex);
      n := tokens.Load(files.tokens);
      n := intents.Load(files.intents);
      n := aliases.Load(files.aliases);
    }

    method ClearFileRules()
      requires Valid()
      modifies regex, regex.rows, tokens, tokens.rows, intents, intents.rows, aliases, aliases.rows
      ensures Valid()
      ensures TablesNow() == FilesCleared(old(TablesNow()))
      ensures regex.State() == ClearedOf(old(regex.State()), File)
    {
      ClearFileRegex();
      tokens.ClearRules(File);
      intents.ClearRules(File);
      aliases.ClearRules(File);
    }

    method ClearFileRegex()
      requires Valid()
      modifies regex, regex.rows
      ensures Valid() && TablesNow() == old(TablesNow()).(regex := Filter(old(TablesNow()).regex, Survives(File)))
      ensures regex.State() == ClearedOf(old(regex.State()), File)
    {
      RulesOfKept(regex.State().slots, File);
      regex.ClearRules(File);
    }

    method ClearPeriodically()
      requires Valid()
      modifies cache, cache.slots
      ensures Valid() && State() == Next(cfg, regex.lib, old(State()), PeriodicClear)
    {
      cache.Clear();
    }
  }

  /** The step function of the engine; engine states always have 256 cache slots. */
  function Stepper(cfg: Config, lib: RegexLib): (EngineState, Step) -> EngineState {
    (s: EngineState, step: Step) => if |s.cache.slots| == SLOTS then Next(cfg, lib, s, step) else s
  }

  /** What a request is answered in a state. */
  function Answerer(cfg: Config, lib: RegexLib): (EngineState, Step) -> MatchResult {
    (s: EngineState, step: Step) =>
      if |s.cache.slots| == SLOTS && step.Request?
      then Cached(cfg, lib, s.tables, s.cache, step.query).result else ZERO_RESULT
  }

  lemma {:induction false} RunIsFold(cfg: Config, lib: RegexLib, start: Tables, steps: seq<Step>)
    ensures Pipeline.Run(cfg, lib, start, steps) == Fold(Stepper(cfg, lib), Pipeline.Run(cfg, lib, start, []), steps)
  {
    if steps != [] {
      RunIsFold(cfg, lib, start, steps[..|steps| - 1]);
    }
  }

  lemma FoldFromRun(cfg: Config, lib: RegexLib, start: Tables, steps: seq<Step>, more: seq<Step>)
    ensures Fold(Stepper(cfg, lib), Pipeline.Run(cfg, lib, start, steps), more)
              == Pipeline.Run(cfg, lib, start, steps + more)
  {
    RunIsFold(cfg, lib, start, steps);
    RunIsFold(cfg, lib, start, steps + more);
    FoldConcat(Stepper(cfg, lib), Pipeline.Run(cfg, lib, start, []), steps, more);
  }

  lemma RequestsKeepTables(cfg: Config, lib: RegexLib, s: EngineState, more: seq<Step>)
    requires |s.cache.slots| == SLOTS && forall i :: 0 <= i < |more| ==> more[i].Request?
    ensures Fold(Stepper(cfg, lib), s, more).tables == s.tables
  {
    FoldKeeps(Stepper(cfg, lib), s, more, (t: EngineState) => t.tables == s.tables, (e: Step) => e.Request?);
  }

  /** The answer agrees with the pipeline without a cache. */
  ghost predicate IsPlain(cfg: Config, lib: RegexLib, t: Tables, query: string, result: MatchResult) {
    var plain := Reply(cfg, lib, t, query).result;
    Code(result) == Code(plain) && AnswerOf(result) == AnswerOf(plain)
  }

  /** In every reachable state, unless the cache is the only stage, every part of every request is answered as the
      pipeline without a cache answers it on the current tables. */
  lemma EveryPartIsPlain(cfg: Config, lib: RegexLib, start: Tables, steps: seq<Step>,
                         query: string, clock: int -> int, latency: int -> real, i: nat)
    requires AnyStage(cfg) || !cfg.enableCache
    requires ProperSteps(steps) && Query(query) && i < |Asked(query)|
    ensures var s := Pipeline.Run(cfg, lib, start, steps);
            var replies := Outputs(Stepper(cfg, lib), Answerer(cfg, lib), s, StepsOf(Asked(query), clock, latency));
            IsPlain(cfg, lib, s.tables, Asked(query)[i], replies[i])
  {
    var all := StepsOf(Asked(query), clock, latency);
    TablesStay(cfg, lib, start, steps, all[..i]);
    PlainReplyAt(cfg, lib, start, steps, all, i, Pipeline.Run(cfg, lib, start, steps).tables);
  }

  lemma PlainReplyAt(cfg: Config, lib: RegexLib, start: Tables, steps: seq<Step>, all: seq<Step>, i: nat, t: Tables)
    requires AnyStage(cfg) || !cfg.enableCache
    requires i < |all| && ProperSteps(steps) && ProperSteps(all) && all[i].Request?
    requires t == Pipeline.Run(cfg, lib, start, steps + all[..i]).tables
    ensures IsPlain(cfg, lib, t, all[i].query,
                    Outputs(Stepper(cfg, lib), Answerer(cfg, lib), Pipeline.Run(cfg, lib, start, steps), all)[i])
  {
    ReplyAt(cfg, lib, start, steps, all, i);
    ProperConcat(steps, all[..i]);
    PlainAfter(cfg, lib, start, steps + all[..i], all[i], t,
               Outputs(Stepper(cfg, lib), Answerer(cfg, lib), Pipeline.Run(cfg, lib, start, steps), all)[i]);
  }

  lemma ProperConcat(a: seq<Step>, b: seq<Step>)
    requires ProperSteps(a) && ProperSteps(b)
    ensures ProperSteps(a + b)
  {
  }

  lemma ReplyAt(cfg: Config, lib: RegexLib, start: Tables, steps: seq<Step>, all: seq<Step>, i: nat)
    requires i < |all|
    ensures Outputs(Stepper(cfg, lib), Answerer(cfg, lib), Pipeline.Run(cfg, lib, start, steps), all)[i]
         == Answerer(cfg, lib)(Pipeline.Run(cfg, lib, start, steps + all[..i]), all[i])
  {
    OutputAt(Stepper(cfg, lib), Answerer(cfg, lib), Pipeline.Run(cfg, lib, start, steps), all, i);
    FoldFromRun(cfg, lib, start, steps, all[..i]);
  }

  lemma TablesStay(cfg: Config, lib: RegexLib, start: Tables, steps: seq<Step>, more: seq<Step>)
    requires forall i :: 0 <= i < |more| ==> more[i].Request?
    ensures Pipeline.Run(cfg, lib, start, steps + more).tables == Pipeline.Run(cfg, lib, start, steps).tables
  {
    RequestsKeepTables(cfg, lib, Pipeline.Run(cfg, lib, start, steps), more);
    FoldFromRun(cfg, lib, start, steps, more);
  }

  lemma PlainAfter(cfg: Config, lib: RegexLib, start: Tables, done: seq<Step>, step: Step, t: Tables,
                   reply: MatchResult)
    requires AnyStage(cfg) || !cfg.enableCache
    requires ProperSteps(done) && step.Request? && Query(step.query)
    requires var s := Pipeline.Run(cfg, lib, start, done); t == s.tables && reply == Answerer(cfg, lib)(s, step)
    ensures IsPlain(cfg, lib, t, step.query, reply)
  {
    EveryRunIsTransparent(cfg, lib, start, done, step.query);
  }

  /** How many results have return code 0. */
  function Successes(results: seq<MatchResult>): (n: nat)
    ensures n <= |results|
  {
    if results == [] then 0
    else Successes(results[..|results| - 1]) + if Code(results[|results| - 1]) == 0 then 1 else 0
  }

  /** That is the number of those that found an intent. */
  lemma {:induction false} SuccessesAre(results: seq<MatchResult>)
    ensures Successes(results) == |Filter(results, (r: MatchResult) => r.intent != 30)|
  {
    if results != [] {
      SuccessesAre(results[..|results| - 1]);
    }
  }

  lemma SuccessesPush(results: seq<MatchResult>, r: MatchResult)
    ensures Successes(results + [r]) == Successes(results) + if Code(r) == 0 then 1 else 0
  {
    assert (results + [r])[..|results|] == results;
  }

  /** What a step does to the regex table. */
  function RegexOps(step: Step): seq<Matcher.Op> {
    match step
    case AddRegex(pattern, intent, priority) =>
      if intent == UNKNOWN then [] else [Matcher.AddOp(pattern, intent, priority, Runtime)]
    case Reload(files) => if files.None? then [] else [Matcher.ClearOp(File)] + FileOps(files.value.regex)
    case _ => []
  }

  lemma FoldOne(lib: RegexLib, s: MatcherState, op: Matcher.Op)
    ensures Fold(OpStep(lib), s, [op]) == Matcher.Step(lib, s, op)
  {
    assert [op][..0] == [];
  }

  lemma ClearThenLoad(lib: RegexLib, s: MatcherState, file: seq<RegexRule>)
    ensures Fold(OpStep(lib), s, [Matcher.ClearOp(File)] + FileOps(file))
              == Fold(OpStep(lib), ClearedOf(s, File), FileOps(file))
  {
    FoldOne(lib, s, Matcher.ClearOp(File));
    FoldConcat(OpStep(lib), s, [Matcher.ClearOp(File)], FileOps(file));
  }

  /** What a run does to the regex table, step after step. */
  function AllRegexOps(steps: seq<Step>): seq<Matcher.Op> {
    if steps == [] then [] else AllRegexOps(steps[..|steps| - 1]) + RegexOps(steps[|steps| - 1])
  }

  /** A rule added at run time has a pattern: it was split off by strtok. */
  ghost predicate PatternsGiven(steps: seq<Step>) {
    forall i :: 0 <= i < |steps| && steps[i].AddRegex? ==> steps[i].pattern != ""
  }

  lemma {:induction false} OpsAreByTheEngine(steps: seq<Step>)
    requires PatternsGiven(steps)
    ensures forall op :: op in AllRegexOps(steps) ==> ByTheEngine(op)
  {
    if steps != [] {
      OpsAreByTheEngine(steps[..|steps| - 1]);
      assert forall op :: op in RegexOps(steps[|steps| - 1]) ==> ByTheEngine(op);
    }
  }

  lemma ReloadedRules(lib: RegexLib, m: MatcherState, file: seq<RegexRule>)
    requires AsParsed(file)
    ensures Rules(Fold(OpStep(lib), m, [Matcher.ClearOp(File)] + FileOps(file)).slots)
         == ReloadedRegex(Rules(m.slots), file, lib)
  {
    ClearThenLoad(lib, m, file);
    RulesOfKept(m.slots, File);
    LoadedRules(lib, ClearedOf(m, File), file, |file|);
    assert FileOps(file)[..|file|] == FileOps(file) && file[..|file|] == file;
  }

  lemma AddedRules(lib: RegexLib, m: MatcherState, pattern: string, intent: Intent, priority: int)
    ensures Rules(Fold(OpStep(lib), m, [Matcher.AddOp(pattern, intent, priority, Runtime)]).slots)
         == if lib.compiles(pattern) then Append(Rules(m.slots), Rule(Compiled(pattern, intent, priority), Runtime),
                                                 MAX_REGEX_RULES)
            else Rules(m.slots)
  {
    FoldOne(lib, m, Matcher.AddOp(pattern, intent, priority, Runtime));
  }

  ghost predicate FilesParsed(steps: seq<Step>) {
    forall i :: 0 <= i < |steps| && steps[i].Reload? && steps[i].files.Some? ==> AsParsed(steps[i].files.value.regex)
  }

  lemma StepRules(cfg: Config, lib: RegexLib, m: MatcherState, s: EngineState, step: Step)
    requires |s.cache.slots| == SLOTS && Rules(m.slots) == s.tables.regex && FilesParsed([step])
    ensures Rules(Fold(OpStep(lib), m, RegexOps(step)).slots) == Next(cfg, lib, s, step).tables.regex
  {
    match step {
      case AddRegex(pattern, intent, priority) => AddedRules(lib, m, pattern, intent, priority);
      case Reload(files) =>
        assert [step][0] == step;
        if files.Some? {
          ReloadedRules(lib, m, files.value.regex);
        }
      case _ =>
    }
  }

  /** The regexes of the engine's state machine are those of the slots that own the compiled ones: both go through the
      same run. */
  lemma {:induction false} RegexesAreOwned(cfg: Config, lib: RegexLib, start: Tables, steps: seq<Step>)
    requires start.regex == [] && FilesParsed(steps)
    ensures Rules(Fold(OpStep(lib), MatcherState([], 0, []), AllRegexOps(steps)).slots)
         == Pipeline.Run(cfg, lib, start, steps).tables.regex
  {
    if steps != [] {
      var front, last := steps[..|steps| - 1], steps[|steps| - 1];
      RegexesAreOwned(cfg, lib, start, front);
      FoldConcat(OpStep(lib), MatcherState([], 0, []), AllRegexOps(front), RegexOps(last));
      StepRules(cfg, lib, Fold(OpStep(lib), MatcherState([], 0, []), AllRegexOps(front)),
                Pipeline.Run(cfg, lib, start, front), last);
    }
  }

  /** Over every run of the engine each compiled regex is held by one slot or was freed once, and shutting down leaves
      each freed exactly once. */
  lemma EveryRunFreesOnce(lib: RegexLib, steps: seq<Step>)
    requires PatternsGiven(steps)
    ensures var s := Fold(OpStep(lib), MatcherState([], 0, []), AllRegexOps(steps));
            Sound(s) && NoLeak(s) && forall h: nat :: h < s.issued ==> multiset(CleanedUp(s).freed)[h] == 1
  {
    OpsAreByTheEngine(steps);
    Matcher.RunIsFold(lib, AllRegexOps(steps));
    Matcher.EveryRunOwnsItsRegexes(lib, AllRegexOps(steps));
    EngineRunsNeverLeak(lib, AllRegexOps(steps));
  }

  function FilesCleared(t: Tables): Tables {
    Tables(Without(t.intents, File), Filter(t.regex, Survives(File)), Without(t.tokens, File),
           Without(t.aliases, File), t.fuzzy)
  }

  lemma ClearedWithFiles(lib: RegexLib, t: Tables, files: RuleFiles)
    ensures WithFiles(lib, FilesCleared(t), files) == TablesAfterReload(lib, t, files)
  {
  }

  /** The files' rules behind those of the tables, up to capacity. */
  function WithFiles(lib: RegexLib, t: Tables, files: RuleFiles): Tables {
    t.(regex := AppendAll(t.regex, FromFile(Accepted(files.regex, lib)), MAX_REGEX_RULES),
       tokens := AppendAll(t.tokens, FromFile(files.tokens), MAX_TOKENS),
       intents := AppendAll(t.intents, FromFile(files.intents), MAX_INTENT_ENTRIES),
       aliases := AppendAll(t.aliases, FromFile(files.aliases), MAX_ALIASES))
  }

  lemma FuzzyTry(cfg: Config, lib: RegexLib, t: Tables, query: string)
    ensures Tries(cfg, lib, t, query)[4] == TryOf(cfg.enableFuzzy, FuzzyStage(t.fuzzy, query, cfg.fuzzyThreshold))
    ensures Tries(cfg, lib, t, query)[4].Ran? && Tries(cfg, lib, t, query)[4].hit.Some? ==>
              ConfidenceOk(cfg, Tries(cfg, lib, t, query)[4].hit.value)
  {
  }
}
