/** What the steps of a run do to the rule tables and counters of the engine
    (components/rule-engine/main.c, components/rule-engine/rules/rules.c). */
module RuleRuns {
  import opened CStrings
  import opened RuleTables
  import opened Matcher
  import opened Cache
  import opened Pipeline
  import Metrics

  // ---- one step ----

  /** This rule was appended, and the cache cleared with it; everything else stays. */
  ghost predicate OnlyTablesChanged(s: EngineState, after: EngineState, t: Tables) {
    after.tables == t && after.counters == s.counters && after.cache == Cleared()
  }

  /** A token added at run time goes to the end of its table, marked as such; one with an unknown intent, or to a full
      table, changes nothing, not even the cache. */
  lemma TokenAdded(cfg: Config, lib: RegexLib, s: EngineState, token: string, intent: Intent, weight: int)
    requires |s.cache.slots| == SLOTS
    ensures var after := Next(cfg, lib, s, AddToken(token, intent, weight));
            var rule := Rule(TokenRule(Cut(token, 127), intent, weight), Runtime);
            if intent == 30 || |s.tables.tokens| >= 1024 then after == s
            else OnlyTablesChanged(s, after, s.tables.(tokens := s.tables.tokens + [rule]))
  {
  }

  lemma RegexAdded(cfg: Config, lib: RegexLib, s: EngineState, pattern: string, intent: Intent, priority: int)
    requires |s.cache.slots| == SLOTS
    ensures var after := Next(cfg, lib, s, AddRegex(pattern, intent, priority));
            var rule := Rule(RegexRule(pattern, Cut(pattern, 127), intent, priority), Runtime);
            if intent == 30 || |s.tables.regex| >= 1024 || !lib.compiles(pattern) then after == s
            else OnlyTablesChanged(s, after, s.tables.(regex := s.tables.regex + [rule]))
  {
  }

  lemma IntentAdded(cfg: Config, lib: RegexLib, s: EngineState, query: string, intent: Intent, target: string,
                    action: string)
    requires |s.cache.slots| == SLOTS
    ensures var after := Next(cfg, lib, s, AddIntent(query, intent, target, action));
            var rule := Rule(IntentRule(Cut(query, 2047), intent, Cut(target, 255), Cut(action, 127)), Runtime);
            if intent == 30 || |s.tables.intents| >= 2048 then after == s
            else OnlyTablesChanged(s, after, s.tables.(intents := s.tables.intents + [rule]))
  {
  }

  lemma AliasAdded(cfg: Config, lib: RegexLib, s: EngineState, name: string, canonical: string)
    requires |s.cache.slots| == SLOTS
    ensures var after := Next(cfg, lib, s, AddAlias(name, canonical));
            var rule := Rule(AliasRule(Cut(name, 127), Cut(canonical, 127)), Runtime);
            if |s.tables.aliases| >= 1024 then after == s
            else OnlyTablesChanged(s, after, s.tables.(aliases := s.tables.aliases + [rule]))
  {
  }

  ghost predicate Sized(t: Tables) {
    |t.tokens| <= 1024 && |t.regex| <= 1024 && |t.intents| <= 2048 && |t.aliases| <= 1024
  }

  /** A reload empties the cache and gives each table its own rules from other sources, in order, and then the file's
      rules up to capacity; of the regexes those with an empty pattern go too, and of the file's those that do not
      compile are left out. */
  lemma ReloadExactly(cfg: Config, lib: RegexLib, s: EngineState, files: RuleFiles)
    returns (tokens: seq<nat>, regex: seq<nat>, intents: seq<nat>, aliases: seq<nat>)
    requires |s.cache.slots| == SLOTS && Sized(s.tables)
    ensures var after := Next(cfg, lib, s, Reload(Some(files)));
            && OnlyTablesChanged(s, after, after.tables) && after.tables.fuzzy == s.tables.fuzzy
            && IsReload(s.tables.tokens, (r: Rule<TokenRule>) => r.source != File, files.tokens, 1024,
                        after.tables.tokens, tokens)
            && IsReload(s.tables.intents, (r: Rule<IntentRule>) => r.source != File, files.intents, 2048,
                        after.tables.intents, intents)
            && IsReload(s.tables.aliases, (r: Rule<AliasRule>) => r.source != File, files.aliases, 1024,
                        after.tables.aliases, aliases)
            && IsReload(s.tables.regex, (r: Rule<RegexRule>) => r.source != File && r.body.pattern != "",
                        Filter(files.regex, (r: RegexRule) => lib.compiles(r.expr)), 1024, after.tables.regex, regex)
  {
    tokens := ReloadedIsReload(s.tables.tokens, NotFrom(File), files.tokens, MAX_TOKENS);
    intents := ReloadedIsReload(s.tables.intents, NotFrom(File), files.intents, MAX_INTENT_ENTRIES);
    aliases := ReloadedIsReload(s.tables.aliases, NotFrom(File), files.aliases, MAX_ALIASES);
    regex := ReloadedIsReload(s.tables.regex, Survives(File), Accepted(files.regex, lib), MAX_REGEX_RULES);
  }

  // ---- every run ----

  lemma AppendAllSized<T>(rows: seq<T>, more: seq<T>, capacity: nat)
    requires |rows| <= capacity
    ensures |AppendAll(rows, more, capacity)| <= capacity
  {
    AppendAllIsFront(rows, more, capacity);
  }

  lemma ReloadStaysSized(lib: RegexLib, t: Tables, files: RuleFiles)
    requires Sized(t)
    ensures Sized(TablesAfterReload(lib, t, files))
  {
    AppendAllSized(Filter(t.tokens, NotFrom(File)), FromFile(files.tokens), 1024);
    AppendAllSized(Filter(t.regex, Survives(File)), FromFile(Accepted(files.regex, lib)), 1024);
    AppendAllSized(Filter(t.intents, NotFrom(File)), FromFile(files.intents), 2048);
    AppendAllSized(Filter(t.aliases, NotFrom(File)), FromFile(files.aliases), 1024);
  }

  /** The tables never outgrow their capacities. */
  lemma {:induction false} TablesStaySized(cfg: Config, lib: RegexLib, start: Tables, steps: seq<Step>)
    requires Sized(start)
    ensures Sized(Pipeline.Run(cfg, lib, start, steps).tables)
  {
    if steps != [] {
      var s, step := Pipeline.Run(cfg, lib, start, steps[..|steps| - 1]), steps[|steps| - 1];
      TablesStaySized(cfg, lib, start, steps[..|steps| - 1]);
      if step.Reload? && step.files.Some? {
        ReloadStaysSized(lib, s.tables, step.files.value);
      }
    }
  }

  lemma ReloadKeepsKept<B>(rows: seq<Rule<B>>, keep: Rule<B> -> bool, file: seq<B>, capacity: nat, r: Rule<B>)
    requires r in rows && keep(r)
    ensures r in Reloaded(rows, keep, file, capacity)
  {
    AppendAllTakesWhatFits(Filter(rows, keep), FromFile(file), capacity);
    FilterMembers(rows, keep);
  }

  /** No step drops a rule that is not a file's, but for a regex with an empty pattern. */
  ghost predicate KeepsOwnRules(t: Tables, after: Tables) {
    && (forall r :: r in t.tokens && r.source != File ==> r in after.tokens)
    && (forall r :: r in t.intents && r.source != File ==> r in after.intents)
    && (forall r :: r in t.aliases && r.source != File ==> r in after.aliases)
    && (forall r :: r in t.regex && r.source != File && r.body.pattern != "" ==> r in after.regex)
  }

  lemma ReloadKeepsOwnRules(lib: RegexLib, t: Tables, files: RuleFiles)
    ensures KeepsOwnRules(t, TablesAfterReload(lib, t, files))
  {
    forall r | r in t.tokens && r.source != File
      ensures r in TablesAfterReload(lib, t, files).tokens
    {
      ReloadKeepsKept(t.tokens, NotFrom(File), files.tokens, MAX_TOKENS, r);
    }
    forall r | r in t.intents && r.source != File
      ensures r in TablesAfterReload(lib, t, files).intents
    {
      ReloadKeepsKept(t.intents, NotFrom(File), files.intents, MAX_INTENT_ENTRIES, r);
    }
    forall r | r in t.aliases && r.source != File
      ensures r in TablesAfterReload(lib, t, files).aliases
    {
      ReloadKeepsKept(t.aliases, NotFrom(File), files.aliases, MAX_ALIASES, r);
    }
    forall r | r in t.regex && r.source != File && r.body.pattern != ""
      ensures r in TablesAfterReload(lib, t, files).regex
    {
      ReloadKeepsKept(t.regex, Survives(File), Accepted(files.regex, lib), MAX_REGEX_RULES, r);
    }
  }

  lemma NextKeepsOwnRules(cfg: Config, lib: RegexLib, s: EngineState, step: Step)
    requires |s.cache.slots| == SLOTS
    ensures KeepsOwnRules(s.tables, Next(cfg, lib, s, step).tables)
  {
    if step.Reload? && step.files.Some? {
      ReloadKeepsOwnRules(lib, s.tables, step.files.value);
    }
  }

  /** So a rule added at run time is still there after every later run of requests, additions, reloads and clears. */
  lemma {:induction false} OwnRulesStay(cfg: Config, lib: RegexLib, start: Tables, steps: seq<Step>, k: nat)
    requires k <= |steps|
    ensures KeepsOwnRules(Pipeline.Run(cfg, lib, start, steps[..k]).tables,
                          Pipeline.Run(cfg, lib, start, steps).tables)
  {
    if k == |steps| {
      assert steps[..k] == steps;
    } else {
      OwnRulesStay(cfg, lib, start, steps[..|steps| - 1], k);
      assert steps[..|steps| - 1][..k] == steps[..k];
      KeptOneMore(cfg, lib, start, steps, Pipeline.Run(cfg, lib, start, steps[..k]).tables);
    }
  }

  lemma KeptOneMore(cfg: Config, lib: RegexLib, start: Tables, steps: seq<Step>, t: Tables)
    requires steps != [] && KeepsOwnRules(t, Pipeline.Run(cfg, lib, start, steps[..|steps| - 1]).tables)
    ensures KeepsOwnRules(t, Pipeline.Run(cfg, lib, start, steps).tables)
  {
    var s := Pipeline.Run(cfg, lib, start, steps[..|steps| - 1]);
    NextKeepsOwnRules(cfg, lib, s, steps[|steps| - 1]);
    KeptThrough(t, s.tables, Next(cfg, lib, s, steps[|steps| - 1]).tables);
  }

  lemma KeptThrough(a: Tables, b: Tables, c: Tables)
    requires KeepsOwnRules(a, b) && KeepsOwnRules(b, c)
    ensures KeepsOwnRules(a, c)
  {
  }

  /** The requests of a run, each with what it was answered and how long it took. */
  function Answered(cfg: Config, lib: RegexLib, start: Tables, steps: seq<Step>): seq<Metrics.Event> {
    if steps == [] then []
    else
      var front, last := steps[..|steps| - 1], steps[|steps| - 1];
      var before := Answered(cfg, lib, start, front);
      if !last.Request? then before
      else
        var s := Pipeline.Run(cfg, lib, start, front);
        before + [Metrics.Event(Cached(cfg, lib, s.tables, s.cache, last.query).result, last.latency)]
  }

  /** The counters of a run are those of its answered requests, and of nothing else. */
  lemma {:induction false} CountersAreOfAnswers(cfg: Config, lib: RegexLib, start: Tables, steps: seq<Step>)
    ensures Pipeline.Run(cfg, lib, start, steps).counters == Metrics.Run(Answered(cfg, lib, start, steps))
  {
    if steps != [] {
      var front, last := steps[..|steps| - 1], steps[|steps| - 1];
      CountersAreOfAnswers(cfg, lib, start, front);
      if last.Request? {
        var all := Answered(cfg, lib, start, steps);
        assert all[..|all| - 1] == Answered(cfg, lib, start, front);
      }
    }
  }

  /** The periodic clear, a reload and a reload without files leave the cache empty; the last two leave the rest
      alone. */
  lemma ClearsForget(cfg: Config, lib: RegexLib, s: EngineState, step: Step)
    requires |s.cache.slots| == SLOTS && (step.PeriodicClear? || step.Reload?)
    ensures Abstract(Next(cfg, lib, s, step).cache.slots) == map[]
    ensures step.PeriodicClear? || step.files.None? ==> Next(cfg, lib, s, step) == s.(cache := Cleared())
  {
    ClearedIsEmpty();
  }
}
