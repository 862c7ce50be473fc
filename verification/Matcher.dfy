/** The regex rules: matching, target extraction, and who owns each compiled regex
    (components/rule-engine/matcher/matcher.c). */
module Matcher {
  import opened CStrings
  import opened Folds
  import opened RuleTables
  import opened Scan

  /** `expr` is the text regcomp was given; `pattern` is the copy kept in the table. */
  datatype RegexRule = RegexRule(expr: string, pattern: string, intent: Intent, priority: int)

  /** A table slot: the handle regcomp returned, and the rule. */
  datatype Slot = Slot(handle: nat, rule: Rule<RegexRule>)

  /** regcomp and regexec: which patterns compile, and which queries a pattern matches. */
  datatype RegexLib = RegexLib(compiles: string -> bool, matches: (string, string) -> bool)

  /** Handles are numbered as they are compiled; `freed` logs the calls of regfree. */
  datatype MatcherState = MatcherState(slots: seq<Slot>, issued: nat, freed: seq<nat>)

  function Rules(slots: seq<Slot>): seq<Rule<RegexRule>> {
    seq(|slots|, i requires 0 <= i < |slots| => slots[i].rule)
  }

  function Handles(slots: seq<Slot>): seq<nat> {
    seq(|slots|, i requires 0 <= i < |slots| => slots[i].handle)
  }

  function Compiled(pattern: string, intent: Intent, priority: int): RegexRule {
    RegexRule(pattern, Cut(pattern, MAX_TOKEN_LEN - 1), intent, priority)
  }

  // ---- what the operations do to the state ----

  datatype Fate = Kept | Freed | Lost

  /** Clearing a source frees its slots, and the compaction then drops every slot with an empty pattern. */
  function FateOf(s: Slot, source: RuleSource): Fate {
    if s.rule.source == source then Freed else if s.rule.body.pattern == "" then Lost else Kept
  }

  function HasFate(source: RuleSource, fate: Fate): Slot -> bool {
    (s: Slot) => FateOf(s, source) == fate
  }

  function Select(slots: seq<Slot>, source: RuleSource, fate: Fate): seq<Slot> {
    Filter(slots, HasFate(source, fate))
  }

  function Added(st: MatcherState, lib: RegexLib, pattern: string, intent: Intent, priority: int,
                 source: RuleSource): MatcherState {
    if |st.slots| >= MAX_REGEX_RULES || !lib.compiles(pattern) then st
    else
      MatcherState(st.slots + [Slot(st.issued, Rule(Compiled(pattern, intent, priority), source))],
                   st.issued + 1, st.freed)
  }

  function ClearedOf(st: MatcherState, source: RuleSource): MatcherState {
    MatcherState(Select(st.slots, source, Kept), st.issued, st.freed + Handles(Select(st.slots, source, Freed)))
  }

  function CleanedUp(st: MatcherState): MatcherState {
    MatcherState([], st.issued, st.freed + Handles(st.slots))
  }

  // ---- ownership over every run ----

  /** How often a handle is held by a live slot or has been freed. */
  ghost function Accounted(st: MatcherState, handle: nat): nat {
    multiset(Handles(st.slots))[handle] + multiset(st.freed)[handle]
  }

  /** Every handle is owned by one live slot or was freed once, never both; none is invented. */
  ghost predicate Sound(st: MatcherState) {
    forall h: nat :: Accounted(st, h) <= if h < st.issued then 1 else 0
  }

  ghost predicate NoLeak(st: MatcherState) {
    forall h: nat :: h < st.issued ==> Accounted(st, h) == 1
  }

  lemma {:induction false} SelectSplits(slots: seq<Slot>, source: RuleSource)
    ensures multiset(Handles(slots))
         == multiset(Handles(Select(slots, source, Kept))) + multiset(Handles(Select(slots, source, Freed)))
            + multiset(Handles(Select(slots, source, Lost)))
  {
    if slots != [] {
      var n := |slots| - 1;
      SelectSplits(slots[..n], source);
      HandlesPush(slots[..n], slots[n]);
      var fate := FateOf(slots[n], source);
      HandlesPush(Select(slots[..n], source, fate), slots[n]);
      assert slots == slots[..n] + [slots[n]];
      assert forall f: Fate :: f != fate ==> Select(slots, source, f) == Select(slots[..n], source, f);
    }
  }

  lemma HandlesPush(slots: seq<Slot>, s: Slot)
    ensures Handles(slots + [s]) == Handles(slots) + [s.handle]
  {
  }

  lemma AddKeepsSound(st: MatcherState, lib: RegexLib, pattern: string, intent: Intent, priority: int,
                      source: RuleSource)
    requires Sound(st)
    ensures Sound(Added(st, lib, pattern, intent, priority, source))
    ensures NoLeak(st) ==> NoLeak(Added(st, lib, pattern, intent, priority, source))
  {
    var st' := Added(st, lib, pattern, intent, priority, source);
    if st' != st {
      HandlesPush(st.slots, st'.slots[|st.slots|]);
      forall h: nat
        ensures Accounted(st', h) == Accounted(st, h) + if h == st.issued then 1 else 0
      {
      }
      assert Accounted(st, st.issued) == 0;
    }
  }

  lemma ClearAccounts(st: MatcherState, source: RuleSource, h: nat)
    ensures Accounted(ClearedOf(st, source), h) + multiset(Handles(Select(st.slots, source, Lost)))[h]
              == Accounted(st, h)
  {
    SelectSplits(st.slots, source);
  }

  lemma LostIff(slots: seq<Slot>, source: RuleSource)
    ensures Handles(Select(slots, source, Lost)) == [] <==>
              forall s :: s in slots && s.rule.body.pattern == "" ==> s.rule.source == source
  {
    var lost := Select(slots, source, Lost);
    FilterMembers(slots, HasFate(source, Lost));
    if lost == [] {
      assert forall s :: s in slots ==> s !in lost;
    } else {
      assert lost[0] in lost;
    }
  }

  /** Clearing never frees twice or frees a handle still in the table; it leaks exactly when the table
      holds an empty pattern of another source. */
  lemma ClearKeepsSound(st: MatcherState, source: RuleSource)
    requires Sound(st)
    ensures Sound(ClearedOf(st, source))
    ensures NoLeak(st) ==>
              (NoLeak(ClearedOf(st, source)) <==>
                 forall s :: s in st.slots && s.rule.body.pattern == "" ==> s.rule.source == source)
  {
    var st', lost := ClearedOf(st, source), Handles(Select(st.slots, source, Lost));
    LostIff(st.slots, source);
    forall h: nat
      ensures Accounted(st', h) == Accounted(st, h) - multiset(lost)[h]
    {
      ClearAccounts(st, source, h);
    }
    if lost != [] {
      var h := lost[0];
      assert h in multiset(lost);
      assert Accounted(st', h) < Accounted(st, h);
    }
  }

  datatype Op =
    | AddOp(pattern: string, intent: Intent, priority: int, source: RuleSource)
    | ClearOp(source: RuleSource)
    | CleanupOp

  function Step(lib: RegexLib, st: MatcherState, op: Op): MatcherState {
    match op
    case AddOp(pattern, intent, priority, source) => Added(st, lib, pattern, intent, priority, source)
    case ClearOp(source) => ClearedOf(st, source)
    case CleanupOp => CleanedUp(st)
  }

  function Run(lib: RegexLib, ops: seq<Op>): MatcherState {
    if ops == [] then MatcherState([], 0, []) else Step(lib, Run(lib, ops[..|ops| - 1]), ops[|ops| - 1])
  }

  function OpStep(lib: RegexLib): (MatcherState, Op) -> MatcherState {
    (st: MatcherState, op: Op) => Step(lib, st, op)
  }

  lemma {:induction false} RunIsFold(lib: RegexLib, ops: seq<Op>)
    ensures Run(lib, ops) == Fold(OpStep(lib), MatcherState([], 0, []), ops)
  {
    if ops != [] {
      RunIsFold(lib, ops[..|ops| - 1]);
    }
  }

  /** What loading a rule file does to the table. */
  function FileOps(file: seq<RegexRule>): seq<Op> {
    seq(|file|, i requires 0 <= i < |file| => AddOp(file[i].expr, file[i].intent, file[i].priority, File))
  }

  /** Every clear names the source of every empty pattern added in the run. */
  ghost predicate EmptyOnlyWhereCleared(ops: seq<Op>) {
    forall i, j :: 0 <= i < |ops| && 0 <= j < |ops| && ops[i].AddOp? && ops[i].pattern == "" && ops[j].ClearOp?
      ==> ops[j].source == ops[i].source
  }

  lemma {:induction false} EmptyPatternsWereAdded(lib: RegexLib, ops: seq<Op>, s: Slot)
    requires s in Run(lib, ops).slots && s.rule.body.pattern == ""
    ensures exists i :: 0 <= i < |ops| && ops[i].AddOp? && ops[i].pattern == "" && ops[i].source == s.rule.source
  {
    var n := |ops| - 1;
    var before := Run(lib, ops[..n]);
    if ops[n].ClearOp? {
      FilterMembers(before.slots, HasFate(ops[n].source, Kept));
    }
    if s in before.slots {
      EmptyPatternsWereAdded(lib, ops[..n], s);
      var i :| 0 <= i < n && ops[..n][i].AddOp? && ops[..n][i].pattern == "" && ops[..n][i].source == s.rule.source;
      assert ops[i] == ops[..n][i];
    } else {
      assert ops[n].AddOp? && ops[n].pattern == "";
    }
  }

  lemma RunClears(lib: RegexLib, ops: seq<Op>, source: RuleSource)
    requires ops != [] && ops[|ops| - 1] == ClearOp(source)
    requires Sound(Run(lib, ops[..|ops| - 1]))
    requires EmptyOnlyWhereCleared(ops) ==> NoLeak(Run(lib, ops[..|ops| - 1]))
    ensures Sound(Run(lib, ops)) && (EmptyOnlyWhereCleared(ops) ==> NoLeak(Run(lib, ops)))
  {
    var n := |ops| - 1;
    var before := Run(lib, ops[..n]);
    ClearKeepsSound(before, source);
    if EmptyOnlyWhereCleared(ops) {
      forall s | s in before.slots && s.rule.body.pattern == ""
        ensures s.rule.source == source
      {
        EmptyPatternsWereAdded(lib, ops[..n], s);
      }
    }
  }

  /** Over every interleaving of adding, clearing and cleaning up each compiled regex has at most one owner and
      is freed at most once; when every clear names the source of every empty pattern, none is leaked, and a
      final cleanup leaves each freed exactly once. */
  lemma {:induction false} EveryRunOwnsItsRegexes(lib: RegexLib, ops: seq<Op>)
    ensures Sound(Run(lib, ops))
    ensures EmptyOnlyWhereCleared(ops) ==> NoLeak(Run(lib, ops))
    ensures EmptyOnlyWhereCleared(ops) ==>
              forall h: nat :: h < Run(lib, ops).issued ==> multiset(CleanedUp(Run(lib, ops)).freed)[h] == 1
  {
    if ops != [] {
      var n := |ops| - 1;
      var before := Run(lib, ops[..n]);
      EveryRunOwnsItsRegexes(lib, ops[..n]);
      assert EmptyOnlyWhereCleared(ops) ==> EmptyOnlyWhereCleared(ops[..n]);
      match ops[n] {
        case AddOp(pattern, intent, priority, source) => AddKeepsSound(before, lib, pattern, intent, priority, source);
        case ClearOp(source) => RunClears(lib, ops, source);
        case CleanupOp => CleanupAccounts(before);
      }
    }
    CleanupAccounts(Run(lib, ops));
  }

  /** The condition matters: clearing the file rules leaks a runtime rule whose pattern is empty. */
  lemma EmptyPatternLeaks(lib: RegexLib)
    requires lib.compiles("")
    ensures !NoLeak(Run(lib, [AddOp("", 0, 0, Runtime), ClearOp(File)]))
  {
    var add, clear := AddOp("", 0, 0, Runtime), ClearOp(File);
    var empty := MatcherState([], 0, []);
    var st := Step(lib, empty, add);
    TwoSteps(lib, add, clear);
    AddKeepsSound(empty, lib, "", 0, 0, Runtime);
    ClearKeepsSound(st, File);
    assert st.slots == [Slot(0, Rule(Compiled("", 0, 0), Runtime))];
    assert st.slots[0] in st.slots;
  }

  lemma TwoSteps(lib: RegexLib, a: Op, b: Op)
    ensures Run(lib, [a, b]) == Step(lib, Step(lib, MatcherState([], 0, []), a), b)
  {
    var one, two := [a], [a, b];
    assert two[..1] == one && one[..0] == [];
    assert Run(lib, one) == Step(lib, Run(lib, []), a);
    assert Run(lib, two) == Step(lib, Run(lib, one), b);
  }

  /** What the rule engine itself does: only file rules may have an empty pattern (strtok never yields an empty
      token, but the pattern of a file line is trimmed afterwards), and only file rules are ever cleared. */
  ghost predicate ByTheEngine(op: Op) {
    match op
    case AddOp(pattern, _, _, source) => pattern == "" ==> source == File
    case ClearOp(source) => source == File
    case CleanupOp => true
  }

  /** So no run of the rule engine leaks a regex. */
  lemma EngineRunsNeverLeak(lib: RegexLib, ops: seq<Op>)
    requires forall op :: op in ops ==> ByTheEngine(op)
    ensures NoLeak(Run(lib, ops))
    ensures forall h: nat :: h < Run(lib, ops).issued ==> multiset(CleanedUp(Run(lib, ops)).freed)[h] == 1
  {
    assert forall i :: 0 <= i < |ops| ==> ByTheEngine(ops[i]);
    EveryRunOwnsItsRegexes(lib, ops);
  }

  lemma CleanupAccounts(st: MatcherState)
    ensures forall h: nat :: Accounted(CleanedUp(st), h) == Accounted(st, h) == multiset(CleanedUp(st).freed)[h]
  {
  }

  // ---- matching ----

  function RegexKey(row: RegexRule, query: string, lib: RegexLib): Option<real> {
    if lib.matches(row.expr, query) then Some(row.priority as real) else None
  }

  function RegexKeys(rows: seq<Rule<RegexRule>>, query: string, lib: RegexLib): seq<Option<real>> {
    seq(|rows|, i requires 0 <= i < |rows| => RegexKey(rows[i].body, query, lib))
  }

  function SkipSpaces(s: string): string {
    if s != "" && IsSpace(s[0]) then SkipSpaces(s[1..]) else s
  }

  function FirstWord(s: string): string {
    if s == "" || IsSpace(s[0]) then "" else [s[0]] + FirstWord(s[1..])
  }

  predicate IsPatternMark(c: char) {
    c == ' ' || c == '$' || c == '(' || c == ')' || c == '.' || c == '*'
  }

  function SkipMarks(p: string): string {
    if p != "" && IsPatternMark(p[0]) then SkipMarks(p[1..]) else p
  }

  function AfterCaret(pattern: string): string {
    if pattern != "" && pattern[0] == '^' then pattern[1..] else pattern
  }

  /** A pattern that starts with a group takes the first word of the query as its target. */
  function TargetOf(query: string, pattern: string): string {
    var word := Cut(FirstWord(SkipSpaces(query)), MAX_TARGET_LEN - 1);
    if "(.*)" <= AfterCaret(pattern) && word != "" then word else Cut(query, MAX_TARGET_LEN - 1)
  }

  /** The action is what follows the leading marks of the pattern. */
  function ActionOf(pattern: string): string {
    Cut(SkipMarks(AfterCaret(pattern)), MAX_ACTION_LEN - 1)
  }

  // ---- what target and action are ----

  /** `word` is the first word of the query: only spaces before it, none in it, and one or nothing behind it. */
  ghost predicate WordAt(query: string, before: string, word: string, after: string) {
    && query == before + word + after && word != ""
    && (forall c :: c in before ==> IsSpace(c)) && (forall c :: c in word ==> !IsSpace(c))
    && (after == "" || IsSpace(after[0]))
  }

  ghost predicate IsFirstWord(query: string, word: string) {
    exists before, after :: WordAt(query, before, word, after)
  }

  /** With a group at its start a pattern takes the query's first word, if it has one; any other the whole query. */
  ghost predicate IsTarget(query: string, pattern: string, target: string) {
    if "(.*)" <= pattern || "^(.*)" <= pattern
    then && (forall word :: IsFirstWord(query, word) ==> target == Cut(word, 255))
         && ((forall word :: !IsFirstWord(query, word)) ==> target == Cut(query, 255))
    else target == Cut(query, 255)
  }

  /** `marks` is the longest front of spaces, dollars, brackets, dots and stars behind an opening caret. */
  ghost predicate MarksLead(pattern: string, marks: string, rest: string) {
    && (pattern == marks + rest || pattern == "^" + marks + rest)
    && (pattern != "" && pattern[0] == '^' ==> pattern == "^" + marks + rest)
    && (forall c :: c in marks ==> c in [' ', '$', '(', ')', '.', '*'])
    && (rest == "" || rest[0] !in [' ', '$', '(', ')', '.', '*'])
  }

  /** The action is the pattern behind those. */
  ghost predicate IsAction(pattern: string, action: string) {
    exists marks, rest :: MarksLead(pattern, marks, rest) && action == Cut(rest, 127)
  }

  lemma {:induction false} SpacesSkipped(s: string) returns (before: string)
    ensures s == before + SkipSpaces(s) && (forall c :: c in before ==> IsSpace(c))
    ensures SkipSpaces(s) == "" || !IsSpace(SkipSpaces(s)[0])
  {
    before := "";
    if s != "" && IsSpace(s[0]) {
      var more := SpacesSkipped(s[1..]);
      before := [s[0]] + more;
      Assoc([s[0]], more, SkipSpaces(s));
    }
  }

  lemma {:induction false} WordTaken(s: string) returns (after: string)
    ensures s == FirstWord(s) + after && (forall c :: c in FirstWord(s) ==> !IsSpace(c))
    ensures after == "" || IsSpace(after[0])
  {
    after := s;
    if s != "" && !IsSpace(s[0]) {
      after := WordTaken(s[1..]);
      Assoc([s[0]], FirstWord(s[1..]), after);
    }
  }

  lemma {:induction false} MarksSkipped(p: string) returns (marks: string)
    ensures p == marks + SkipMarks(p) && (forall c :: c in marks ==> IsPatternMark(c))
    ensures SkipMarks(p) == "" || !IsPatternMark(SkipMarks(p)[0])
  {
    marks := "";
    if p != "" && IsPatternMark(p[0]) {
      var more := MarksSkipped(p[1..]);
      marks := [p[0]] + more;
      Assoc([p[0]], more, SkipMarks(p));
    }
  }

  lemma WordHasNoSpaces(query: string, word: string)
    requires IsFirstWord(query, word)
    ensures exists c :: c in query && !IsSpace(c)
  {
    var before, after :| WordAt(query, before, word, after);
    assert word[0] in word && query[|before|] == word[0] && !IsSpace(query[|before|]);
    assert query[|before|] in query;
  }

  lemma FirstWordFound(query: string)
    ensures FirstWord(SkipSpaces(query)) != "" ==> IsFirstWord(query, FirstWord(SkipSpaces(query)))
    ensures FirstWord(SkipSpaces(query)) == "" ==> forall word :: !IsFirstWord(query, word)
  {
    var before := SpacesSkipped(query);
    var after := WordTaken(SkipSpaces(query));
    Assoc(before, FirstWord(SkipSpaces(query)), after);
    if FirstWord(SkipSpaces(query)) != "" {
      assert WordAt(query, before, FirstWord(SkipSpaces(query)), after);
    } else {
      forall word
        ensures !IsFirstWord(query, word)
      {
        if IsFirstWord(query, word) {
          WordHasNoSpaces(query, word);
        }
      }
    }
  }

  lemma WordSpan(query: string, before: string, word: string, after: string, k: nat)
    requires WordAt(query, before, word, after) && k < |query|
    ensures k < |before| ==> IsSpace(query[k])
    ensures |before| <= k < |before| + |word| ==> !IsSpace(query[k])
    ensures k == |before| + |word| ==> IsSpace(query[k])
    ensures word == query[|before|..|before| + |word|]
  {
  }

  /** A query has only one first word. */
  lemma OneFirstWord(query: string, a: string, b: string)
    requires IsFirstWord(query, a) && IsFirstWord(query, b)
    ensures a == b
  {
    var x, x' :| WordAt(query, x, a, x');
    var y, y' :| WordAt(query, y, b, y');
    WordSpan(query, x, a, x', |y|);
    WordSpan(query, y, b, y', |x|);
    var end := |x| + if |a| < |b| then |a| else |b|;
    if end < |query| {
      WordSpan(query, x, a, x', end);
      WordSpan(query, y, b, y', end);
    }
  }

  lemma TargetIs(query: string, pattern: string)
    ensures IsTarget(query, pattern, TargetOf(query, pattern))
  {
    var word := FirstWord(SkipSpaces(query));
    FirstWordFound(query);
    assert "(.*)" <= AfterCaret(pattern) <==> "(.*)" <= pattern || "^(.*)" <= pattern by {
      GroupLeads(pattern);
    }
    forall other | IsFirstWord(query, other)
      ensures other == word
    {
      if word != "" {
        OneFirstWord(query, word, other);
      }
    }
  }

  lemma GroupLeads(pattern: string)
    ensures "(.*)" <= AfterCaret(pattern) <==> "(.*)" <= pattern || "^(.*)" <= pattern
  {
    if "^(.*)" <= pattern {
      assert pattern[..5] == "^(.*)";
      assert pattern[1..][..4] == pattern[..5][1..];
    }
  }

  lemma ActionIs(pattern: string)
    ensures IsAction(pattern, ActionOf(pattern))
  {
    var marks := MarksSkipped(AfterCaret(pattern));
    var rest := SkipMarks(AfterCaret(pattern));
    if pattern != "" && pattern[0] == '^' {
      assert pattern == "^" + pattern[1..];
      Assoc("^", marks, rest);
    }
    assert MarksLead(pattern, marks, rest);
  }

  /** The source's scan over pattern position p and query position q. The source also steps both over a
      shared space right after the group; there q already stands at a non-space, so that loop never runs
      and is not repeated here. */
  method ExtractTarget(query: string, pattern: string) returns (target: string, action: string)
    ensures target == TargetOf(query, pattern) && action == ActionOf(pattern)
    ensures IsTarget(query, pattern, target) && IsAction(pattern, action)
  {
    TargetIs(query, pattern);
    ActionIs(pattern);
    var p := 0;
    var q := SkipQuerySpaces(query);
    target := "";
    if pattern != "" && pattern[p] == '^' { p := p + 1; }
    ghost var rest := pattern[p..];
    if "(.*)" <= pattern[p..] {
      p := p + 4;
      if q < |query| && query[q] != ' ' {
        target := TakeWord(query, q);
      }
      FourMarks(rest);
      assert rest[4..] == pattern[p..];
    }
    p := SkipPatternMarks(query, q, pattern, p);
    if target == "" { target := Cut(query, MAX_TARGET_LEN - 1); }
    action := Cut(pattern[p..], MAX_ACTION_LEN - 1);
  }

  method SkipQuerySpaces(query: string) returns (q: nat)
    ensures q <= |query| && query[q..] == SkipSpaces(query)
  {
    q := 0;
    while q < |query| && IsSpace(query[q])
      invariant q <= |query| && SkipSpaces(query[q..]) == SkipSpaces(query)
    {
      NextSpace(query, q);
      q := q + 1;
    }
  }

  /** The last loop: it stops at the first character of the pattern that is no mark. */
  method SkipPatternMarks(query: string, start: nat, pattern: string, from: nat) returns (p: nat)
    requires start <= |query| && from <= |pattern|
    ensures p <= |pattern| && pattern[p..] == SkipMarks(pattern[from..])
  {
    p := from;
    var q := start;
    while p < |pattern|
      invariant 0 <= p <= |pattern| && 0 <= q <= |query|
      invariant SkipMarks(pattern[p..]) == SkipMarks(pattern[from..])
    {
      if pattern[p] == ' ' && q < |query| && IsSpace(query[q]) {
        while q < |query| && IsSpace(query[q])
          invariant 0 <= q <= |query|
        {
          q := q + 1;
        }
        NextMark(pattern, p);
        p := p + 1;
        continue;
      }
      if !IsPatternMark(pattern[p]) { break; }
      NextMark(pattern, p);
      p := p + 1;
    }
  }

  lemma NextSpace(s: string, k: nat)
    requires k < |s| && IsSpace(s[k])
    ensures SkipSpaces(s[k..]) == SkipSpaces(s[k + 1..])
  {
    assert s[k..][1..] == s[k + 1..];
  }

  lemma NextMark(s: string, k: nat)
    requires k < |s| && IsPatternMark(s[k])
    ensures SkipMarks(s[k..]) == SkipMarks(s[k + 1..])
  {
    assert s[k..][1..] == s[k + 1..];
  }

  lemma FourMarks(p: string)
    requires "(.*)" <= p
    ensures SkipMarks(p) == SkipMarks(p[4..])
  {
    assert p[0] == '(' && p[1] == '.' && p[2] == '*' && p[3] == ')';
    assert SkipMarks(p) == SkipMarks(p[1..]) == SkipMarks(p[1..][1..]);
    assert p[1..][1..] == p[2..] && p[2..][1..] == p[3..] && p[3..][1..] == p[4..];
    assert SkipMarks(p[2..]) == SkipMarks(p[3..]) == SkipMarks(p[4..]);
  }

  lemma NextOfWord(query: string, p: nat)
    requires p < |query| && !IsSpace(query[p])
    ensures FirstWord(query[p..]) == [query[p]] + FirstWord(query[p + 1..])
  {
    assert query[p..][1..] == query[p + 1..];
  }

  method TakeWord(query: string, q: nat) returns (word: string)
    requires q <= |query|
    ensures word == Cut(FirstWord(query[q..]), MAX_TARGET_LEN - 1)
  {
    word := "";
    var p := q;
    while p < |query| && !IsSpace(query[p]) && |word| < MAX_TARGET_LEN - 1
      invariant q <= p <= |query| && |word| <= MAX_TARGET_LEN - 1
      invariant FirstWord(query[q..]) == word + FirstWord(query[p..])
    {
      NextOfWord(query, p);
      Assoc(word, [query[p]], FirstWord(query[p + 1..]));
      word := word + [query[p]];
      p := p + 1;
    }
  }

  function RegexResult(row: RegexRule, query: string): MatchResult {
    MatchResult(row.intent, TargetOf(query, row.pattern), ActionOf(row.pattern), 0.95, Regex,
                Cut(row.pattern, MAX_TOKEN_LEN - 1))
  }

  function RegexStage(rows: seq<Rule<RegexRule>>, query: string, lib: RegexLib): Option<MatchResult> {
    var best := FirstBest(RegexKeys(rows, query, lib), -1.0);
    if best.Some? then Some(RegexResult(rows[best.value].body, query)) else None
  }

  /** `best` is the earliest matching rule of highest non-negative priority. */
  ghost predicate Wins(rows: seq<Rule<RegexRule>>, query: string, lib: RegexLib, best: nat) {
    && best < |rows| && lib.matches(rows[best].body.expr, query) && rows[best].body.priority >= 0
    && forall j :: 0 <= j < |rows| && lib.matches(rows[j].body.expr, query)
         ==> if j < best then rows[j].body.priority < rows[best].body.priority
             else rows[j].body.priority <= rows[best].body.priority
  }

  /** What a rule that matches answers. */
  ghost predicate IsAnswer(row: RegexRule, query: string, r: MatchResult) {
    && r.intent == row.intent && IsTarget(query, row.pattern, r.target) && IsAction(row.pattern, r.action)
    && r.confidence == 0.95 && r.source == Regex && r.pattern == Cut(row.pattern, 127)
  }

  /** The stage answers with the earliest rule of highest priority among the matching rules of
      non-negative priority, and misses exactly when there is none. */
  lemma RegexStagePicksBest(rows: seq<Rule<RegexRule>>, query: string, lib: RegexLib)
    ensures RegexStage(rows, query, lib) == None <==>
              forall i :: 0 <= i < |rows| && lib.matches(rows[i].body.expr, query) ==> rows[i].body.priority < 0
    ensures RegexStage(rows, query, lib).Some? ==>
              exists best: nat :: Wins(rows, query, lib, best)
                && IsAnswer(rows[best].body, query, RegexStage(rows, query, lib).value)
  {
    var keys := RegexKeys(rows, query, lib);
    FirstBestIsEarliestMaximum(keys, -1.0);
    assert forall i :: 0 <= i < |rows| ==> keys[i] == RegexKey(rows[i].body, query, lib);
    var best := FirstBest(keys, -1.0);
    if best.Some? {
      assert IsEarliestMaximum(keys, -1.0, best.value);
      assert Wins(rows, query, lib, best.value);
      TargetIs(query, rows[best.value].body.pattern);
      ActionIs(rows[best.value].body.pattern);
    }
  }

  // ---- the rules across a reload, without their handles ----

  function Survives(source: RuleSource): Rule<RegexRule> -> bool {
    (r: Rule<RegexRule>) => FateOf(Slot(0, r), source) == Kept
  }

  lemma {:induction false} RulesOfKept(slots: seq<Slot>, source: RuleSource)
    ensures Rules(Select(slots, source, Kept)) == Filter(Rules(slots), Survives(source))
  {
    if slots != [] {
      var n := |slots| - 1;
      RulesOfKept(slots[..n], source);
      assert Rules(slots)[..n] == Rules(slots[..n]);
    }
  }

  /** The patterns of a rule file that compile, in order. */
  function Accepted(file: seq<RegexRule>, lib: RegexLib): seq<RegexRule> {
    Filter(file, (r: RegexRule) => lib.compiles(r.expr))
  }

  function ReloadedRegex(rows: seq<Rule<RegexRule>>, file: seq<RegexRule>, lib: RegexLib): seq<Rule<RegexRule>> {
    Reloaded(rows, Survives(File), Accepted(file, lib), MAX_REGEX_RULES)
  }

  /** Reloading keeps the non-file rules of non-empty pattern, in order, then the accepted file rules up to
      capacity; a second reload of the same file changes nothing. */
  lemma RegexReload(rows: seq<Rule<RegexRule>>, file: seq<RegexRule>, lib: RegexLib)
    ensures var kept := Filter(rows, Survives(File));
            && ((forall r :: r in rows ==> r.body.pattern != "") ==> kept == Without(rows, File))
            && ReloadedRegex(rows, file, lib)
               == kept + FromFile(Accepted(file, lib))[..Room(kept, FromFile(Accepted(file, lib)), MAX_REGEX_RULES)]
    ensures ReloadedRegex(ReloadedRegex(rows, file, lib), file, lib) == ReloadedRegex(rows, file, lib)
  {
    ReloadKeepsOthersThenFile(rows, Survives(File), Accepted(file, lib), MAX_REGEX_RULES);
    ReloadTwice(rows, Survives(File), Accepted(file, lib), MAX_REGEX_RULES);
    if forall r :: r in rows ==> r.body.pattern != "" {
      FilterAgrees(rows, Survives(File), NotFrom(File));
    }
  }

  // ---- the module's table ----

  /** A slot after memset. */
  const ZERO_SLOT := Slot(0, Rule(RegexRule("", "", 0, 0), Builtin))

  class RegexTable {
    const lib: RegexLib
    const rows: array<Slot>
    var count: nat
    var issued: nat
    ghost var freed: seq<nat>

    ghost predicate Valid()
      reads this
    {
      rows.Length == MAX_REGEX_RULES && count <= rows.Length
    }

    ghost function State(): MatcherState
      requires Valid()
      reads this, rows
    {
      MatcherState(rows[..count], issued, freed)
    }

    constructor (lib: RegexLib)
      ensures Valid() && fresh(rows) && this.lib == lib
      ensures State() == MatcherState([], 0, [])
    {
      this.lib := lib;
      rows := new Slot[MAX_REGEX_RULES](_ => ZERO_SLOT);
      count, issued, freed := 0, 0, [];
    }

    ghost method RegFree(handle: nat)
      modifies `freed
      ensures freed == old(freed) + [handle]
    {
      freed := freed + [handle];
    }

    method AddRule(pattern: string, intent: Intent, priority: int, source: RuleSource) returns (added: bool)
      requires Valid()
      modifies this, rows
      ensures Valid()
      ensures State() == Added(old(State()), lib, pattern, intent, priority, source)
      ensures added <==> |old(State()).slots| < 1024 && lib.compiles(pattern)
      ensures !added ==> State() == old(State())
      ensures added ==>
                var slot := Slot(old(issued), Rule(RegexRule(pattern, Cut(pattern, 127), intent, priority), source));
                State() == MatcherState(old(State()).slots + [slot], old(issued) + 1, old(freed))
    {
      if count >= MAX_REGEX_RULES || !lib.compiles(pattern) {
        return false;
      }
      rows[count] := Slot(issued, Rule(Compiled(pattern, intent, priority), source));
      issued := issued + 1;
      count := count + 1;
      return true;
    }

    method ClearRules(source: RuleSource)
      requires Valid()
      modifies this, rows
      ensures Valid()
      ensures State() == ClearedOf(old(State()), source)
    {
      FreeSource(source);
      Compact(source, old(rows[..count]));
    }

    method FreeSource(source: RuleSource)
      requires Valid()
      modifies rows, `freed
      ensures forall k :: 0 <= k < count ==> rows[k] == Marked(old(rows[..count])[k], source)
      ensures freed == old(freed) + Handles(Select(old(rows[..count]), source, Freed))
    {
      ghost var was := rows[..count];
      for i := 0 to count
        invariant forall k :: 0 <= k < i ==> rows[k] == Marked(was[k], source)
        invariant forall k :: i <= k < count ==> rows[k] == was[k]
        invariant freed == old(freed) + Handles(Select(was[..i], source, Freed))
      {
        assert was[..i + 1][..i] == was[..i];
        if rows[i].rule.source == source {
          HandlesPush(Select(was[..i], source, Freed), was[i]);
          RegFree(rows[i].handle);
          rows[i] := ZERO_SLOT;
        }
      }
      assert was[..count] == was;
    }

    method Compact(source: RuleSource, ghost was: seq<Slot>)
      requires Valid() && |was| == count
      requires forall k :: 0 <= k < count ==> rows[k] == Marked(was[k], source)
      modifies rows, `count
      ensures Valid() && rows[..count] == Select(was, source, Kept)
    {
      var write := 0;
      for i := 0 to count
        invariant write <= i && count == |was|
        invariant rows[..write] == Select(was[..i], source, Kept)
        invariant forall k :: i <= k < count ==> rows[k] == Marked(was[k], source)
      {
        assert was[..i + 1][..i] == was[..i];
        if rows[i].rule.body.pattern != "" {
          if i != write {
            rows[write] := rows[i];
          }
          write := write + 1;
        }
      }
      assert was[..count] == was;
      count := write;
    }

    method Match(query: string) returns (found: bool, result: MatchResult)
      requires Valid()
      ensures found <==> RegexStage(Rules(State().slots), query, lib).Some?
      ensures result == if found then RegexStage(Rules(State().slots), query, lib).value else NO_MATCH
      ensures found ==> exists best: nat :: Wins(Rules(State().slots), query, lib, best)
                          && IsAnswer(Rules(State().slots)[best].body, query, result)
    {
      RegexStagePicksBest(Rules(State().slots), query, lib);
      var bestPriority, bestIdx := -1, -1;
      result := NO_MATCH;
      ghost var keys := RegexKeys(Rules(State().slots), query, lib);
      for i := 0 to count
        invariant Scanned(keys, i, -1.0, bestIdx, bestPriority as real)
      {
        ScanOne(keys, i, -1.0, bestIdx, bestPriority as real);
        if lib.matches(rows[i].rule.body.expr, query) {
          if rows[i].rule.body.priority > bestPriority {
            bestPriority := rows[i].rule.body.priority;
            bestIdx := i;
          }
        }
      }
      ScanAll(keys, -1.0, bestIdx, bestPriority as real);
      if bestIdx >= 0 {
        var row := rows[bestIdx].rule.body;
        var target, action := ExtractTarget(query, row.pattern);
        result := MatchResult(row.intent, target, action, 0.95, Regex, Cut(row.pattern, MAX_TOKEN_LEN - 1));
      }
      return bestIdx >= 0, result;
    }

    method Cleanup()
      requires Valid()
      modifies this, rows
      ensures Valid() && State() == CleanedUp(old(State()))
    {
      ghost var was := rows[..count];
      for i := 0 to count
        invariant Valid() && count == |was| && issued == old(issued)
        invariant rows[..count] == was
        invariant freed == old(freed) + Handles(was[..i])
      {
        assert was[..i + 1] == was[..i] + [was[i]];
        HandlesPush(was[..i], was[i]);
        RegFree(rows[i].handle);
      }
      assert was[..count] == was;
      for i := 0 to rows.Length
        invariant Valid() && freed == old(freed) + Handles(was) && issued == old(issued)
      {
        rows[i] := ZERO_SLOT;
      }
      count := 0;
    }

    /** Append the rules of a file whose patterns compile. */
    method Load(file: seq<RegexRule>) returns (loaded: nat)
      requires Valid() && AsParsed(file)
      modifies this, rows
      ensures Valid()
      ensures State() == Fold(OpStep(lib), old(State()), FileOps(file))
      ensures Rules(State().slots)
           == AppendAll(Rules(old(State()).slots), FromFile(Accepted(file, lib)), MAX_REGEX_RULES)
      ensures loaded == |State().slots| - |old(State()).slots|
    {
      ghost var s, ops := State(), FileOps(file);
      loaded := 0;
      for i := 0 to |file|
        invariant Valid() && State() == Fold(OpStep(lib), s, ops[..i]) && |State().slots| == |s.slots| + loaded
      {
        FoldOneMore(OpStep(lib), s, ops, i);
        var added := AddRule(file[i].expr, file[i].intent, file[i].priority, File);
        if added {
          loaded := loaded + 1;
        }
      }
      assert ops[..|file|] == ops;
      LoadedRules(lib, s, file, |file|);
      assert file[..|file|] == file;
    }
  }

  /** The stored pattern of a parsed rule is its text cut to the field. */
  predicate AsParsed(file: seq<RegexRule>) {
    forall r :: r in file ==> r.pattern == Cut(r.expr, MAX_TOKEN_LEN - 1)
  }

  /** What the first pass of a clear leaves in a slot. */
  function Marked(s: Slot, source: RuleSource): Slot {
    if s.rule.source == source then ZERO_SLOT else s
  }

  lemma LoadedRow(st: MatcherState, lib: RegexLib, row: RegexRule)
    requires row.pattern == Cut(row.expr, MAX_TOKEN_LEN - 1)
    ensures Rules(Added(st, lib, row.expr, row.intent, row.priority, File).slots)
         == if lib.compiles(row.expr) then Append(Rules(st.slots), Rule(row, File), MAX_REGEX_RULES)
            else Rules(st.slots)
  {
  }

  /** What loading the first n rules of a file leaves in the table. */
  lemma {:induction false} LoadedRules(lib: RegexLib, st: MatcherState, file: seq<RegexRule>, n: nat)
    requires AsParsed(file) && n <= |file|
    ensures Rules(Fold(OpStep(lib), st, FileOps(file)[..n]).slots)
         == AppendAll(Rules(st.slots), FromFile(Accepted(file[..n], lib)), MAX_REGEX_RULES)
  {
    if n > 0 {
      LoadedRules(lib, st, file, n - 1);
      AcceptNext(file, n - 1, lib, Rules(st.slots));
      FoldOneMore(OpStep(lib), st, FileOps(file), n - 1);
      LoadedRow(Fold(OpStep(lib), st, FileOps(file)[..n - 1]), lib, file[n - 1]);
    }
  }

  lemma AcceptNext(file: seq<RegexRule>, i: nat, lib: RegexLib, kept: seq<Rule<RegexRule>>)
    requires i < |file|
    ensures var sofar := AppendAll(kept, FromFile(Accepted(file[..i], lib)), MAX_REGEX_RULES);
            AppendAll(kept, FromFile(Accepted(file[..i + 1], lib)), MAX_REGEX_RULES)
            == if lib.compiles(file[i].expr) then Append(sofar, Rule(file[i], File), MAX_REGEX_RULES) else sofar
  {
    var a := FromFile(Accepted(file[..i], lib));
    assert file[..i + 1][..i] == file[..i];
    if lib.compiles(file[i].expr) {
      assert FromFile(Accepted(file[..i + 1], lib)) == a + [Rule(file[i], File)];
      AppendAllTakesWhatFits(kept, a, MAX_REGEX_RULES);
      AppendAllTakesWhatFits(kept, a + [Rule(file[i], File)], MAX_REGEX_RULES);
    }
  }
}
