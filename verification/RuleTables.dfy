/** The types of the rule engine (components/rule-engine/include/common.h) and the rule
    table that its token, intent and alias modules each keep. */
module RuleTables {
  const MAX_TOKENS: nat := 1024
  const MAX_REGEX_RULES: nat := 1024
  const MAX_INTENT_ENTRIES: nat := 2048
  const MAX_ALIASES: nat := 1024
  const MAX_TOKEN_LEN: nat := 128
  const MAX_QUERY_LEN: nat := 2048
  const MAX_TARGET_LEN: nat := 256
  const MAX_ACTION_LEN: nat := 128

  /** INTENT_OPEN_APPLICATION is 0 and INTENT_UNKNOWN comes last. */
  const UNKNOWN: nat := 30
  type Intent = i: nat | i <= UNKNOWN

  datatype RuleSource = Builtin | File | Runtime

  datatype MatchSource = CacheHit | Regex | Token | IntentTable | Alias | FuzzyTable

  datatype MatchResult = MatchResult(intent: Intent, target: string, action: string, confidence: real,
                                     source: MatchSource, pattern: string)

  /** A result after memset. */
  const ZERO_RESULT := MatchResult(0, "", "", 0.0, CacheHit, "")
  /** What a stage leaves behind when it finds nothing. */
  const NO_MATCH := ZERO_RESULT.(intent := UNKNOWN)

  datatype Rule<+B> = Rule(body: B, source: RuleSource)
  datatype TokenRule = TokenRule(token: string, intent: Intent, weight: int)
  datatype IntentRule = IntentRule(query: string, intent: Intent, target: string, action: string)
  datatype AliasRule = AliasRule(name: string, canonical: string)

  // ---- what the table operations do to the contents ----

  function Append<T>(rows: seq<T>, row: T, capacity: nat): seq<T> {
    if |rows| < capacity then rows + [row] else rows
  }

  function AppendAll<T>(rows: seq<T>, more: seq<T>, capacity: nat): seq<T>
    decreases |more|
  {
    if more == [] then rows else AppendAll(Append(rows, more[0], capacity), more[1..], capacity)
  }

  function Filter<T>(xs: seq<T>, keep: T -> bool): (r: seq<T>)
    ensures |r| <= |xs|
  {
    if xs == [] then []
    else
      var n := |xs| - 1;
      if keep(xs[n]) then Filter(xs[..n], keep) + [xs[n]] else Filter(xs[..n], keep)
  }

  function NotFrom<B>(source: RuleSource): Rule<B> -> bool {
    (r: Rule<B>) => r.source != source
  }

  function Without<B>(rows: seq<Rule<B>>, source: RuleSource): seq<Rule<B>> {
    Filter(rows, NotFrom(source))
  }

  function FromFile<B>(bodies: seq<B>): seq<Rule<B>> {
    seq(|bodies|, i requires 0 <= i < |bodies| => Rule(bodies[i], File))
  }

  /** A reload: drop what is not kept, then add the file's rules one by one. */
  function Reloaded<B>(rows: seq<Rule<B>>, keep: Rule<B> -> bool, file: seq<B>, capacity: nat): seq<Rule<B>> {
    AppendAll(Filter(rows, keep), FromFile(file), capacity)
  }

  // ---- properties ----

  ghost predicate StrictlyIncreasing(at: seq<nat>) {
    forall i, j :: 0 <= i < j < |at| ==> at[i] < at[j]
  }

  ghost predicate ReadsKept<T>(xs: seq<T>, keep: T -> bool, at: seq<nat>) {
    && (forall i :: 0 <= i < |at| ==> at[i] < |xs| && keep(xs[at[i]]))
    && (forall k: nat :: k < |xs| && keep(xs[k]) ==> k in at)
  }

  lemma ReadsKeptPush<T>(front: seq<T>, x: T, keep: T -> bool, at: seq<nat>)
    requires ReadsKept(front, keep, at)
    ensures ReadsKept(front + [x], keep, if keep(x) then at + [|front|] else at)
  {
    var xs, after := front + [x], if keep(x) then at + [|front|] else at;
    forall k: nat | k < |xs| && keep(xs[k])
      ensures k in after
    {
      if k < |front| {
        assert k in at;
      } else {
        assert after[|at|] == k;
      }
    }
  }

  ghost predicate Reads<T>(ys: seq<T>, xs: seq<T>, at: seq<nat>) {
    |at| == |ys| && forall i :: 0 <= i < |at| ==> at[i] < |xs| && ys[i] == xs[at[i]]
  }

  lemma ReadsPush<T>(ys: seq<T>, front: seq<T>, x: T, at: seq<nat>)
    requires Reads(ys, front, at)
    ensures Reads(ys, front + [x], at)
    ensures Reads(ys + [x], front + [x], at + [|front|])
  {
  }

  lemma IncreasingPush(at: seq<nat>, n: nat)
    requires StrictlyIncreasing(at) && forall i :: 0 <= i < |at| ==> at[i] < n
    ensures StrictlyIncreasing(at + [n])
  {
  }

  ghost predicate StableFilter<T>(ys: seq<T>, xs: seq<T>, keep: T -> bool, at: seq<nat>) {
    StrictlyIncreasing(at) && ReadsKept(xs, keep, at) && Reads(ys, xs, at)
  }

  lemma StableFilterPush<T>(ys: seq<T>, front: seq<T>, x: T, keep: T -> bool, at: seq<nat>)
    requires StableFilter(ys, front, keep, at)
    ensures keep(x) ==> StableFilter(ys + [x], front + [x], keep, at + [|front|])
    ensures !keep(x) ==> StableFilter(ys, front + [x], keep, at)
  {
    ReadsKeptPush(front, x, keep, at);
    ReadsPush(ys, front, x, at);
    IncreasingPush(at, |front|);
  }

  lemma FilterPush<T>(front: seq<T>, x: T, keep: T -> bool)
    ensures Filter(front + [x], keep) == if keep(x) then Filter(front, keep) + [x] else Filter(front, keep)
  {
    assert (front + [x])[..|front|] == front;
  }

  lemma StableFilterStep<T>(front: seq<T>, x: T, keep: T -> bool, at: seq<nat>)
    requires StableFilter(Filter(front, keep), front, keep, at)
    ensures StableFilter(Filter(front + [x], keep), front + [x], keep, if keep(x) then at + [|front|] else at)
  {
    FilterPush(front, x, keep);
    StableFilterPush(Filter(front, keep), front, x, keep, at);
  }

  /** A filter is stable: what survives is exactly what is kept, read at increasing positions. */
  lemma {:induction false} FilterIsStable<T>(xs: seq<T>, keep: T -> bool) returns (at: seq<nat>)
    ensures StableFilter(Filter(xs, keep), xs, keep, at)
  {
    if xs == [] {
      return [];
    }
    var front, x := xs[..|xs| - 1], xs[|xs| - 1];
    assert xs == front + [x];
    at := FilterIsStable(front, keep);
    StableFilterStep(front, x, keep, at);
    if keep(x) {
      at := at + [|front|];
    }
  }

  lemma {:induction false} FilterConcat<T>(a: seq<T>, b: seq<T>, keep: T -> bool)
    ensures Filter(a + b, keep) == Filter(a, keep) + Filter(b, keep)
  {
    if b == [] {
      assert a + b == a;
    } else {
      assert (a + b)[..|a + b| - 1] == a + b[..|b| - 1];
      FilterConcat(a, b[..|b| - 1], keep);
    }
  }

  lemma {:induction false} FilterMembers<T>(xs: seq<T>, keep: T -> bool)
    ensures forall x :: x in Filter(xs, keep) <==> x in xs && keep(x)
    ensures (forall x :: x in xs ==> keep(x)) ==> Filter(xs, keep) == xs
  {
    if xs != [] {
      assert xs == xs[..|xs| - 1] + [xs[|xs| - 1]];
      FilterMembers(xs[..|xs| - 1], keep);
    }
  }

  lemma {:induction false} FilterNone<T>(xs: seq<T>, keep: T -> bool)
    requires forall x :: x in xs ==> !keep(x)
    ensures Filter(xs, keep) == []
  {
    if xs != [] {
      FilterNone(xs[..|xs| - 1], keep);
    }
  }

  lemma {:induction false} FilterAgrees<T>(xs: seq<T>, keep: T -> bool, keep': T -> bool)
    requires forall x :: x in xs ==> keep(x) == keep'(x)
    ensures Filter(xs, keep) == Filter(xs, keep')
  {
    if xs != [] {
      FilterAgrees(xs[..|xs| - 1], keep, keep');
    }
  }

  function Room<T>(rows: seq<T>, more: seq<T>, capacity: nat): (n: nat)
    ensures n <= |more|
  {
    if |rows| + |more| <= capacity then |more| else if |rows| <= capacity then capacity - |rows| else 0
  }

  lemma {:induction false} AppendAllTakesWhatFits<T>(rows: seq<T>, more: seq<T>, capacity: nat)
    ensures AppendAll(rows, more, capacity) == rows + more[..Room(rows, more, capacity)]
    decreases |more|
  {
    if more != [] {
      AppendAllTakesWhatFits(Append(rows, more[0], capacity), more[1..], capacity);
    }
  }

  /** A reload that drops at least the file rules keeps the others in order, followed by the file's rules
      up to capacity. */
  lemma ReloadKeepsOthersThenFile<B>(rows: seq<Rule<B>>, keep: Rule<B> -> bool, file: seq<B>, capacity: nat)
    requires forall r: Rule<B> :: r.source == File ==> !keep(r)
    ensures Reloaded(rows, keep, file, capacity)
         == Filter(rows, keep) + FromFile(file)[..Room(Filter(rows, keep), FromFile(file), capacity)]
    ensures Filter(Reloaded(rows, keep, file, capacity), keep) == Filter(rows, keep)
  {
    var kept := Filter(rows, keep);
    var added := FromFile(file)[..Room(kept, FromFile(file), capacity)];
    AppendAllTakesWhatFits(kept, FromFile(file), capacity);
    FilterConcat(kept, added, keep);
    FilterMembers(rows, keep);
    FilterMembers(kept, keep);
    FilterNone(added, keep);
  }

  /** Reloading the same file again changes nothing. */
  lemma ReloadTwice<B>(rows: seq<Rule<B>>, keep: Rule<B> -> bool, file: seq<B>, capacity: nat)
    requires forall r: Rule<B> :: r.source == File ==> !keep(r)
    ensures Reloaded(Reloaded(rows, keep, file, capacity), keep, file, capacity) == Reloaded(rows, keep, file, capacity)
  {
    ReloadKeepsOthersThenFile(rows, keep, file, capacity);
  }

  /** Adding one by one takes the longest front that fits. */
  lemma AppendAllIsFront<T>(rows: seq<T>, more: seq<T>, capacity: nat)
    requires |rows| <= capacity
    ensures AppendAll(rows, more, capacity)
         == if |rows| + |more| <= capacity then rows + more else (rows + more)[..capacity]
  {
    AppendAllTakesWhatFits(rows, more, capacity);
  }

  /** `after` holds the rules of `before` that are kept, read at the increasing positions `at`, and then the file's
      rules as far as there is room. */
  ghost predicate IsReload<B>(before: seq<Rule<B>>, keep: Rule<B> -> bool, file: seq<B>, capacity: nat,
                              after: seq<Rule<B>>, at: seq<nat>)
  {
    && |at| <= |after| && StableFilter(after[..|at|], before, keep, at)
    && |after| == (if |at| + |file| <= capacity then |at| + |file| else capacity)
    && forall i :: |at| <= i < |after| ==> i - |at| < |file| && after[i] == Rule(file[i - |at|], File)
  }

  lemma ReloadedIsReload<B>(rows: seq<Rule<B>>, keep: Rule<B> -> bool, file: seq<B>, capacity: nat)
    returns (at: seq<nat>)
    requires |rows| <= capacity
    ensures IsReload(rows, keep, file, capacity, Reloaded(rows, keep, file, capacity), at)
  {
    at := FilterIsStable(rows, keep);
    var kept, after := Filter(rows, keep), Reloaded(rows, keep, file, capacity);
    FrontAndFile(kept, file, capacity, after);
    IsReloadFrom(rows, keep, file, capacity, after, kept, at);
  }

  lemma IsReloadFrom<B>(rows: seq<Rule<B>>, keep: Rule<B> -> bool, file: seq<B>, capacity: nat, after: seq<Rule<B>>,
                        kept: seq<Rule<B>>, at: seq<nat>)
    requires |kept| <= |after| && after[..|kept|] == kept && StableFilter(kept, rows, keep, at)
    requires |after| == (if |kept| + |file| <= capacity then |kept| + |file| else capacity)
    requires forall i :: |kept| <= i < |after| ==> i - |kept| < |file| && after[i] == Rule(file[i - |kept|], File)
    ensures IsReload(rows, keep, file, capacity, after, at)
  {
    assert |at| == |kept|;
  }

  lemma FrontAndFile<B>(kept: seq<Rule<B>>, file: seq<B>, capacity: nat, after: seq<Rule<B>>)
    requires |kept| <= capacity && after == AppendAll(kept, FromFile(file), capacity)
    ensures |after| == (if |kept| + |file| <= capacity then |kept| + |file| else capacity)
    ensures |kept| <= |after| && after[..|kept|] == kept
    ensures forall i :: |kept| <= i < |after| ==> i - |kept| < |file| && after[i] == Rule(file[i - |kept|], File)
  {
    AppendAllIsFront(kept, FromFile(file), capacity);
  }

  // ---- the table ----

  class Table<B(0)> {
    const rows: array<Rule<B>>
    var count: nat

    ghost predicate Valid()
      reads this
    {
      count <= rows.Length
    }

    ghost function Contents(): seq<Rule<B>>
      requires Valid()
      reads this, rows
    {
      rows[..count]
    }

    constructor (capacity: nat)
      ensures Valid() && fresh(rows)
      ensures Contents() == [] && rows.Length == capacity
    {
      rows := new Rule<B>[capacity];
      count := 0;
    }

    method Add(body: B, source: RuleSource) returns (added: bool)
      requires Valid()
      modifies this, rows
      ensures Valid()
      ensures added <==> |old(Contents())| < rows.Length
      ensures Contents() == Append(old(Contents()), Rule(body, source), rows.Length)
    {
      if count >= rows.Length {
        return false;
      }
      rows[count] := Rule(body, source);
      count := count + 1;
      return true;
    }

    method ClearRules(source: RuleSource)
      requires Valid()
      modifies this, rows
      ensures Valid()
      ensures Contents() == Without(old(Contents()), source)
    {
      ghost var was := rows[..count];
      var write := 0;
      for i := 0 to count
        invariant write <= i && count == |was|
        invariant rows[..write] == Without(was[..i], source)
        invariant forall k :: i <= k < count ==> rows[k] == was[k]
      {
        assert was[..i + 1][..i] == was[..i];
        if rows[i].source != source {
          if i != write {
            rows[write] := rows[i];
          }
          write := write + 1;
        }
      }
      count := write;
      assert was[..|was|] == was;
    }

    /** Append the rules parsed out of a file. */
    method Load(file: seq<B>) returns (loaded: nat)
      requires Valid()
      modifies this, rows
      ensures Valid()
      ensures Contents() == AppendAll(old(Contents()), FromFile(file), rows.Length)
      ensures loaded == |Contents()| - |old(Contents())|
    {
      loaded := 0;
      ghost var all := FromFile(file);
      ghost var kept := Contents();
      for i := 0 to |file|
        invariant Valid()
        invariant |Contents()| == |kept| + loaded
        invariant AppendAll(Contents(), all[i..], rows.Length) == AppendAll(kept, all, rows.Length)
      {
        assert all[i..][1..] == all[i + 1..];
        var added := Add(file[i], File);
        if added {
          loaded := loaded + 1;
        }
      }
    }
  }
}
