/** The intent table, token and alias stages (components/rule-engine/intent, tokens, alias). */
module Stages {
  import opened CStrings
  import opened Scan
  import opened RuleTables

  // ---- intent table: exact match, ignoring case ----

  function SameQuery(query: string): Rule<IntentRule> -> bool {
    (r: Rule<IntentRule>) => Lower(r.body.query) == Lower(query)
  }

  function IntentResult(row: IntentRule): MatchResult {
    MatchResult(row.intent, Cut(row.target, MAX_TARGET_LEN - 1), Cut(row.action, MAX_ACTION_LEN - 1), 0.99,
                IntentTable, Cut(row.query, MAX_TOKEN_LEN - 1))
  }

  function IntentStage(rows: seq<Rule<IntentRule>>, query: string): Option<MatchResult> {
    var hit := FirstWhere(rows, SameQuery(query), 0);
    if hit.Some? then Some(IntentResult(rows[hit.value].body)) else None
  }

  method IntentAdd(t: Table<IntentRule>, query: string, intent: Intent, target: string, action: string,
                   source: RuleSource)
    returns (added: bool)
    requires t.Valid()
    modifies t, t.rows
    ensures t.Valid()
    ensures added <==> |old(t.Contents())| < t.rows.Length
    ensures t.Contents() == Append(old(t.Contents()), Rule(IntentRow(query, intent, target, action), source),
                                   t.rows.Length)
    ensures added ==> t.Contents() == old(t.Contents())
                                      + [Rule(IntentRule(Cut(query, 2047), intent, Cut(target, 255), Cut(action, 127)),
                                              source)]
  {
    added := t.Add(IntentRow(query, intent, target, action), source);
  }

  function IntentRow(query: string, intent: Intent, target: string, action: string): IntentRule {
    IntentRule(Cut(query, MAX_QUERY_LEN - 1), intent, Cut(target, MAX_TARGET_LEN - 1), Cut(action, MAX_ACTION_LEN - 1))
  }

  method IntentLookup(t: Table<IntentRule>, query: string) returns (found: bool, result: MatchResult)
    requires t.Valid()
    ensures found <==> IntentStage(t.Contents(), query).Some?
    ensures result == if found then IntentStage(t.Contents(), query).value else NO_MATCH
  {
    result := NO_MATCH;
    var lowered := Lower(query);
    for i := 0 to t.count
      invariant FirstWhere(t.Contents(), SameQuery(query), i) == FirstWhere(t.Contents(), SameQuery(query), 0)
    {
      if lowered == Lower(t.rows[i].body.query) {
        return true, IntentResult(t.rows[i].body);
      }
    }
    return false, result;
  }

  /** The earliest rule whose query is this one but for case answers, with its own fields; the stage misses exactly when
      there is none. */
  lemma IntentStagePicksFirst(rows: seq<Rule<IntentRule>>, query: string)
    ensures IntentStage(rows, query) == None <==>
              forall i :: 0 <= i < |rows| ==> !SameButCase(rows[i].body.query, query)
    ensures forall i: nat :: i < |rows| && SameButCase(rows[i].body.query, query)
              && (forall j :: 0 <= j < i ==> !SameButCase(rows[j].body.query, query))
              ==> var row := rows[i].body;
                  IntentStage(rows, query) == Some(MatchResult(row.intent, Cut(row.target, 255), Cut(row.action, 127),
                                                               0.99, IntentTable, Cut(row.query, 127)))
  {
    forall i | 0 <= i < |rows|
      ensures SameQuery(query)(rows[i]) <==> SameButCase(rows[i].body.query, query)
    {
      LowerIff(rows[i].body.query, query);
    }
  }

  // ---- tokens: the best-scoring token contained in the query ----

  function TokenScore(row: TokenRule): int {
    row.weight + |row.token|
  }

  function TokenKey(row: TokenRule, query: string): Option<real> {
    if StrStr(Lower(query), Lower(row.token)).Some? then Some(TokenScore(row) as real) else None
  }

  function TokenKeys(rows: seq<Rule<TokenRule>>, query: string): seq<Option<real>> {
    seq(|rows|, i requires 0 <= i < |rows| => TokenKey(rows[i].body, query))
  }

  function TokenConfidence(score: int): real
    requires score > 0
  {
    score as real / (score + 10) as real
  }

  function TokenResult(row: TokenRule, query: string): MatchResult
    requires TokenScore(row) > 0
  {
    MatchResult(row.intent, Cut(query, MAX_TARGET_LEN - 1), Cut(row.token, MAX_ACTION_LEN - 1),
                TokenConfidence(TokenScore(row)), Token, Cut(row.token, MAX_TOKEN_LEN - 1))
  }

  function TokenStage(rows: seq<Rule<TokenRule>>, query: string): Option<MatchResult> {
    var best := FirstBest(TokenKeys(rows, query), 0.0);
    if best.Some? then Some(TokenResult(rows[best.value].body, query)) else None
  }

  method TokensLookup(t: Table<TokenRule>, query: string) returns (found: bool, result: MatchResult)
    requires t.Valid()
    ensures found <==> TokenStage(t.Contents(), query).Some?
    ensures result == if found then TokenStage(t.Contents(), query).value else NO_MATCH
  {
    var bestIdx, bestScore := -1, 0;
    result := NO_MATCH;
    var lowered := Lower(query);
    ghost var keys := TokenKeys(t.Contents(), query);
    for i := 0 to t.count
      invariant Scanned(keys, i, 0.0, bestIdx, bestScore as real)
    {
      ScanOne(keys, i, 0.0, bestIdx, bestScore as real);
      if StrStr(lowered, Lower(t.rows[i].body.token)).Some? {
        var score := t.rows[i].body.weight + |t.rows[i].body.token|;
        if score > bestScore {
          bestScore := score;
          bestIdx := i;
        }
      }
    }
    ScanAll(keys, 0.0, bestIdx, bestScore as real);
    if bestIdx >= 0 {
      result := ReportToken(t.rows[bestIdx].body, bestScore, query);
    }
    return bestIdx >= 0, result;
  }

  method ReportToken(row: TokenRule, score: int, query: string) returns (result: MatchResult)
    requires score == TokenScore(row) > 0
    ensures result == TokenResult(row, query)
  {
    ConfidenceInRange(score);
    result := MatchResult(row.intent, "", Cut(row.token, MAX_ACTION_LEN - 1), score as real / (score + 10) as real,
                          Token, Cut(row.token, MAX_TOKEN_LEN - 1));
    if result.confidence > 1.0 {
      result := result.(confidence := 1.0);
    }
    if result.target == "" {
      result := result.(target := Cut(query, MAX_TARGET_LEN - 1));
    }
  }

  lemma ConfidenceInRange(score: int)
    requires score > 0
    ensures 0.0 < TokenConfidence(score) < 1.0
  {
  }

  lemma Scale(a: real, b: real, c: real)
    requires c > 0.0
    ensures a <= b <==> a * c <= b * c
  {
  }

  lemma Grow(q: real, x: real, y: real)
    requires x < y
    ensures q > 0.0 ==> q * x < q * y
  {
  }

  lemma LargerDivisor(x: real, y: real)
    requires 0.0 < x < y
    ensures 10.0 / y < 10.0 / x
  {
    var p, q := 10.0 / x, 10.0 / y;
    assert p * x == 10.0 == q * y;
    Scale(p, q, x);
    Grow(q, x, y);
  }

  /** Confidence rises strictly with the score. */
  lemma ConfidenceRises(low: int, high: int)
    requires 0 < low < high
    ensures TokenConfidence(low) < TokenConfidence(high)
  {
    OneMinus(low);
    OneMinus(high);
    LargerDivisor((low + 10) as real, (high + 10) as real);
  }

  lemma OneMinus(score: int)
    requires score > 0
    ensures TokenConfidence(score) == 1.0 - 10.0 / (score + 10) as real
  {
    var d := (score + 10) as real;
    assert score as real / d == (d - 10.0) / d;
  }

  /** `best` is the earliest of the tokens found in the query, case ignored, whose weight and length add up to most. */
  ghost predicate TokenWins(rows: seq<Rule<TokenRule>>, query: string, best: nat) {
    && best < |rows| && StrStr(Lower(query), Lower(rows[best].body.token)).Some?
    && rows[best].body.weight + |rows[best].body.token| > 0
    && forall j :: 0 <= j < |rows| && StrStr(Lower(query), Lower(rows[j].body.token)).Some?
         ==> var score := rows[j].body.weight + |rows[j].body.token|;
             var most := rows[best].body.weight + |rows[best].body.token|;
             if j < best then score < most else score <= most
  }

  lemma TokenWinsIs(rows: seq<Rule<TokenRule>>, query: string, best: nat)
    requires IsEarliestMaximum(TokenKeys(rows, query), 0.0, best)
    ensures TokenWins(rows, query, best)
  {
    var keys := TokenKeys(rows, query);
    forall j | 0 <= j < |rows| && StrStr(Lower(query), Lower(rows[j].body.token)).Some?
      ensures keys[j] == Some((rows[j].body.weight + |rows[j].body.token|) as real)
    {
    }
  }

  /** The stage answers with the earliest of the highest-scoring tokens found in the query, and
      misses exactly when none of those has a positive score. */
  lemma TokenStagePicksBest(rows: seq<Rule<TokenRule>>, query: string)
    ensures TokenStage(rows, query) == None <==>
              forall i :: 0 <= i < |rows| && StrStr(Lower(query), Lower(rows[i].body.token)).Some?
                ==> rows[i].body.weight + |rows[i].body.token| <= 0
    ensures TokenStage(rows, query).Some? ==>
              exists best: nat :: TokenWins(rows, query, best)
                && var row := rows[best].body;
                   var score := row.weight + |row.token|;
                   TokenStage(rows, query).value
                     == MatchResult(row.intent, Cut(query, 255), Cut(row.token, 127),
                                    score as real / (score + 10) as real, Token, Cut(row.token, 127))
  {
    var keys := TokenKeys(rows, query);
    FirstBestIsEarliestMaximum(keys, 0.0);
    assert forall i :: 0 <= i < |rows| ==> keys[i] == TokenKey(rows[i].body, query);
    var best := FirstBest(keys, 0.0);
    if best.Some? {
      TokenWinsIs(rows, query, best.value);
    }
  }

  /** The score of the chosen token is at least that of every other. */
  lemma ChosenScore(rows: seq<Rule<TokenRule>>, query: string, i: nat) returns (score: int)
    requires TokenStage(rows, query).Some? && i < |rows| && TokenKey(rows[i].body, query).Some?
    ensures score > 0 && TokenScore(rows[i].body) <= score
    ensures TokenStage(rows, query).value.confidence == TokenConfidence(score)
  {
    var keys := TokenKeys(rows, query);
    FirstBestIsEarliestMaximum(keys, 0.0);
    var best := FirstBest(keys, 0.0).value;
    assert IsEarliestMaximum(keys, 0.0, best);
    assert keys[i].value <= keys[best].value;
    score := TokenScore(rows[best].body);
  }

  /** If the chosen token fails a threshold, so does every other token of positive score in the query. */
  lemma RejectedTokenSpeaksForAll(rows: seq<Rule<TokenRule>>, query: string, threshold: real, i: nat)
    requires TokenStage(rows, query).Some? && TokenStage(rows, query).value.confidence < threshold
    requires i < |rows| && StrStr(Lower(query), Lower(rows[i].body.token)).Some?
    requires rows[i].body.weight + |rows[i].body.token| > 0
    ensures var score := rows[i].body.weight + |rows[i].body.token|;
            score as real / (score + 10) as real < threshold
  {
    var best := ChosenScore(rows, query, i);
    if TokenScore(rows[i].body) < best {
      ConfidenceRises(TokenScore(rows[i].body), best);
    }
  }

  // ---- aliases: the first alias whose first occurrence in the query stands between spaces ----

  predicate BoundedAt(query: string, word: string, k: nat)
    requires OccursAt(query, word, k)
  {
    && (k == 0 || query[k - 1] == ' ')
    && (k + |word| == |query| || query[k + |word|] == ' ')
  }

  function NamesAlias(query: string): Rule<AliasRule> -> bool {
    (r: Rule<AliasRule>) => FirstIsWord(Lower(query), Lower(r.body.name))
  }

  /** The word's first occurrence stands between spaces or the ends of the query. */
  predicate FirstIsWord(query: string, word: string) {
    var found := StrStr(query, word);
    found.Some? && BoundedAt(query, word, found.value)
  }

  function AliasResult(row: AliasRule): MatchResult {
    MatchResult(UNKNOWN, Cut(row.canonical, MAX_TARGET_LEN - 1), "", 0.85, Alias, Cut(row.name, MAX_TOKEN_LEN - 1))
  }

  function AliasStage(rows: seq<Rule<AliasRule>>, query: string): Option<MatchResult> {
    var hit := FirstWhere(rows, NamesAlias(query), 0);
    if hit.Some? then Some(AliasResult(rows[hit.value].body)) else None
  }

  method AliasResolve(t: Table<AliasRule>, query: string) returns (found: bool, result: MatchResult)
    requires t.Valid()
    ensures found <==> AliasStage(t.Contents(), query).Some?
    ensures result == if found then AliasStage(t.Contents(), query).value else NO_MATCH
  {
    result := NO_MATCH;
    var lowered := Lower(query);
    for i := 0 to t.count
      invariant FirstWhere(t.Contents(), NamesAlias(query), i) == FirstWhere(t.Contents(), NamesAlias(query), 0)
    {
      var named := IsNamed(lowered, Lower(t.rows[i].body.name));
      if named {
        return true, AliasResult(t.rows[i].body);
      }
    }
    return false, result;
  }

  method IsNamed(lowered: string, name: string) returns (named: bool)
    ensures named <==> FirstIsWord(lowered, name)
  {
    var at := StrStr(lowered, name);
    if at.None? { return false; }
    var before := at.value;
    return (before == 0 || lowered[before - 1] == ' ')
           && (before + |name| == |lowered| || lowered[before + |name|] == ' ');
  }

  /** The word stands between these texts, each empty or with a space next to the word. */
  ghost predicate WordBetween(query: string, before: string, word: string, after: string) {
    && query == before + word + after
    && (before == "" || before[|before| - 1] == ' ') && (after == "" || after[0] == ' ')
  }

  ghost predicate IsWordOf(query: string, word: string) {
    exists before, after :: WordBetween(query, before, word, after)
  }

  lemma BoundedIff(query: string, word: string, k: nat)
    requires OccursAt(query, word, k)
    ensures BoundedAt(query, word, k) <==> WordBetween(query, query[..k], word, query[k + |word|..])
  {
    assert query == query[..k] + word + query[k + |word|..];
  }

  lemma WordOccurs(query: string, before: string, word: string, after: string)
    requires WordBetween(query, before, word, after)
    ensures OccursAt(query, word, |before|) && BoundedAt(query, word, |before|)
  {
    assert query[|before|..|before| + |word|] == word;
    assert query[..|before|] == before && query[|before| + |word|..] == after;
    BoundedIff(query, word, |before|);
  }

  /** The first alias named in the query answers, and only a word of the query is named; the stage misses exactly when
      none is named. */
  lemma AliasIsWord(rows: seq<Rule<AliasRule>>, query: string)
    ensures AliasStage(rows, query) == None <==> forall i :: 0 <= i < |rows| ==> !NamesAlias(query)(rows[i])
    ensures AliasStage(rows, query).Some? ==>
              exists i: nat :: i < |rows| && IsWordOf(Lower(query), Lower(rows[i].body.name))
                && (NamesAlias(query)(rows[i]) && forall j :: 0 <= j < i ==> !NamesAlias(query)(rows[j]))
                && AliasStage(rows, query).value
                   == MatchResult(30, Cut(rows[i].body.canonical, 255), "", 0.85, Alias, Cut(rows[i].body.name, 127))
  {
    var hit := FirstWhere(rows, NamesAlias(query), 0);
    if hit.Some? {
      var i := hit.value;
      AliasResolvesExactly(rows[i], query);
    }
  }

  /** The converse fails: a word that first occurs inside a longer word is missed. */
  lemma AliasMissesLaterWord()
    ensures IsWordOf(Lower("foxy fox"), Lower("fox"))
    ensures AliasStage([Rule(AliasRule("fox", "firefox"), Builtin)], "foxy fox") == None
  {
    var query := Lower("foxy fox");
    assert query == "foxy fox" && Lower("fox") == "fox";
    assert WordBetween(query, "foxy ", "fox", "");
    assert OccursAt(query, "fox", 0) && !BoundedAt(query, "fox", 0);
  }

  /** An occurrence at j inside a longer word precedes every occurrence as a word. */
  ghost predicate PartBefore(query: string, word: string, j: nat) {
    && OccursAt(query, word, j)
    && ((j > 0 && query[j - 1] != ' ') || (j + |word| < |query| && query[j + |word|] != ' '))
    && forall before, after :: WordBetween(query, before, word, after) ==> j < |before|
  }

  ghost predicate PartComesFirst(query: string, word: string) {
    exists j: nat :: PartBefore(query, word, j)
  }

  /** Exactly then is an alias that is a word of the query missed. */
  lemma AliasResolvesExactly(row: Rule<AliasRule>, query: string)
    ensures NamesAlias(query)(row) <==>
              IsWordOf(Lower(query), Lower(row.body.name)) && !PartComesFirst(Lower(query), Lower(row.body.name))
  {
    FirstIsWordIff(Lower(query), Lower(row.body.name));
  }

  lemma FirstIsWordIff(query: string, word: string)
    ensures FirstIsWord(query, word) <==> IsWordOf(query, word) && !PartComesFirst(query, word)
  {
    var found := StrStr(query, word);
    forall before, after | WordBetween(query, before, word, after)
      ensures found.Some? && found.value <= |before| && BoundedAt(query, word, |before|)
    {
      WordOccurs(query, before, word, after);
    }
    if found.Some? {
      var k := found.value;
      BoundedIff(query, word, k);
      if BoundedAt(query, word, k) {
        assert WordBetween(query, query[..k], word, query[k + |word|..]);
      } else {
        assert PartBefore(query, word, k);
      }
    }
  }
}
