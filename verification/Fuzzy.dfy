/** Fuzzy matching by edit distance (components/rule-engine/fuzzy/fuzzy.c). */
module Fuzzy {
  import opened CStrings
  import opened EditDistance
  import opened RuleTables
  import opened Scan

  const LONGEST: nat := 126

  /** The bytes the table looks at: lengths of 127 and more are taken as 126. */
  function Seen(s: string): string {
    if |s| >= 127 then s[..LONGEST] else s
  }

  /** The cell of row i and column j: the distance between the first i and the first j bytes. */
  ghost function Cell(s1: string, s2: string, i: nat, j: nat): nat
    requires i <= |s1| && j <= |s2|
  {
    Dist(s1[..i], s2[..j])
  }

  lemma Recurrence(s1: string, s2: string, i: nat, j: nat)
    requires 0 < i <= |s1| && 0 < j <= |s2|
    ensures Cell(s1, s2, i, j) == Min(Min(Cell(s1, s2, i - 1, j) + 1, Cell(s1, s2, i, j - 1) + 1),
                                      Cell(s1, s2, i - 1, j - 1) + Cost(s1[i - 1], s2[j - 1]))
  {
    assert Init(s1[..i]) == s1[..i - 1] && Init(s2[..j]) == s2[..j - 1];
  }

  ghost predicate RowsFilled(m: array2<int>, s1: string, s2: string, rows: nat, len2: nat)
    requires rows <= |s1| + 1 && len2 <= |s2|
    requires rows <= m.Length0 && len2 < m.Length1
    reads m
  {
    forall k, l :: 0 <= k < rows && 0 <= l <= len2 ==> m[k, l] == Cell(s1, s2, k, l)
  }

  method Levenshtein(s1: string, s2: string) returns (d: nat)
    ensures d == Dist(Seen(s1), Seen(s2))
  {
    var len1, len2 := |s1|, |s2|;
    var matrix := new int[128, 128];
    if len1 >= 127 { len1 := 126; }
    if len2 >= 127 { len2 := 126; }
    for i := 0 to len1 + 1
      invariant forall k :: 0 <= k < i ==> matrix[k, 0] == k
    {
      matrix[i, 0] := i;
    }
    for j := 0 to len2 + 1
      invariant forall k :: 0 <= k <= len1 ==> matrix[k, 0] == k
      invariant forall k :: 0 <= k < j ==> matrix[0, k] == k
    {
      matrix[0, j] := j;
    }
    for i := 1 to len1 + 1
      invariant RowsFilled(matrix, s1, s2, i, len2)
      invariant forall k :: i <= k <= len1 ==> matrix[k, 0] == k
    {
      for j := 1 to len2 + 1
        invariant RowsFilled(matrix, s1, s2, i, len2)
        invariant forall l :: 0 <= l < j ==> matrix[i, l] == Cell(s1, s2, i, l)
        invariant forall k :: i < k <= len1 ==> matrix[k, 0] == k
      {
        var cost := if s1[i - 1] == s2[j - 1] then 0 else 1;
        var del := matrix[i - 1, j] + 1;
        var ins := matrix[i, j - 1] + 1;
        var sub := matrix[i - 1, j - 1] + cost;
        var min_val := del;
        if ins < min_val { min_val := ins; }
        if sub < min_val { min_val := sub; }
        Recurrence(s1, s2, i, j);
        matrix[i, j] := min_val;
      }
    }
    assert s1[..len1] == Seen(s1) && s2[..len2] == Seen(s2);
    return matrix[len1, len2];
  }

  /** The computed distance is symmetric and satisfies the triangle inequality on all strings. It is zero
      exactly when the bytes looked at agree, which for strings of at most 126 bytes means equality. */
  lemma DistanceIsMetric(a: string, b: string, c: string)
    ensures Dist(Seen(a), Seen(b)) == Dist(Seen(b), Seen(a))
    ensures Dist(Seen(a), Seen(c)) <= Dist(Seen(a), Seen(b)) + Dist(Seen(b), Seen(c))
    ensures Dist(Seen(a), Seen(b)) == 0 <==> Cut(a, 126) == Cut(b, 126)
    ensures |a| <= 126 && |b| <= 126 ==> (Dist(Seen(a), Seen(b)) == 0 <==> a == b)
  {
    DistSymmetric(Seen(a), Seen(b));
    DistTriangle(Seen(a), Seen(b), Seen(c));
    DistZero(Seen(a), Seen(b));
  }

  // ---- similarity ----

  function Longer(a: string, b: string): nat {
    if |b| > |a| then |b| else |a|
  }

  function Similarity(a: string, b: string): real {
    if Longer(a, b) == 0 then 1.0 else 1.0 - Dist(Seen(a), Seen(b)) as real / Longer(a, b) as real
  }

  method ComputeSimilarity(a: string, b: string) returns (sim: real)
    ensures sim == Similarity(a, b)
  {
    var maxLen := |a|;
    if |b| > maxLen { maxLen := |b|; }
    if maxLen == 0 { return 1.0; }
    var dist := Levenshtein(a, b);
    return 1.0 - dist as real / maxLen as real;
  }

  lemma Ratio(d: nat, n: nat)
    requires d <= n && n > 0
    ensures 0.0 <= 1.0 - d as real / n as real <= 1.0
    ensures 1.0 - d as real / n as real == 1.0 <==> d == 0
  {
  }

  /** Similarity lies between 0 and 1, and is 1 exactly when the first 126 bytes agree
      (for strings of at most 126 bytes: when they are equal). */
  lemma SimilarityRange(a: string, b: string)
    ensures 0.0 <= Similarity(a, b) <= 1.0
    ensures Similarity(a, b) == 1.0 <==> Cut(a, 126) == Cut(b, 126)
    ensures |a| <= 126 && |b| <= 126 ==> (Similarity(a, b) == 1.0 <==> a == b)
  {
    if Longer(a, b) > 0 {
      DistBounds(Seen(a), Seen(b));
      DistZero(Seen(a), Seen(b));
      Ratio(Dist(Seen(a), Seen(b)), Longer(a, b));
    }
  }

  ghost predicate ShortestScript(a: string, b: string, n: nat) {
    (exists script :: Turns(script, a, b) && |script| == n) && forall script :: Turns(script, a, b) ==> n <= |script|
  }

  lemma DistOfShortest(a: string, b: string, n: nat)
    requires ShortestScript(a, b, n)
    ensures Dist(a, b) == n
  {
    DistIsShortestScript(a, b, n);
  }

  /** Similarity is one minus the length of a shortest edit script between the first 126 bytes over the longer length.
      */
  lemma SimilarityByScripts(a: string, b: string, n: nat)
    requires ShortestScript(Cut(a, 126), Cut(b, 126), n)
    ensures a == b == "" ==> Similarity(a, b) == 1.0
    ensures |a| >= |b| && a != "" ==> Similarity(a, b) == 1.0 - n as real / |a| as real
    ensures |b| >= |a| && b != "" ==> Similarity(a, b) == 1.0 - n as real / |b| as real
  {
    DistOfShortest(Cut(a, 126), Cut(b, 126), n);
  }

  /** The limit is real: two different strings of 127 bytes with similarity 1. */
  lemma LongStringsCollide()
    ensures exists a: string, b: string :: a != b && Similarity(a, b) == 1.0
  {
    var x := seq(126, _ => 'x');
    var a, b := x + "a", x + "b";
    assert a[126] != b[126];
    assert Seen(a) == x && Seen(b) == x;
    SimilarityRange(a, b);
  }

  // ---- the match over the table ----

  function Sims(rows: seq<Rule<IntentRule>>, query: string): seq<real> {
    seq(|rows|, i requires 0 <= i < |rows| => Similarity(Lower(query), Lower(rows[i].body.query)))
  }

  /** Only similarities at or above the threshold are candidates. */
  function Gated(sims: seq<real>, threshold: real): seq<Option<real>> {
    seq(|sims|, i requires 0 <= i < |sims| => if sims[i] >= threshold then Some(sims[i]) else None)
  }

  lemma GatedBest(sims: seq<real>, threshold: real)
    ensures FirstBest(Gated(sims, threshold), 0.0) == None <==>
              forall i :: 0 <= i < |sims| && sims[i] > 0.0 ==> sims[i] < threshold
    ensures forall best: nat :: FirstBest(Gated(sims, threshold), 0.0) == Some(best) ==>
              best < |sims| && Gated(sims, threshold)[best] == Some(sims[best])
              && (forall j :: 0 <= j < |sims| ==> sims[j] <= sims[best])
              && (forall j :: 0 <= j < best ==> sims[j] < sims[best])
  {
    var keys := Gated(sims, threshold);
    FirstBestIsEarliestMaximum(keys, 0.0);
    var best := FirstBest(keys, 0.0);
    if best.Some? {
      assert IsEarliestMaximum(keys, 0.0, best.value);
      forall j | 0 <= j < |sims|
        ensures sims[j] <= sims[best.value] && (j < best.value ==> sims[j] < sims[best.value])
      {
        assert keys[j].Some? ==> keys[j].value <= keys[best.value].value;
      }
    } else {
      forall i | 0 <= i < |sims| && sims[i] > 0.0
        ensures sims[i] < threshold
      {
        assert keys[i].Some? ==> keys[i].value <= 0.0;
      }
    }
  }

  function FuzzyResult(row: IntentRule, sim: real): MatchResult {
    MatchResult(row.intent, Cut(row.target, MAX_TARGET_LEN - 1), Cut(row.action, MAX_ACTION_LEN - 1), sim,
                FuzzyTable, Cut(row.query, MAX_TOKEN_LEN - 1))
  }

  function FuzzyStage(rows: seq<Rule<IntentRule>>, query: string, threshold: real): Option<MatchResult> {
    var keys := Gated(Sims(rows, query), threshold);
    var best := FirstBest(keys, 0.0);
    if best.Some? then Some(FuzzyResult(rows[best.value].body, keys[best.value].value)) else None
  }

  lemma KeyAt(rows: seq<Rule<IntentRule>>, query: string, threshold: real, i: nat)
    requires i < |rows|
    ensures var sim := Similarity(Lower(query), Lower(rows[i].body.query));
            Gated(Sims(rows, query), threshold)[i] == if sim >= threshold then Some(sim) else None
  {
  }

  method FuzzyMatch(t: Table<IntentRule>, query: string, threshold: real) returns (found: bool, result: MatchResult)
    requires t.Valid()
    ensures found <==> FuzzyStage(t.Contents(), query, threshold).Some?
    ensures result == if found then FuzzyStage(t.Contents(), query, threshold).value else NO_MATCH
  {
    var bestSim, bestIdx := 0.0, -1;
    result := NO_MATCH;
    var lowered := Lower(query);
    ghost var keys := Gated(Sims(t.Contents(), query), threshold);
    for i := 0 to t.count
      invariant Scanned(keys, i, 0.0, bestIdx, bestSim)
    {
      ScanOne(keys, i, 0.0, bestIdx, bestSim);
      KeyAt(t.Contents(), query, threshold, i);
      var sim := ComputeSimilarity(lowered, Lower(t.rows[i].body.query));
      if sim > bestSim && sim >= threshold {
        bestSim := sim;
        bestIdx := i;
      }
    }
    ScanAll(keys, 0.0, bestIdx, bestSim);
    if bestIdx >= 0 {
      result := FuzzyResult(t.rows[bestIdx].body, bestSim);
    }
    return bestIdx >= 0, result;
  }

  /** `best` is the earliest entry of highest similarity, case ignored. */
  ghost predicate MostSimilar(rows: seq<Rule<IntentRule>>, query: string, best: nat) {
    && best < |rows|
    && forall j :: 0 <= j < |rows| ==>
         var sim, most := Similarity(Lower(query), Lower(rows[j].body.query)),
                          Similarity(Lower(query), Lower(rows[best].body.query));
         if j < best then sim < most else sim <= most
  }

  /** The stage succeeds exactly when some entry has positive similarity at or above the threshold,
      and answers with the earliest entry of highest similarity. */
  lemma FuzzyStagePicksMostSimilar(rows: seq<Rule<IntentRule>>, query: string, threshold: real)
    ensures FuzzyStage(rows, query, threshold).Some? <==>
              exists i :: 0 <= i < |rows| && Similarity(Lower(query), Lower(rows[i].body.query)) > 0.0
                && Similarity(Lower(query), Lower(rows[i].body.query)) >= threshold
    ensures FuzzyStage(rows, query, threshold).Some? ==>
              exists best: nat :: MostSimilar(rows, query, best)
                && var row := rows[best].body;
                   FuzzyStage(rows, query, threshold).value
                     == MatchResult(row.intent, Cut(row.target, 255), Cut(row.action, 127),
                                    Similarity(Lower(query), Lower(row.query)), FuzzyTable, Cut(row.query, 127))
  {
    var sims := Sims(rows, query);
    assert forall i :: 0 <= i < |rows| ==> sims[i] == Similarity(Lower(query), Lower(rows[i].body.query));
    GatedBest(sims, threshold);
    var best := FirstBest(Gated(sims, threshold), 0.0);
    assert best.Some? ==> MostSimilar(rows, query, best.value);
  }
}
