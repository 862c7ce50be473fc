/** The classifier's keyword fallback (components/intent-classifier/main.c). */
module Keywords {
  import opened CStrings
  import opened Scan

  const QUERY_LEN: nat := 2048
  const INTENT_LEN: nat := 64
  const TARGET_LEN: nat := 128

  datatype Keyword = Keyword(word: string, intent: string, target: string)

  datatype Classified = Classified(intent: string, target: string)

  function WordKey(k: Keyword, lowered: string): Option<real> {
    if StrStr(lowered, k.word).Some? then Some(|k.word| as real) else None
  }

  function WordKeys(table: seq<Keyword>, lowered: string): seq<Option<real>> {
    seq(|table|, i requires 0 <= i < |table| => WordKey(table[i], lowered))
  }

  function SkipBlanks(s: string): string {
    if s != "" && s[0] == ' ' then SkipBlanks(s[1..]) else s
  }

  /** Without a fixed target the rest of the query is the target. */
  function TargetAfter(k: Keyword, lowered: string): string {
    var at := StrStr(lowered, k.word);
    if k.target != "" then Cut(k.target, TARGET_LEN - 1)
    else if at.None? then ""
    else
      var rest := SkipBlanks(lowered[at.value + |k.word|..]);
      if rest != "" then Cut(rest, TARGET_LEN - 1) else "unknown"
  }

  function Classification(table: seq<Keyword>, query: string): Option<Classified> {
    var lowered := Lower(Cut(query, QUERY_LEN - 1));
    var best := FirstBest(WordKeys(table, lowered), 0.0);
    if best.Some? then
      Some(Classified(Cut(table[best.value].intent, INTENT_LEN - 1), TargetAfter(table[best.value], lowered)))
    else None
  }

  method LowerQuery(query: string) returns (lowered: string)
    ensures lowered == Lower(Cut(query, QUERY_LEN - 1))
  {
    lowered := "";
    var i := 0;
    while i < |query| && i < QUERY_LEN - 1
      invariant i <= |query| && i <= QUERY_LEN - 1 && |lowered| == i
      invariant forall k :: 0 <= k < i ==> lowered[k] == LowerChar(query[k])
    {
      lowered := lowered + [if 'A' <= query[i] <= 'Z' then (query[i] as int + 32) as char else query[i]];
      i := i + 1;
    }
  }

  method KeywordClassify(table: seq<Keyword>, query: string) returns (r: Option<Classified>)
    ensures r == Classification(table, query)
  {
    var lowered := LowerQuery(query);
    var bestIdx, bestLen := -1, 0;
    ghost var keys := WordKeys(table, lowered);
    for k := 0 to |table|
      invariant Scanned(keys, k, 0.0, bestIdx, bestLen as real)
    {
      ScanOne(keys, k, 0.0, bestIdx, bestLen as real);
      if StrStr(lowered, table[k].word).Some? {
        if |table[k].word| > bestLen {
          bestLen := |table[k].word|;
          bestIdx := k;
        }
      }
    }
    ScanAll(keys, 0.0, bestIdx, bestLen as real);
    if bestIdx < 0 { return None; }
    var target := FindTarget(table[bestIdx], lowered);
    return Some(Classified(Cut(table[bestIdx].intent, INTENT_LEN - 1), target));
  }

  method FindTarget(k: Keyword, lowered: string) returns (target: string)
    ensures target == TargetAfter(k, lowered)
  {
    if k.target != "" { return Cut(k.target, TARGET_LEN - 1); }
    var at := StrStr(lowered, k.word);
    if at.None? { return ""; }
    var pos := at.value + |k.word|;
    ghost var from := lowered[pos..];
    while pos < |lowered| && lowered[pos] == ' '
      invariant pos <= |lowered| && SkipBlanks(lowered[pos..]) == SkipBlanks(from)
    {
      pos := pos + 1;
    }
    if pos < |lowered| { return Cut(lowered[pos..], TARGET_LEN - 1); }
    return "unknown";
  }

  /** `query` is these texts in turn: the first occurrence of the keyword, then blanks, then the rest. */
  ghost predicate Parted(lowered: string, before: string, word: string, blanks: string, rest: string) {
    && lowered == before + word + (blanks + rest)
    && (forall k: nat :: k < |before| ==> !OccursAt(lowered, word, k))
    && (forall c :: c in blanks ==> c == ' ') && (rest == "" || rest[0] != ' ')
  }

  /** The keyword's own target, or else what follows its first occurrence, "unknown" when nothing does. */
  ghost predicate IsTarget(k: Keyword, lowered: string, target: string) {
    if k.target != "" then target == Cut(k.target, 127)
    else exists before, blanks, rest :: Parted(lowered, before, k.word, blanks, rest)
           && target == if rest == "" then "unknown" else Cut(rest, 127)
  }

  lemma {:induction false} BlanksSkipped(s: string) returns (blanks: string)
    ensures s == blanks + SkipBlanks(s) && (forall c :: c in blanks ==> c == ' ')
    ensures SkipBlanks(s) == "" || SkipBlanks(s)[0] != ' '
  {
    blanks := "";
    if s != "" && s[0] == ' ' {
      var more := BlanksSkipped(s[1..]);
      blanks := [s[0]] + more;
      Assoc([s[0]], more, SkipBlanks(s));
    }
  }

  lemma TargetIs(k: Keyword, lowered: string)
    requires StrStr(lowered, k.word).Some?
    ensures IsTarget(k, lowered, TargetAfter(k, lowered))
  {
    if k.target == "" {
      var at := StrStr(lowered, k.word).value;
      var blanks := PartedAt(lowered, k.word, at);
    }
  }

  lemma PartedAt(lowered: string, word: string, at: nat) returns (blanks: string)
    requires StrStr(lowered, word) == Some(at)
    ensures Parted(lowered, lowered[..at], word, blanks, SkipBlanks(lowered[at + |word|..]))
  {
    var behind := lowered[at + |word|..];
    blanks := BlanksSkipped(behind);
    InThree(lowered, word, at);
  }

  lemma InThree(s: string, word: string, at: nat)
    requires OccursAt(s, word, at)
    ensures s == s[..at] + word + s[at + |word|..]
  {
    assert s == s[..at] + s[at..at + |word|] + s[at + |word|..];
  }

  /** The winner is the earliest of the longest keywords in the query. */
  ghost predicate Wins(table: seq<Keyword>, lowered: string, best: nat) {
    && best < |table| && StrStr(lowered, table[best].word).Some? && table[best].word != ""
    && forall j :: 0 <= j < |table| && StrStr(lowered, table[j].word).Some?
         ==> if j < best then |table[j].word| < |table[best].word| else |table[j].word| <= |table[best].word|
  }

  lemma LongestKeywordWins(table: seq<Keyword>, query: string)
    ensures var lowered := Lower(Cut(query, 2047));
            && (Classification(table, query).None? <==>
                  forall j :: 0 <= j < |table| && StrStr(lowered, table[j].word).Some? ==> table[j].word == "")
            && (Classification(table, query).Some? ==>
                  exists best: nat :: Wins(table, lowered, best)
                    && Classification(table, query).value.intent == Cut(table[best].intent, 63)
                    && IsTarget(table[best], lowered, Classification(table, query).value.target))
  {
    var lowered := Lower(Cut(query, QUERY_LEN - 1));
    var keys := WordKeys(table, lowered);
    FirstBestIsEarliestMaximum(keys, 0.0);
    assert forall j :: 0 <= j < |table| ==> keys[j] == WordKey(table[j], lowered);
    var best := FirstBest(keys, 0.0);
    if best.Some? {
      assert IsEarliestMaximum(keys, 0.0, best.value);
      assert Wins(table, lowered, best.value);
      TargetIs(table[best.value], lowered);
    }
  }

  lemma OccursWithin(s: string, word: string, part: string, at: nat, k: nat)
    requires OccursAt(s, word, at) && OccursAt(word, part, k)
    ensures OccursAt(s, part, at + k)
  {
    assert forall i :: 0 <= i < |word| ==> s[at + i] == s[at..at + |word|][i] == word[i];
    assert forall i :: 0 <= i < |part| ==> word[k + i] == word[k..k + |part|][i] == part[i];
    assert s[at + k..at + k + |part|] == part;
  }

  lemma ProperPartIsShorter(word: string, part: string, k: nat)
    requires OccursAt(word, part, k) && part != word
    ensures |part| < |word|
  {
    assert word[..|word|] == word;
  }

  /** A keyword properly contained in another keyword of the query never wins, as "install" inside
      "uninstall"; and whenever the containing keyword is found, so is the contained one. */
  lemma ContainedKeywordNeverWins(table: seq<Keyword>, lowered: string, inner: nat, outer: nat)
    requires inner < |table| && outer < |table| && table[inner].word != table[outer].word
    requires StrStr(table[outer].word, table[inner].word).Some? && StrStr(lowered, table[outer].word).Some?
    ensures StrStr(lowered, table[inner].word).Some?
    ensures !Wins(table, lowered, inner)
  {
    var at, k := StrStr(lowered, table[outer].word).value, StrStr(table[outer].word, table[inner].word).value;
    OccursWithin(lowered, table[outer].word, table[inner].word, at, k);
    ProperPartIsShorter(table[outer].word, table[inner].word, k);
  }
}
