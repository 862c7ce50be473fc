/** A request's query: one pipeline run, or two when it joins two parts with a separator
    (split_query and the request case of components/rule-engine/main.c). */
module Requests {
  import opened CStrings
  import opened Cache
  import Pipeline

  /** The third one is spelled with a two-byte letter. */
  function Separators(): seq<string> {
    [" ve ", " & ", " h\U{C9}\U{99}m ", " hem ", " + "]
  }

  predicate Blank(s: string) {
    forall i :: 0 <= i < |s| ==> s[i] == ' '
  }

  function LeftTrim(s: string): (r: string)
    ensures |r| <= |s|
  {
    if s != "" && s[0] == ' ' then LeftTrim(s[1..]) else s
  }

  /** Never drops the first character. */
  function RightTrim(s: string): (r: string)
    ensures |r| <= |s|
  {
    if |s| > 1 && s[|s| - 1] == ' ' then RightTrim(s[..|s| - 1]) else s
  }

  function Trim(s: string): string {
    RightTrim(LeftTrim(s))
  }

  /** The index of the first separator from `from` on that occurs. */
  function FirstUsed(separators: seq<string>, query: string, from: nat): (r: Option<nat>)
    requires from <= |separators|
    ensures r.Some? ==> from <= r.value < |separators| && StrStr(query, separators[r.value]).Some?
    ensures forall k: nat :: from <= k < (if r.Some? then r.value else |separators|)
              ==> StrStr(query, separators[k]).None?
    decreases |separators| - from
  {
    if from == |separators| then None
    else if StrStr(query, separators[from]).Some? then Some(from)
    else FirstUsed(separators, query, from + 1)
  }

  /** What stands before and after `n` characters at `at`, trimmed. */
  function Sides(query: string, at: nat, n: nat): (sides: (string, string))
    requires at + n <= |query|
    ensures |sides.0| <= |query| && |sides.1| <= |query|
  {
    (Trim(query[..at]), Trim(query[at + n..]))
  }

  /** None when the query joins nothing; a pair of parts otherwise, either of which may be empty. */
  function Halves(separators: seq<string>, query: string): (r: Option<(string, string)>)
    ensures r.Some? ==> |r.value.0| <= |query| && |r.value.1| <= |query|
  {
    var used := FirstUsed(separators, query, 0);
    if used.None? then None
    else
      var sep := separators[used.value];
      Some(Sides(query, StrStr(query, sep).value, |sep|))
  }

  /** Both parts, or the whole query if it joins nothing or a part is empty. */
  function Parts(separators: seq<string>, query: string): (parts: seq<string>)
    ensures 1 <= |parts| <= 2
    ensures Query(query) ==> forall i :: 0 <= i < |parts| ==> Query(parts[i])
  {
    var halves := Halves(separators, query);
    if halves.Some? && halves.value.0 != "" && halves.value.1 != "" then [halves.value.0, halves.value.1] else [query]
  }

  /** The queries the pipeline is run on. */
  function Asked(query: string): seq<string> {
    Parts(Separators(), query)
  }

  // ---- what trimming means ----

  lemma {:induction false} LeftTrimmed(s: string) returns (before: string)
    ensures s == before + LeftTrim(s) && Blank(before)
    ensures LeftTrim(s) != "" ==> LeftTrim(s)[0] != ' '
  {
    before := "";
    if s != "" && s[0] == ' ' {
      var rest := LeftTrimmed(s[1..]);
      OneMoreBlank(s, rest, LeftTrim(s));
      before := [s[0]] + rest;
    }
  }

  lemma OneMoreBlank(s: string, before: string, core: string)
    requires s != "" && s[0] == ' ' && s[1..] == before + core && Blank(before)
    ensures s == [s[0]] + before + core && Blank([s[0]] + before)
  {
    Assoc([s[0]], before, core);
    assert s == [s[0]] + s[1..];
  }

  lemma {:induction false} RightTrimmed(s: string) returns (after: string)
    requires s != "" ==> s[0] != ' '
    ensures s == RightTrim(s) + after && Blank(after)
    ensures RightTrim(s) != "" ==> RightTrim(s)[0] != ' ' && RightTrim(s)[|RightTrim(s)| - 1] != ' '
  {
    after := "";
    if |s| > 1 && s[|s| - 1] == ' ' {
      after := RightTrimmed(s[..|s| - 1]);
      Assoc(RightTrim(s), after, " ");
      after := after + " ";
    }
  }

  /** `core` is `s` without the blanks around it. */
  ghost predicate IsCore(core: string, s: string, before: string, after: string) {
    && s == before + core + after && Blank(before) && Blank(after)
    && (core != "" ==> core[0] != ' ' && core[|core| - 1] != ' ')
  }

  lemma TrimIsCore(s: string) returns (before: string, after: string)
    ensures IsCore(Trim(s), s, before, after)
    ensures Trim(s) == "" <==> Blank(s)
  {
    before := LeftTrimmed(s);
    after := RightTrimmed(LeftTrim(s));
    Assoc(before, Trim(s), after);
    CoreOfBlank(Trim(s), s, before, after);
  }

  lemma CoreOfBlank(core: string, s: string, before: string, after: string)
    requires IsCore(core, s, before, after)
    ensures core == "" <==> Blank(s)
  {
    if core != "" {
      assert s[|before|] == core[0];
    }
  }

  lemma LettersAreInside(core: string, s: string, before: string, after: string, k: nat)
    requires IsCore(core, s, before, after) && k < |s|
    ensures s[k] != ' ' ==> |before| <= k < |before| + |core|
  {
  }

  lemma EndsAreInside(core: string, s: string, before: string, after: string, other: string, before': string,
                      after': string)
    requires IsCore(core, s, before, after) && IsCore(other, s, before', after') && other != ""
    ensures |before| <= |before'| && |before'| + |other| <= |before| + |core|
  {
    LettersAreInside(core, s, before, after, |before'|);
    LettersAreInside(core, s, before, after, |before'| + |other| - 1);
  }

  /** Only one text is `s` without the blanks around it. */
  lemma OnlyTrimIsCore(core: string, s: string, before: string, after: string)
    requires IsCore(core, s, before, after) && !Blank(s)
    ensures core == Trim(s)
  {
    var before', after' := TrimIsCore(s);
    CoreOfBlank(core, s, before, after);
    EndsAreInside(core, s, before, after, Trim(s), before', after');
    EndsAreInside(Trim(s), s, before', after', core, before, after);
    Middle(before, core, after);
    Middle(before', Trim(s), after');
  }

  lemma Middle(before: string, core: string, after: string)
    ensures var s := before + core + after;
            s[..|before|] == before && s[|before|..|before| + |core|] == core && s[|before| + |core|..] == after
  {
  }

  // ---- what is asked ----

  /** `query` is `left`, separator `used`, `right`: no earlier separator of the list occurs in it, and this one
      does not begin before the end of `left`. */
  ghost predicate JoinsAt(separators: seq<string>, query: string, used: nat, left: string, right: string) {
    && used < |separators| && query == left + separators[used] + right
    && (forall k: nat :: k < used ==> Absent(query, separators[k]))
    && (forall at: nat :: OccursAt(query, separators[used], at) ==> |left| <= at)
  }

  ghost predicate Absent(query: string, sep: string) {
    forall at: nat :: !OccursAt(query, sep, at)
  }

  lemma AbsentIff(query: string, sep: string)
    ensures Absent(query, sep) <==> StrStr(query, sep).None?
  {
  }

  lemma FirstUsedIs(separators: seq<string>, query: string, used: nat)
    requires used < |separators| && !Absent(query, separators[used])
    requires forall k: nat :: k < used ==> Absent(query, separators[k])
    ensures FirstUsed(separators, query, 0) == Some(used)
  {
    AbsentIff(query, separators[used]);
    forall k: nat | k < used
      ensures StrStr(query, separators[k]).None?
    {
      AbsentIff(query, separators[k]);
    }
  }

  lemma JoinedHalves(separators: seq<string>, query: string, used: nat, left: string, right: string)
    requires JoinsAt(separators, query, used, left, right)
    ensures Halves(separators, query) == Some((Trim(left), Trim(right)))
  {
    var sep := separators[used];
    Middle(left, sep, right);
    assert OccursAt(query, sep, |left|);
    FirstUsedIs(separators, query, used);
    assert StrStr(query, sep) == Some(|left|);
  }

  lemma SplitJoins(separators: seq<string>, query: string) returns (used: nat, left: string, right: string)
    requires Halves(separators, query).Some?
    ensures JoinsAt(separators, query, used, left, right)
    ensures Halves(separators, query) == Some((Trim(left), Trim(right)))
  {
    used := FirstUsed(separators, query, 0).value;
    var sep := separators[used];
    var at := StrStr(query, sep).value;
    left, right := query[..at], query[at + |sep|..];
    InThree(query, at, |sep|);
    AllAbsent(separators, query, used);
  }

  lemma InThree(s: string, at: nat, n: nat)
    requires at + n <= |s|
    ensures s == s[..at] + s[at..at + n] + s[at + n..]
  {
  }

  lemma AllAbsent(separators: seq<string>, query: string, used: nat)
    requires used <= |separators| && forall k: nat :: k < used ==> StrStr(query, separators[k]).None?
    ensures forall k: nat :: k < used ==> Absent(query, separators[k])
  {
    forall k: nat | k < used
      ensures Absent(query, separators[k])
    {
      AbsentIff(query, separators[k]);
    }
  }

  /** `query` joins two texts that are not blank. */
  ghost predicate Joined(separators: seq<string>, query: string, left: string, right: string) {
    (exists used: nat :: JoinsAt(separators, query, used, left, right)) && !Blank(left) && !Blank(right)
  }

  lemma JoinedParts(separators: seq<string>, query: string, left: string, right: string)
    requires Joined(separators, query, left, right)
    ensures Parts(separators, query) == [Trim(left), Trim(right)]
  {
    var used: nat :| JoinsAt(separators, query, used, left, right);
    JoinedHalves(separators, query, used, left, right);
    var a, b := TrimIsCore(left);
    var c, d := TrimIsCore(right);
  }

  lemma TwoPartsJoin(separators: seq<string>, query: string) returns (left: string, right: string)
    requires |Parts(separators, query)| == 2
    ensures Joined(separators, query, left, right)
  {
    var used;
    used, left, right := SplitJoins(separators, query);
    var a, b := TrimIsCore(left);
    var c, d := TrimIsCore(right);
  }

  /** A query is asked in two parts exactly when it joins two texts that are not blank, and then the parts
      are those texts without their blanks. */
  lemma SplitExactly(separators: seq<string>, query: string)
    ensures |Parts(separators, query)| == 2 <==> exists left, right :: Joined(separators, query, left, right)
    ensures forall left, right :: Joined(separators, query, left, right)
              ==> Parts(separators, query) == [Trim(left), Trim(right)]
    ensures |Parts(separators, query)| != 2 ==> Parts(separators, query) == [query]
  {
    forall left, right | Joined(separators, query, left, right)
      ensures Parts(separators, query) == [Trim(left), Trim(right)]
    {
      JoinedParts(separators, query, left, right);
    }
    if |Parts(separators, query)| == 2 {
      var left, right := TwoPartsJoin(separators, query);
    }
  }

  /** Of the five separators of the source, in its order. */
  lemma AskedExactly(query: string)
    ensures var separators := [" ve ", " & ", " h\U{C9}\U{99}m ", " hem ", " + "];
            && (|Asked(query)| == 2 <==> exists left, right :: Joined(separators, query, left, right))
            && (forall left, right :: Joined(separators, query, left, right)
                  ==> Asked(query) == [Trim(left), Trim(right)])
            && (|Asked(query)| != 2 ==> Asked(query) == [query])
  {
    SplitExactly([" ve ", " & ", " h\U{C9}\U{99}m ", " hem ", " + "], query);
  }

  // ---- the imperative form ----

  method TrimText(text: string) returns (r: string)
    ensures r == Trim(text)
  {
    var i := 0;
    while i < |text| && text[i] == ' '
      invariant i <= |text| && LeftTrim(text[i..]) == LeftTrim(text)
    {
      assert text[i..][1..] == text[i + 1..];
      i := i + 1;
    }
    r := text[i..];
    ghost var whole := r;
    while |r| > 1 && r[|r| - 1] == ' '
      invariant RightTrim(r) == RightTrim(whole)
    {
      r := r[..|r| - 1];
    }
  }

  method FindSeparator(separators: seq<string>, query: string) returns (used: Option<nat>)
    ensures used == FirstUsed(separators, query, 0)
  {
    for i := 0 to |separators|
      invariant FirstUsed(separators, query, i) == FirstUsed(separators, query, 0)
    {
      if StrStr(query, separators[i]).Some? {
        return Some(i);
      }
    }
    return None;
  }

  /** No parts when a separator was found but a side of it is blank. */
  method SplitQuery(separators: seq<string>, query: string) returns (parts: seq<string>)
    ensures parts == if Halves(separators, query).Some? && |Parts(separators, query)| != 2 then []
                     else Parts(separators, query)
  {
    var used := FindSeparator(separators, query);
    if used.None? {
      return [query];
    }
    var sep := separators[used.value];
    var at := StrStr(query, sep).value;
    var left := TrimText(query[..at]);
    var right := TrimText(query[at + |sep|..]);
    assert Halves(separators, query) == Some((left, right));
    return if left != "" && right != "" then [left, right] else [];
  }

  /** The pipeline steps of a request, one clock reading and latency for each. */
  function StepsOf(queries: seq<string>, clock: int -> int, latency: int -> real): seq<Pipeline.Step> {
    seq(|queries|, i requires 0 <= i < |queries| => Pipeline.Request(queries[i], clock(i), latency(i)))
  }
}
