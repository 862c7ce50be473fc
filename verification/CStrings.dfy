/** C strings. A string value holds the bytes before the terminator. */
module CStrings {

  datatype Option<+T> = None | Some(value: T)

  predicate NulFree(s: string) {
    '\0' !in s
  }

  /** What a char buffer read up to its terminator can hold. */
  type CString = s: string | NulFree(s)

  predicate QuoteFree(s: string) {
    '"' !in s
  }

  /** strncpy of `s` into a zeroed buffer of n + 1 bytes. */
  function Cut(s: string, n: nat): string {
    if |s| <= n then s else s[..n]
  }

  /** tolower in the C locale. */
  function LowerChar(c: char): char {
    if 'A' <= c <= 'Z' then (c as int + 32) as char else c
  }

  function Lower(s: string): (r: string)
    ensures |r| == |s|
  {
    seq(|s|, i requires 0 <= i < |s| => LowerChar(s[i]))
  }

  /** Equal, or one the capital of the other. */
  predicate SameLetter(c: char, d: char) {
    c == d || ('A' <= c <= 'Z' && d as int == c as int + 32) || ('A' <= d <= 'Z' && c as int == d as int + 32)
  }

  predicate SameButCase(s: string, t: string) {
    |s| == |t| && forall k :: 0 <= k < |s| ==> SameLetter(s[k], t[k])
  }

  /** Lower-casing two texts makes them equal exactly when they differ in nothing but the case of letters. */
  lemma LowerIff(s: string, t: string)
    ensures Lower(s) == Lower(t) <==> SameButCase(s, t)
    ensures SameButCase(s, Lower(s)) && forall c :: 'A' <= c <= 'Z' ==> c !in Lower(s)
  {
    if Lower(s) == Lower(t) {
      assert forall k :: 0 <= k < |s| ==> Lower(s)[k] == LowerChar(s[k]) && Lower(t)[k] == LowerChar(t[k]);
    }
  }

  /** isspace in the C locale. */
  predicate IsSpace(c: char): (space: bool)
    ensures space <==> c in [' ', '\t', '\n', 11 as char, 12 as char, '\r']
  {
    c == ' ' || 9 as char <= c <= 13 as char
  }

  predicate OccursAt(s: string, pat: string, k: nat) {
    k + |pat| <= |s| && s[k..k + |pat|] == pat
  }

  /** strstr: the index of the first occurrence. */
  function StrStr(s: string, pat: string): (r: Option<nat>)
    ensures r.Some? ==> OccursAt(s, pat, r.value)
    ensures forall k: nat :: OccursAt(s, pat, k) ==> r.Some? && r.value <= k
  {
    if pat <= s then Some(0)
    else if s == "" then None
    else
      var rest := StrStr(s[1..], pat);
      assert forall k: nat :: OccursAt(s, pat, k) ==> k > 0 && OccursAt(s[1..], pat, k - 1);
      if rest.Some? then
        assert s[1 + rest.value..][..|pat|] == s[1..][rest.value..rest.value + |pat|];
        Some(rest.value + 1)
      else None
  }

  /** strchr: the index of the first `c`. */
  function StrChr(s: string, c: char): (r: Option<nat>)
    ensures r.Some? ==> r.value < |s| && s[r.value] == c && c !in s[..r.value]
    ensures r.None? ==> c !in s
  {
    if s == "" then None
    else if s[0] == c then Some(0)
    else
      var rest := StrChr(s[1..], c);
      if rest.Some? then
        assert s[..rest.value + 1] == [s[0]] + s[1..][..rest.value];
        Some(rest.value + 1)
      else None
  }

  lemma Assoc<T>(a: seq<T>, b: seq<T>, c: seq<T>)
    ensures a + (b + c) == (a + b) + c
  {
  }
}
