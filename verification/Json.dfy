/** The SDK's JSON helpers: key search, escaping, unescaping and string arrays (sdk/json/json.c). */
module Json {
  import opened CStrings
  import opened Pieces

  const MAX_NAME_LEN: nat := 64

  /** "key" */
  function Name(key: string): string {
    "\"" + key + "\""
  }

  /** "key":"value" */
  function Member(key: string, value: string): string {
    Name(key) + ":" + Name(value)
  }

  lemma NameIsPiece(key: string)
    ensures Name(key) == "\"" + Quoted([key])
  {
    assert [key][1..] == [];
  }

  /** A member appended to a text of quoted pieces and an open tail. */
  lemma PushMember(ps: seq<string>, tail: string, key: string, value: string)
    ensures Quoted(ps) + tail + Member(key, value) == Quoted(ps + [tail, key, ":", value])
  {
    var a, b := [tail, key], [":", value];
    assert [tail, key, ":", value] == a + b;
    QuotedConcat(ps, a + b);
    QuotedConcat(a, b);
    QuotedPair(tail, key);
    QuotedPair(":", value);
  }

  lemma QuotedPair(a: string, b: string)
    ensures Quoted([a, b]) == a + "\"" + (b + "\"")
  {
    assert [a, b][1..] == [b] && [b][1..] == [];
    assert Quoted([b]) == b + "\"";
  }

  lemma PushName(ps: seq<string>, tail: string, key: string)
    ensures Quoted(ps) + tail + Name(key) == Quoted(ps + [tail, key])
  {
    QuotedConcat(ps, [tail, key]);
    QuotedPair(tail, key);
  }

  lemma MemberIsPieces(key: string, value: string)
    ensures Member(key, value) == "\"" + Quoted([key, ":", value])
  {
    PushMember([], "", key, value);
    assert [] + ["", key, ":", value] == [""] + [key, ":", value];
    QuotedConcat([""], [key, ":", value]);
    assert Quoted([""]) == "\"";
    assert Quoted([]) + "" + Member(key, value) == Member(key, value);
  }

  /** The text after the first occurrence of a pattern. */
  function AfterText(json: string, pat: string): Option<string> {
    var at := StrStr(json, pat);
    if at.Some? then Some(json[at.value + |pat|..]) else None
  }

  function AfterKey(json: string, key: string): Option<string> {
    AfterText(json, Name(key))
  }

  lemma AfterKeyIs(json: string, key: string, after: string)
    requires Finds(json, [key], after)
    ensures AfterKey(json, key) == Some(after)
  {
    NameIsPiece(key);
  }

  /** The buffer holds the C string `s`. */
  ghost predicate Holds(buf: array<char>, s: string)
    reads buf
  {
    |s| < buf.Length && buf[..|s|] == s && buf[|s|] == '\0'
  }

  // ---- escaping ----

  function EscapeChar(c: char): (e: string)
    ensures |e| == 1 || |e| == 2
  {
    if c == '"' then "\\\""
    else if c == '\\' then "\\\\"
    else if c == '\n' then "\\n"
    else if c == '\r' then "\\r"
    else if c == '\t' then "\\t"
    else [c]
  }

  /** What escaping writes when it starts each character with at least one byte of `room` left. */
  function Escaped(src: string, room: int): (r: string)
    ensures |r| <= if room <= 0 then 0 else room + 1
  {
    if src == "" || room <= 0 then ""
    else EscapeChar(src[0]) + Escaped(src[1..], room - |EscapeChar(src[0])|)
  }

  /** How many source characters that takes. */
  function Consumed(src: string, room: int): (k: nat)
    ensures k <= |src|
  {
    if src == "" || room <= 0 then 0 else 1 + Consumed(src[1..], room - |EscapeChar(src[0])|)
  }

  function EscapeAll(src: string): string {
    if src == "" then "" else EscapeChar(src[0]) + EscapeAll(src[1..])
  }

  lemma EscapedStep(all: string, done: string, src: string, i: nat, room: int)
    requires i < |src| && room > 0 && all == done + Escaped(src[i..], room)
    ensures all == done + EscapeChar(src[i]) + Escaped(src[i + 1..], room - |EscapeChar(src[i])|)
  {
    assert src[i..][1..] == src[i + 1..];
    Assoc(done, EscapeChar(src[i]), Escaped(src[i + 1..], room - |EscapeChar(src[i])|));
  }

  method PutEscape(e: string, dst: array<char>, j: nat)
    requires 1 <= |e| <= 2 && j + |e| <= dst.Length
    modifies dst
    ensures dst[..j + |e|] == old(dst[..j]) + e
  {
    dst[j] := e[0];
    if |e| == 2 {
      dst[j + 1] := e[1];
    }
  }

  /** A one-byte destination only holds the empty text: the source's bound of its length less two wraps. */
  method JsonEscape(src: string, dst: array<char>)
    requires dst.Length >= 2 || (dst.Length == 1 && src == "")
    modifies dst
    ensures Holds(dst, Escaped(src, dst.Length - 2))
  {
    var j := EscapeLoop(src, dst);
    dst[j] := '\0';
  }

  method EscapeLoop(src: string, dst: array<char>) returns (j: nat)
    requires dst.Length >= 2 || (dst.Length == 1 && src == "")
    modifies dst
    ensures j < dst.Length && dst[..j] == Escaped(src, dst.Length - 2)
  {
    var i := 0;
    j := 0;
    ghost var all := Escaped(src, dst.Length - 2);
    while i < |src| && j < dst.Length - 2
      invariant i <= |src| && 0 <= j <= dst.Length - 1
      invariant all == dst[..j] + Escaped(src[i..], dst.Length - 2 - j)
    {
      var e := EscapeChar(src[i]);
      ghost var done := dst[..j];
      EscapedStep(all, done, src, i, dst.Length - 2 - j);
      PutEscape(e, dst, j);
      j := j + |e|;
      i := i + 1;
      assert dst[..j] == done + e;
    }
    assert Escaped(src[i..], dst.Length - 2 - j) == "";
  }

  // ---- unescaping ----

  function UnescapeChar(c: char): char {
    if c == 'n' then '\n' else if c == 'r' then '\r' else if c == 't' then '\t' else c
  }

  /** Up to `room` characters, stopping at the end or at an unescaped quote. */
  function Unescaped(src: string, room: nat): (r: string)
    ensures |r| <= room
  {
    if src == "" || src[0] == '"' || room == 0 then ""
    else if src[0] == '\\' && |src| > 1 then [UnescapeChar(src[1])] + Unescaped(src[2..], room - 1)
    else [src[0]] + Unescaped(src[1..], room - 1)
  }

  lemma UnescapedStep(src: string, i: nat, room: nat)
    requires i < |src| && src[i] != '"' && room > 0
    ensures Unescaped(src[i..], room) ==
              if src[i] == '\\' && i + 1 < |src| then [UnescapeChar(src[i + 1])] + Unescaped(src[i + 2..], room - 1)
              else [src[i]] + Unescaped(src[i + 1..], room - 1)
  {
    var from := src[i..];
    assert from[1..] == src[i + 1..];
    if i + 1 < |src| {
      assert from[1] == src[i + 1] && from[2..] == src[i + 2..];
    }
  }

  /** Where reading goes on after one character, and what it stands for. */
  function NextUnescaped(src: string, i: nat): (r: (char, nat))
    requires i < |src|
    ensures i < r.1 <= |src|
  {
    if src[i] == '\\' && i + 1 < |src| then (UnescapeChar(src[i + 1]), i + 2) else (src[i], i + 1)
  }

  lemma UnescapedTaken(all: string, done: string, src: string, i: nat, room: nat)
    requires i < |src| && src[i] != '"' && room > 0 && all == done + Unescaped(src[i..], room)
    ensures all == done + [NextUnescaped(src, i).0] + Unescaped(src[NextUnescaped(src, i).1..], room - 1)
  {
    UnescapedStep(src, i, room);
    Assoc(done, [NextUnescaped(src, i).0], Unescaped(src[NextUnescaped(src, i).1..], room - 1));
  }

  method JsonUnescape(src: string, dst: array<char>)
    requires dst.Length >= 1
    modifies dst
    ensures Holds(dst, Unescaped(src, dst.Length - 1))
  {
    var i, j := 0, 0;
    ghost var all := Unescaped(src, dst.Length - 1);
    while i < |src| && src[i] != '"' && j < dst.Length - 1
      invariant i <= |src| && 0 <= j <= dst.Length - 1
      invariant all == dst[..j] + Unescaped(src[i..], dst.Length - 1 - j)
    {
      ghost var next, done := NextUnescaped(src, i), dst[..j];
      UnescapedTaken(all, done, src, i, dst.Length - 1 - j);
      if src[i] == '\\' && i + 1 < |src| {
        i := i + 1;
        dst[j] := UnescapeChar(src[i]);
      } else {
        dst[j] := src[i];
      }
      i := i + 1;
      j := j + 1;
      assert i == next.1 && dst[..j] == done + [next.0];
    }
    assert Unescaped(src[i..], dst.Length - 1 - j) == "";
    dst[j] := '\0';
  }

  // ---- escape, then unescape ----

  lemma UnescapeOne(c: char, rest: string, room: nat)
    requires room > 0
    ensures Unescaped(EscapeChar(c) + rest, room) == [c] + Unescaped(rest, room - 1)
  {
    var text := EscapeChar(c) + rest;
    if |EscapeChar(c)| == 2 {
      assert text[2..] == rest;
    } else {
      assert text[1..] == rest;
    }
  }

  lemma CutCons(c: char, s: string, room: nat)
    requires room > 0
    ensures Cut([c] + s, room) == [c] + Cut(s, room - 1)
  {
  }

  lemma TakeCons(s: string, k: nat)
    requires k < |s|
    ensures s[..k + 1] == [s[0]] + s[1..][..k]
  {
  }

  lemma EscapedFirst(src: string, room: int, rest: string)
    requires src != "" && room > 0
    ensures var left := room - |EscapeChar(src[0])|;
            Escaped(src, room) + rest == EscapeChar(src[0]) + (Escaped(src[1..], left) + rest)
            && src[..Consumed(src, room)] == [src[0]] + src[1..][..Consumed(src[1..], left)]
  {
    var left := room - |EscapeChar(src[0])|;
    Assoc(EscapeChar(src[0]), Escaped(src[1..], left), rest);
    TakeCons(src, Consumed(src[1..], left));
  }

  /** Whatever the two buffer sizes, reading an escaped text back gives a prefix of the source: the
      characters that were escaped, cut to the reader's buffer. Truncation never splits an escape pair,
      and nothing beyond the closing quote is read. */
  lemma {:induction false} EscapeUnescape(src: string, room: int, rest: string, readRoom: nat)
    requires rest == "" || rest[0] == '"'
    ensures Unescaped(Escaped(src, room) + rest, readRoom) == Cut(src[..Consumed(src, room)], readRoom)
    decreases |src|
  {
    if src == "" || room <= 0 {
      assert Escaped(src, room) + rest == rest;
    } else if readRoom > 0 {
      var left := room - |EscapeChar(src[0])|;
      EscapeUnescape(src[1..], left, rest, readRoom - 1);
      EscapedFirst(src, room, rest);
      UnescapeOne(src[0], Escaped(src[1..], left) + rest, readRoom);
      CutCons(src[0], src[1..][..Consumed(src[1..], left)], readRoom);
    }
  }

  /** The whole source is taken exactly when the escaped text before its last character is short enough. */
  lemma {:induction false} ConsumesAll(src: string, room: int)
    ensures Consumed(src, room) == |src| <==> src == "" || |EscapeAll(src[..|src| - 1])| < room
    ensures Escaped(src, room) == EscapeAll(src[..Consumed(src, room)])
    decreases |src|
  {
    if src != "" && room > 0 {
      var left := room - |EscapeChar(src[0])|;
      ConsumesAll(src[1..], left);
      assert src[..1 + Consumed(src[1..], left)][1..] == src[1..][..Consumed(src[1..], left)];
      if |src| > 1 {
        assert src[..|src| - 1][1..] == src[1..][..|src| - 2];
      }
    }
  }

  /** The identity, when both buffers suffice. */
  lemma RoundTrip(src: string, dstLen: nat, outLen: nat, tail: string)
    requires dstLen >= 2 && outLen >= 1
    requires src != "" ==> |EscapeAll(src[..|src| - 1])| < dstLen - 2
    requires |src| < outLen
    ensures Unescaped(Escaped(src, dstLen - 2) + "\"" + tail, outLen - 1) == src
  {
    ConsumesAll(src, dstLen - 2);
    EscapeUnescape(src, dstLen - 2, "\"" + tail, outLen - 1);
    assert Escaped(src, dstLen - 2) + "\"" + tail == Escaped(src, dstLen - 2) + ("\"" + tail);
    assert src[..|src|] == src;
  }

  // ---- key search ----

  /** The insignificant whitespace of JSON (section 2 of RFC 8259). */
  predicate IsJsonSpace(c: char): (space: bool)
    ensures space <==> c in " \t\n\r"
  {
    c == ' ' || c == '\t' || c == '\n' || c == '\r'
  }

  function SkipJsonSpace(s: string): (r: string)
    ensures |r| <= |s|
  {
    if s != "" && IsJsonSpace(s[0]) then SkipJsonSpace(s[1..]) else s
  }

  method SkipWhitespace(s: string, start: nat) returns (p: nat)
    requires start <= |s|
    ensures start <= p <= |s| && s[p..] == SkipJsonSpace(s[start..])
  {
    p := start;
    while p < |s| && IsJsonSpace(s[p])
      invariant start <= p <= |s| && SkipJsonSpace(s[p..]) == SkipJsonSpace(s[start..])
    {
      p := p + 1;
    }
  }

  /** What is searched for: the quoted key, cut by its 128-byte buffer. */
  function SearchText(key: string): string {
    Cut(Name(key), 127)
  }

  /** The text where the value of the first occurrence of the quoted key starts. */
  function KeyValue(json: string, key: string): Option<string> {
    var after := AfterText(json, SearchText(key));
    if after.None? then None
    else
      var rest := SkipJsonSpace(after.value);
      if rest != "" && rest[0] == ':' then Some(SkipJsonSpace(rest[1..])) else None
  }

  method FindKey(json: string, key: string) returns (r: Option<nat>)
    ensures r.Some? <==> KeyValue(json, key).Some?
    ensures r.Some? ==> r.value <= |json| && json[r.value..] == KeyValue(json, key).value
  {
    var search := SearchText(key);
    var at := StrStr(json, search);
    if at.None? { return None; }
    var p := SkipWhitespace(json, at.value + |search|);
    if p == |json| || json[p] != ':' { return None; }
    p := SkipWhitespace(json, p + 1);
    return Some(p);
  }

  predicate AllSpace(s: string) {
    forall c :: c in s ==> c in " \t\n\r"
  }

  lemma {:induction false} SpaceSkipped(s: string) returns (space: string)
    ensures AllSpace(space) && s == space + SkipJsonSpace(s)
    ensures SkipJsonSpace(s) != "" ==> SkipJsonSpace(s)[0] !in " \t\n\r"
  {
    space := "";
    if s != "" && IsJsonSpace(s[0]) {
      var more := SpaceSkipped(s[1..]);
      space := [s[0]] + more;
      Assoc([s[0]], more, SkipJsonSpace(s));
    }
  }

  lemma {:induction false} SkipsSpace(space: string, s: string)
    requires AllSpace(space) && (s != "" ==> s[0] !in " \t\n\r")
    ensures SkipJsonSpace(space + s) == s
  {
    if space == "" {
      assert space + s == s;
    } else {
      assert (space + s)[1..] == space[1..] + s && space[0] in space;
      SkipsSpace(space[1..], s);
    }
  }

  /** The first occurrence of the quoted key, a colon and a value, with whitespace around the colon. */
  ghost predicate MemberAt(json: string, key: string, before: string, space: string, space': string, value: string) {
    && json == before + Name(key) + (space + (":" + (space' + value)))
    && (forall k: nat :: k < |before| ==> !OccursAt(json, Name(key), k))
    && AllSpace(space) && AllSpace(space') && (value != "" ==> value[0] !in " \t\n\r")
  }

  lemma FoundBehind(json: string, pat: string, before: string, after: string)
    requires json == before + pat + after && forall k: nat :: k < |before| ==> !OccursAt(json, pat, k)
    ensures AfterText(json, pat) == Some(after)
  {
    assert json[|before|..|before| + |pat|] == pat;
    assert json[|before| + |pat|..] == after;
    Pieces.StrStrIs(json, pat, |before|);
  }

  lemma MemberFound(json: string, key: string, before: string, space: string, space': string, value: string)
    requires |key| <= 125 && MemberAt(json, key, before, space, space', value)
    ensures KeyValue(json, key) == Some(value)
  {
    FoundBehind(json, Name(key), before, space + (":" + (space' + value)));
    SkipsSpace(space, ":" + (space' + value));
    assert (":" + (space' + value))[1..] == space' + value;
    SkipsSpace(space', value);
  }

  lemma FoundMember(json: string, key: string) returns (before: string, space: string, space': string)
    requires |key| <= 125 && KeyValue(json, key).Some?
    ensures MemberAt(json, key, before, space, space', KeyValue(json, key).value)
  {
    var at := StrStr(json, Name(key)).value;
    var after := json[at + |Name(key)|..];
    before := json[..at];
    space := SpaceSkipped(after);
    var rest := SkipJsonSpace(after);
    space' := SpaceSkipped(rest[1..]);
    assert rest == ":" + rest[1..];
    SplitAround(json, Name(key), at);
  }

  lemma SplitAround(s: string, pat: string, at: nat)
    requires OccursAt(s, pat, at)
    ensures s == s[..at] + pat + s[at + |pat|..]
  {
    assert s == s[..at] + s[at..at + |pat|] + s[at + |pat|..];
  }

  /** A key's value is what stands behind its first quoted occurrence and a colon, whitespace aside; there is none
      exactly when no colon follows that occurrence. */
  lemma KeyValueExactly(json: string, key: string, value: string)
    requires |key| <= 125
    ensures KeyValue(json, key) == Some(value) <==>
              exists before, space, space' :: MemberAt(json, key, before, space, space', value)
  {
    if KeyValue(json, key) == Some(value) {
      var before, space, space' := FoundMember(json, key);
    }
    forall before, space, space' | MemberAt(json, key, before, space, space', value)
      ensures KeyValue(json, key) == Some(value)
    {
      MemberFound(json, key, before, space, space', value);
    }
  }

  /** A key that does not fit the search buffer is looked for without its closing quote, and by its first 126 bytes. */
  lemma LongKeyIsCut(json: string, key: string)
    requires |key| >= 126
    ensures KeyValue(json, key).Some? <==>
              exists before, rest, space :: LongKeyAt(json, key, before, rest, space)
  {
    var search := "\"" + key[..126];
    assert SearchText(key) == search;
    if KeyValue(json, key).Some? {
      var before, rest, space := LongKeyMet(json, key);
    }
    forall before, rest, space | LongKeyAt(json, key, before, rest, space)
      ensures KeyValue(json, key).Some?
    {
      FoundBehind(json, search, before, space + (":" + rest));
      SkipsSpace(space, ":" + rest);
    }
  }

  lemma LongKeyMet(json: string, key: string) returns (before: string, rest: string, space: string)
    requires |key| >= 126 && KeyValue(json, key).Some?
    ensures LongKeyAt(json, key, before, rest, space)
  {
    var search := "\"" + key[..126];
    assert SearchText(key) == search;
    var at := StrStr(json, search).value;
    var after := json[at + |search|..];
    before := json[..at];
    space := SpaceSkipped(after);
    rest := SkipJsonSpace(after)[1..];
    assert SkipJsonSpace(after) == ":" + rest;
    SplitAround(json, search, at);
  }

  ghost predicate LongKeyAt(json: string, key: string, before: string, rest: string, space: string)
    requires |key| >= 126
  {
    && json == before + ("\"" + key[..126]) + (space + (":" + rest)) && AllSpace(space)
    && forall k: nat :: k < |before| ==> !OccursAt(json, "\"" + key[..126], k)
  }

  /** The string a key extracts into a field of `room` + 1 bytes, None when there is none. */
  function ExtractString(json: string, key: string, room: nat): Option<string> {
    var v := KeyValue(json, key);
    if v.Some? && v.value != "" && v.value[0] == '"' then Some(Unescaped(v.value[1..], room)) else None
  }

  method JsonExtractString(json: string, key: string, dst: array<char>) returns (ok: bool)
    requires dst.Length >= 1
    modifies dst
    ensures ok <==> ExtractString(json, key, dst.Length - 1).Some?
    ensures ok ==> Holds(dst, ExtractString(json, key, dst.Length - 1).value)
    ensures !ok ==> dst[..] == old(dst[..])
  {
    var p := FindKey(json, key);
    if p.None? || p.value == |json| || json[p.value] != '"' { return false; }
    assert json[p.value..][1..] == json[p.value + 1..];
    JsonUnescape(json[p.value + 1..], dst);
    return true;
  }

  // ---- string arrays ----

  function SkipToItem(s: string): (r: string)
    ensures |r| <= |s| && (r != "" ==> r[0] == '"' || r[0] == ']')
  {
    if s != "" && s[0] != '"' && s[0] != ']' then SkipToItem(s[1..]) else s
  }

  /** An item of at most `room` characters and the text after it; a backslash makes the next one literal. */
  function ReadItem(s: string, room: nat): (r: (string, string))
    ensures |r.0| <= room && |r.1| <= |s|
  {
    if s == "" || s[0] == '"' || room == 0 then ("", s)
    else if s[0] == '\\' && |s| > 1 then
      var r := ReadItem(s[2..], room - 1);
      ([s[1]] + r.0, r.1)
    else
      var r := ReadItem(s[1..], room - 1);
      ([s[0]] + r.0, r.1)
  }

  function Drop(s: string, c: char): (r: string)
    ensures |r| <= |s|
  {
    if s != "" && s[0] == c then s[1..] else s
  }

  /** One turn of the array loop: the next item, if there is one, and the text after it and its comma. */
  function NextItem(s: string): (r: (Option<string>, string))
    ensures r.0.Some? ==> |r.1| < |s|
    ensures r.0.None? ==> r.1 == "" || r.1[0] == ']'
  {
    var a := SkipToItem(SkipJsonSpace(s));
    if a == "" || a[0] == ']' then (None, a)
    else
      var item := ReadItem(a[1..], MAX_NAME_LEN - 1);
      (Some(item.0), Drop(SkipJsonSpace(Drop(item.1, '"')), ','))
  }

  /** The items of an array whose opening bracket has been read, at most `max` of them. */
  function Items(s: string, max: nat): (r: seq<string>)
    ensures |r| <= max
    decreases |s|
  {
    if s == "" || s[0] == ']' || max == 0 then []
    else
      var next := NextItem(s);
      if next.0.None? then [] else [next.0.value] + Items(next.1, max - 1)
  }

  function ExtractArray(json: string, key: string, max: nat): (r: seq<string>)
    ensures |r| <= max
  {
    var v := KeyValue(json, key);
    if v.Some? && v.value != "" && v.value[0] == '[' then Items(v.value[1..], max) else []
  }

  lemma ReadItemStep(s: string, p: nat, room: nat)
    requires p < |s| && s[p] != '"' && room > 0
    ensures var q := if s[p] == '\\' && p + 1 < |s| then p + 1 else p;
            ReadItem(s[p..], room) == ([s[q]] + ReadItem(s[q + 1..], room - 1).0, ReadItem(s[q + 1..], room - 1).1)
  {
    var from := s[p..];
    assert from[1..] == s[p + 1..];
    if p + 1 < |s| {
      assert from[1] == s[p + 1] && from[2..] == s[p + 2..];
    }
  }

  method ReadItemAt(s: string, start: nat, room: nat) returns (item: string, p: nat)
    requires start <= |s|
    ensures start <= p <= |s| && item == ReadItem(s[start..], room).0 && s[p..] == ReadItem(s[start..], room).1
  {
    item, p := "", start;
    ghost var whole := ReadItem(s[start..], room);
    while p < |s| && s[p] != '"' && |item| < room
      invariant start <= p <= |s| && ItemGoesOn(whole, item, s[p..], room)
    {
      CharTaken(whole, item, s, p, room);
      if s[p] == '\\' && p + 1 < |s| {
        p := p + 1;
      }
      item := item + [s[p]];
      p := p + 1;
    }
  }

  /** Reading on from here completes `item` to the whole item, and leaves the same text. */
  ghost predicate ItemGoesOn(whole: (string, string), item: string, rest: string, room: nat) {
    && |item| <= room
    && whole.0 == item + ReadItem(rest, room - |item|).0
    && whole.1 == ReadItem(rest, room - |item|).1
  }

  lemma CharTaken(whole: (string, string), item: string, s: string, p: nat, room: nat)
    requires p < |s| && s[p] != '"' && |item| < room && ItemGoesOn(whole, item, s[p..], room)
    ensures var q := if s[p] == '\\' && p + 1 < |s| then p + 1 else p;
            ItemGoesOn(whole, item + [s[q]], s[q + 1..], room)
  {
    var left, q := room - |item|, if s[p] == '\\' && p + 1 < |s| then p + 1 else p;
    ReadItemStep(s, p, left);
    Assoc(item, [s[q]], ReadItem(s[q + 1..], left - 1).0);
  }

  method DropAt(s: string, start: nat, c: char) returns (p: nat)
    requires start <= |s|
    ensures start <= p <= |s| && s[p..] == Drop(s[start..], c)
  {
    p := if start < |s| && s[start] == c then start + 1 else start;
  }

  /** The loop always moves forward, so it ends on every input. */
  method JsonExtractStringArray(json: string, key: string, max: nat) returns (ok: bool, out: seq<string>)
    ensures out == ExtractArray(json, key, max)
    ensures ok <==> KeyValue(json, key).Some? && KeyValue(json, key).value != "" && KeyValue(json, key).value[0] == '['
  {
    out := [];
    var found := FindKey(json, key);
    if found.None? || found.value == |json| || json[found.value] != '[' { return false, []; }
    assert json[found.value..][1..] == json[found.value + 1..];
    out := ReadItems(json, found.value + 1, max);
    return true, out;
  }

  method ReadItems(json: string, start: nat, max: nat) returns (out: seq<string>)
    requires start <= |json|
    ensures out == Items(json[start..], max)
  {
    out := [];
    var p := start;
    ghost var all := Items(json[p..], max);
    while p < |json| && json[p] != ']' && |out| < max
      invariant p <= |json| && ItemsLeft(all, out, json[p..], max)
      decreases |json| - p
    {
      ItemTaken(all, out, json[p..], max);
      var item, next := ReadNext(json, p);
      p := next;
      if item.Some? {
        out := out + [item.value];
      }
    }
  }

  /** Reading on from here completes `out` to `all`. */
  ghost predicate ItemsLeft(all: seq<string>, out: seq<string>, rest: string, max: nat) {
    |out| <= max && all == out + Items(rest, max - |out|)
  }

  lemma ItemTaken(all: seq<string>, out: seq<string>, rest: string, max: nat)
    requires ItemsLeft(all, out, rest, max) && rest != "" && rest[0] != ']' && |out| < max
    ensures var next := NextItem(rest);
            ItemsLeft(all, if next.0.Some? then out + [next.0.value] else out, next.1, max)
  {
    ItemsUnfold(rest, max - |out|);
    var item := NextItem(rest).0;
    if item.Some? {
      Assoc(out, [item.value], Items(NextItem(rest).1, max - |out| - 1));
    }
  }

  lemma ItemsUnfold(s: string, max: nat)
    requires s != "" && s[0] != ']' && max > 0
    ensures Items(s, max) == if NextItem(s).0.None? then [] else [NextItem(s).0.value] + Items(NextItem(s).1, max - 1)
    ensures NextItem(s).0.None? ==> Items(NextItem(s).1, max) == []
  {
  }

  method FindItem(json: string, p: nat) returns (q: nat)
    requires p <= |json|
    ensures p <= q <= |json| && json[q..] == SkipToItem(SkipJsonSpace(json[p..]))
  {
    var w := SkipWhitespace(json, p);
    q := SkipToItemAt(json, w);
  }

  method SkipSeparator(json: string, p: nat) returns (q: nat)
    requires p <= |json|
    ensures p <= q <= |json| && json[q..] == Drop(SkipJsonSpace(json[p..]), ',')
  {
    var w := SkipWhitespace(json, p);
    q := DropAt(json, w, ',');
  }

  method ReadNext(json: string, p: nat) returns (item: Option<string>, next: nat)
    requires p < |json| && json[p] != ']'
    ensures p < next <= |json|
    ensures item == NextItem(json[p..]).0 && json[next..] == NextItem(json[p..]).1
  {
    var q := FindItem(json, p);
    if q < |json| && json[q] == '"' {
      var text;
      text, next := TakeItem(json, q);
      item := Some(text);
    } else {
      item := None;
      next := SkipSeparator(json, q);
    }
  }

  method TakeItem(json: string, q: nat) returns (text: string, next: nat)
    requires q < |json| && json[q] == '"'
    ensures q < next <= |json|
    ensures var r := ReadItem(json[q..][1..], MAX_NAME_LEN - 1);
            text == r.0 && json[next..] == Drop(SkipJsonSpace(Drop(r.1, '"')), ',')
  {
    assert json[q..][1..] == json[q + 1..];
    var r;
    text, r := ReadItemAt(json, q + 1, MAX_NAME_LEN - 1);
    r := DropAt(json, r, '"');
    next := SkipSeparator(json, r);
  }

  method SkipToItemAt(s: string, start: nat) returns (p: nat)
    requires start <= |s|
    ensures start <= p <= |s| && s[p..] == SkipToItem(s[start..])
  {
    p := start;
    while p < |s| && s[p] != '"' && s[p] != ']'
      invariant start <= p <= |s| && SkipToItem(s[p..]) == SkipToItem(s[start..])
    {
      p := p + 1;
    }
  }

  // ---- reading a message known by its pieces ----

  lemma HeadIs(ps: seq<string>, key: string, j: nat)
    requires j < |ps|
    ensures [key] <= ps[j..] <==> ps[j] == key
  {
    assert ps[j..][0] == ps[j];
  }

  lemma HeadsAre(ps: seq<string>, key: string, i: nat)
    requires i <= |ps|
    requires forall j :: 1 <= j < i ==> ps[j] != key
    ensures forall j :: 1 <= j < i ==> !([key] <= ps[j..])
  {
    forall j | 1 <= j < i
      ensures !([key] <= ps[j..])
    {
      HeadIs(ps, key, j);
    }
  }

  /** The first piece equal to the key is where strstr finds the key. */
  lemma FindKeyPiece(ps: seq<string>, key: string, i: nat, rest: string)
    requires AllQuoteFree(ps) && 1 <= i < |ps| && ps[i] == key
    requires forall j :: 1 <= j < i ==> ps[j] != key
    ensures AfterKey(Quoted(ps) + rest, key) == Some(Quoted(ps[i + 1..]) + rest)
  {
    HeadsAre(ps, key, i);
    HeadIs(ps, key, i);
    FindsKey(ps, key, i, rest);
    AfterKeyIs(Quoted(ps) + rest, key, Quoted(ps[i + 1..]) + rest);
  }

  lemma FindsKey(ps: seq<string>, key: string, i: nat, rest: string)
    requires AllQuoteFree(ps) && QuoteFree(key) && 1 <= i < |ps| && [key] <= ps[i..]
    requires forall j :: 1 <= j < i ==> !([key] <= ps[j..])
    ensures Finds(Quoted(ps) + rest, [key], Quoted(ps[i + 1..]) + rest)
  {
    OnePiece(key);
    FindPieces(ps, [key], i, rest);
  }

  lemma OnePiece(key: string)
    requires QuoteFree(key)
    ensures |[key]| == 1 && AllQuoteFree([key])
  {
  }

  lemma QuotedCons(p: string, ps: seq<string>, rest: string)
    ensures Quoted([p] + ps) + rest == p + ("\"" + (Quoted(ps) + rest))
  {
    assert ([p] + ps)[1..] == ps;
  }

  /** The value of a key followed by the piece ":" starts right behind that piece. */
  lemma ValueText(ps: seq<string>, key: string, i: nat, rest: string, room: nat)
    requires AllQuoteFree(ps) && 1 <= i && i + 1 < |ps| && ps[i] == key && ps[i + 1] == ":" && |key| <= 125
    requires forall j :: 1 <= j < i ==> ps[j] != key
    ensures ExtractString(Quoted(ps) + rest, key, room) == Some(Unescaped(Quoted(ps[i + 2..]) + rest, room))
  {
    FindKeyPiece(ps, key, i, rest);
    var after, value := Quoted(ps[i + 1..]) + rest, Quoted(ps[i + 2..]) + rest;
    assert ps[i + 1..] == [":"] + ps[i + 2..];
    QuotedCons(":", ps[i + 2..], rest);
    assert after[0] == ':' && after[1..] == "\"" + value;
    assert KeyValue(Quoted(ps) + rest, key) == Some("\"" + value);
    assert ("\"" + value)[1..] == value;
  }

  /** A key followed by the piece ":" has the piece after that as its string value. */
  lemma ValuePiece(ps: seq<string>, key: string, i: nat, rest: string, room: nat)
    requires AllQuoteFree(ps) && 1 <= i && i + 2 < |ps| && ps[i] == key && ps[i + 1] == ":" && |key| <= 125
    requires forall j :: 1 <= j < i ==> ps[j] != key
    ensures ExtractString(Quoted(ps) + rest, key, room)
         == Some(Unescaped(ps[i + 2] + "\"" + (Quoted(ps[i + 3..]) + rest), room))
  {
    ValueText(ps, key, i, rest, room);
    assert ps[i + 2..] == [ps[i + 2]] + ps[i + 3..];
    QuotedCons(ps[i + 2], ps[i + 3..], rest);
    Assoc(ps[i + 2], "\"", Quoted(ps[i + 3..]) + rest);
  }

  /** A key followed by a comma has no value: the search stops at the first occurrence. */
  lemma NoValuePiece(ps: seq<string>, key: string, i: nat, rest: string)
    requires AllQuoteFree(ps) && 1 <= i && i + 1 < |ps| && ps[i] == key && ps[i + 1] == "," && |key| <= 125
    requires forall j :: 1 <= j < i ==> ps[j] != key
    ensures KeyValue(Quoted(ps) + rest, key) == None
  {
    FindKeyPiece(ps, key, i, rest);
    var after := Quoted(ps[i + 1..]) + rest;
    assert ps[i + 1..] == [","] + ps[i + 2..];
    QuotedCons(",", ps[i + 2..], rest);
    StartsWithComma(after);
  }

  lemma StartsWithComma(after: string)
    requires after != "" && after[0] == ','
    ensures SkipJsonSpace(after) == after
  {
  }

  /** A key is mentioned exactly when a piece behind the first equals it. */
  lemma Mentioned(ps: seq<string>, key: string, last: string)
    requires AllQuoteFree(ps) && QuoteFree(last) && QuoteFree(key)
    ensures StrStr(Quoted(ps) + last, Name(key)).Some? <==> exists j :: 1 <= j < |ps| && ps[j] == key
  {
    if i :| 1 <= i < |ps| && ps[i] == key {
      PieceOccurs(ps, key, i, last);
    } else {
      NameIsPiece(key);
      forall j | 1 <= j <= |ps|
        ensures !([key] <= ps[j..])
      {
        assert j < |ps| ==> ps[j..][0] == ps[j];
      }
      NoPieces(ps, [key], last);
    }
  }

  lemma PieceOccurs(ps: seq<string>, key: string, i: nat, last: string)
    requires 1 <= i < |ps| && ps[i] == key
    ensures StrStr(Quoted(ps) + last, Name(key)).Some?
  {
    var front, more := Quoted(ps[..i - 1]) + ps[i - 1], Quoted(ps[i + 1..]) + last;
    SplitText(ps, i, last);
    QuotedConcat(ps[..i - 1], [ps[i - 1]]);
    assert ps[..i] == ps[..i - 1] + [ps[i - 1]];
    assert [ps[i - 1]][1..] == [];
    assert Quoted([ps[i - 1]]) == ps[i - 1] + "\"";
    assert Quoted(ps) + last == front + (Name(key) + more);
    OccursShift(front, Name(key) + more, Name(key), 0);
    assert OccursAt(Quoted(ps) + last, Name(key), |front|);
  }
}
