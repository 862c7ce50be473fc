/** The hand-written field reader the daemons repeat: find the quoted key, then the next colon, then the
    next quote, and copy up to the closing quote (components/policy-engine/protocol/protocol.c:56-68 and
    its copies in intent-classifier/main.c and orchestrator/main.c). */
module Fields {
  import opened CStrings
  import opened Pieces
  import opened Json

  function SkipToQuote(s: string): (r: string)
    ensures |r| <= |s| && (r != "" ==> r[0] == '"')
  {
    if s != "" && s[0] != '"' then SkipToQuote(s[1..]) else s
  }

  function UpToQuote(s: string): string {
    if s == "" || s[0] == '"' then "" else [s[0]] + UpToQuote(s[1..])
  }

  /** The text after the opening quote of the key's value. */
  function ValueStart(raw: string, key: string): Option<string> {
    var at := StrStr(raw, Name(key));
    if at.None? then None
    else
      var colon := StrChr(raw[at.value..], ':');
      if colon.None? then None
      else
        var q := SkipToQuote(raw[at.value + colon.value..]);
        if q == "" then None else Some(q[1..])
  }

  function Field(raw: string, key: string, room: nat): string {
    var v := ValueStart(raw, key);
    if v.Some? then Cut(UpToQuote(v.value), room) else ""
  }

  method FindQuote(raw: string, start: nat) returns (p: nat)
    requires start <= |raw|
    ensures start <= p <= |raw| && raw[p..] == SkipToQuote(raw[start..])
  {
    p := start;
    while p < |raw| && raw[p] != '"'
      invariant start <= p <= |raw| && SkipToQuote(raw[p..]) == SkipToQuote(raw[start..])
    {
      assert raw[p..][1..] == raw[p + 1..];
      p := p + 1;
    }
  }

  method FindValue(raw: string, key: string) returns (r: Option<nat>)
    ensures r.Some? <==> ValueStart(raw, key).Some?
    ensures r.Some? ==> r.value <= |raw| && raw[r.value..] == ValueStart(raw, key).value
  {
    var at := StrStr(raw, Name(key));
    if at.None? { return None; }
    var colon := StrChr(raw[at.value..], ':');
    if colon.None? { return None; }
    var p := FindQuote(raw, at.value + colon.value);
    if p == |raw| { return None; }
    assert raw[p..][1..] == raw[p + 1..];
    return Some(p + 1);
  }

  ghost predicate Zeroed(buf: array<char>)
    reads buf
  {
    forall k :: 0 <= k < buf.Length ==> buf[k] == '\0'
  }

  /** Copies into a zeroed field; the terminator is one of its zeros. */
  method ReadField(raw: string, key: string, buf: array<char>)
    requires buf.Length >= 1 && Zeroed(buf)
    modifies buf
    ensures Holds(buf, Field(raw, key, buf.Length - 1))
  {
    var v := FindValue(raw, key);
    if v.None? { return; }
    CopyUpToQuote(raw, v.value, buf);
  }

  method CopyUpToQuote(raw: string, start: nat, buf: array<char>)
    requires start <= |raw| && buf.Length >= 1 && Zeroed(buf)
    modifies buf
    ensures Holds(buf, Cut(UpToQuote(raw[start..]), buf.Length - 1))
  {
    var p, i := start, 0;
    ghost var whole, done := UpToQuote(raw[start..]), "";
    while p < |raw| && raw[p] != '"' && i < buf.Length - 1
      invariant p <= |raw| && 0 <= i <= buf.Length - 1 && |done| == i
      invariant buf[..i] == done && forall k :: i <= k < buf.Length ==> buf[k] == '\0'
      invariant whole == done + UpToQuote(raw[p..])
    {
      assert raw[p..][1..] == raw[p + 1..];
      Assoc(done, [raw[p]], UpToQuote(raw[p + 1..]));
      buf[i] := raw[p];
      done := done + [raw[p]];
      i, p := i + 1, p + 1;
    }
    assert p == |raw| || raw[p] == '"' ==> UpToQuote(raw[p..]) == "";
    assert Cut(whole, buf.Length - 1) == done;
  }

  /** The C string a buffer holds. */
  method BufferText(buf: array<char>) returns (r: string)
    requires '\0' in buf[..]
    ensures Holds(buf, r) && NulFree(r)
  {
    r := "";
    ghost var end :| 0 <= end < buf.Length && buf[end] == '\0';
    while buf[|r|] != '\0'
      invariant |r| <= end && r == buf[..|r|] && NulFree(r)
      decreases end - |r|
    {
      r := r + [buf[|r|]];
    }
  }

  /** A buffer holds only one. */
  lemma HoldsOne(buf: array<char>, s: string, t: string)
    requires Holds(buf, s) && Holds(buf, t) && NulFree(s) && NulFree(t)
    ensures s == t
  {
    assert forall k :: 0 <= k < |s| ==> buf[k] == buf[..|s|][k] == s[k] && s[k] in s;
    assert forall k :: 0 <= k < |t| ==> buf[k] == buf[..|t|][k] == t[k] && t[k] in t;
    assert |s| == |t|;
  }

  lemma {:induction false} UpToQuoteWithin(s: string)
    ensures forall c :: c in UpToQuote(s) ==> c in s
  {
    if s != "" {
      UpToQuoteWithin(s[1..]);
    }
  }

  lemma {:induction false} SkipToQuoteWithin(s: string)
    ensures forall c :: c in SkipToQuote(s) ==> c in s
  {
    if s != "" {
      SkipToQuoteWithin(s[1..]);
    }
  }

  lemma FieldNulFree(raw: string, key: string, room: nat)
    requires NulFree(raw)
    ensures NulFree(Field(raw, key, room))
  {
    var v := ValueStart(raw, key);
    if v.Some? {
      UpToQuoteWithin(v.value);
      var at := StrStr(raw, Name(key)).value;
      var from := raw[at + StrChr(raw[at..], ':').value..];
      SkipToQuoteWithin(from);
      assert '\0' !in from && '\0' !in SkipToQuote(from);
      assert v.value == SkipToQuote(from)[1..];
      assert '\0' !in UpToQuote(v.value);
    }
  }

  method ReadFieldText(raw: CString, key: string, size: nat) returns (value: string)
    requires size > 0
    ensures value == Field(raw, key, size - 1)
  {
    var buf := new char[size](_ => '\0');
    ReadField(raw, key, buf);
    FieldNulFree(raw, key, size - 1);
    assert buf[|Field(raw, key, size - 1)|] in buf[..];
    value := BufferText(buf);
    HoldsOne(buf, value, Field(raw, key, size - 1));
  }

  /** The same reader where a backslash makes the next character literal. */
  function EscapedField(raw: string, key: string, room: nat): string {
    var v := ValueStart(raw, key);
    if v.Some? then ReadItem(v.value, room).0 else ""
  }

  method ReadEscapedField(raw: string, key: string, room: nat) returns (value: string)
    ensures value == EscapedField(raw, key, room)
  {
    var v := FindValue(raw, key);
    if v.None? { return ""; }
    var end;
    value, end := ReadItemAt(raw, v.value, room);
  }

  // ---- reading a message known by its pieces ----

  lemma {:induction false} UpToQuoteIs(v: string, tail: string)
    requires QuoteFree(v)
    ensures UpToQuote(v + "\"" + tail) == v
  {
    var text := v + "\"" + tail;
    if v != "" {
      assert text[1..] == v[1..] + "\"" + tail;
      UpToQuoteIs(v[1..], tail);
    }
  }

  lemma {:induction false} UpToFirstQuote(s: string, tail: string)
    ensures UpToQuote(s + "\"" + tail) == UpToQuote(s + "\"")
    ensures |UpToQuote(s + "\"")| <= |s|
    ensures UpToQuote(s + "\"") == s <==> QuoteFree(s)
  {
    if s != "" {
      assert (s + "\"" + tail)[1..] == s[1..] + "\"" + tail && (s + "\"")[1..] == s[1..] + "\"";
      UpToFirstQuote(s[1..], tail);
      assert s == [s[0]] + s[1..];
    }
  }

  lemma {:induction false} SkipToQuoteIs(v: string, tail: string)
    requires QuoteFree(v)
    ensures SkipToQuote(v + "\"" + tail) == "\"" + tail
  {
    var text := v + "\"" + tail;
    if v != "" {
      assert text[1..] == v[1..] + "\"" + tail;
      SkipToQuoteIs(v[1..], tail);
    } else {
      assert text == "\"" + tail;
    }
  }

  lemma {:induction false} StrChrIs(a: string, c: char, b: string)
    requires c !in a
    ensures StrChr(a + [c] + b, c) == Some(|a|)
  {
    var s := a + [c] + b;
    if a != "" {
      assert s[1..] == a[1..] + [c] + b;
      StrChrIs(a[1..], c, b);
    }
  }

  lemma AtKey(raw: string, key: string, after: string) returns (at: nat)
    requires AfterKey(raw, key) == Some(after)
    ensures StrStr(raw, Name(key)) == Some(at) && at <= |raw| && raw[at..] == Name(key) + after
  {
    at := StrStr(raw, Name(key)).value;
    var from := raw[at..];
    assert from[..|Name(key)|] == Name(key) && from[|Name(key)|..] == raw[at + |Name(key)|..];
  }

  lemma Regroup(a: string, b: string, c: char, d: string)
    ensures a + (b + [c] + d) == (a + b) + [c] + d
  {
  }

  lemma AtColon(from: string, before: string, quoted: string)
    requires from == before + [':'] + quoted && ':' !in before
    ensures StrChr(from, ':') == Some(|before|) && from[|before|..] == ":" + quoted
  {
    StrChrIs(before, ':', quoted);
  }

  lemma DropDrop(s: string, i: nat, j: nat)
    requires i + j <= |s|
    ensures s[i..][j..] == s[i + j..]
  {
  }

  lemma ColonAt(raw: string, key: string, between: string, quoted: string) returns (at: nat, n: nat)
    requires AfterKey(raw, key) == Some(between + ":" + quoted)
    requires ':' !in key && ':' !in between
    ensures StrStr(raw, Name(key)) == Some(at) && at + n <= |raw|
    ensures StrChr(raw[at..], ':') == Some(n)
    ensures raw[at + n..] == ":" + quoted
  {
    at := AtKey(raw, key, between + ":" + quoted);
    n := |Name(key) + between|;
    Regroup(Name(key), between, ':', quoted);
    AtColon(raw[at..], Name(key) + between, quoted);
    DropDrop(raw, at, n);
  }

  lemma SkipsColon(tail: string)
    ensures SkipToQuote(":" + ("\"" + tail)) == "\"" + tail
  {
    Assoc(":", "\"", tail);
    SkipToQuoteIs(":", tail);
  }

  lemma ValueStartIs(raw: string, key: string, between: string, tail: string)
    requires AfterKey(raw, key) == Some(between + ":" + ("\"" + tail))
    requires ':' !in key && ':' !in between
    ensures ValueStart(raw, key) == Some(tail)
  {
    var quoted := "\"" + tail;
    var at, n := ColonAt(raw, key, between, quoted);
    SkipsColon(tail);
    assert quoted[1..] == tail;
  }

  lemma ColonPiece(ps: seq<string>, i: nat, m: nat, rest: string)
    requires i < m < |ps| && ps[m] == ":"
    ensures Quoted(ps[i + 1..]) + rest == Quoted(ps[i + 1..m]) + ":" + ("\"" + (Quoted(ps[m + 1..]) + rest))
  {
    var tail := Quoted(ps[m + 1..]) + rest;
    assert ps[i + 1..] == ps[i + 1..m] + ([":"] + ps[m + 1..]);
    QuotedConcat(ps[i + 1..m], [":"] + ps[m + 1..]);
    QuotedCons(":", ps[m + 1..], rest);
    Assoc(Quoted(ps[i + 1..m]), ":", "\"" + tail);
    Assoc(Quoted(ps[i + 1..m]), Quoted([":"] + ps[m + 1..]), rest);
  }

  /** The reader passes colon-free pieces after the key; the value is the piece after the next ":". */
  lemma ValuePieceAfterColon(ps: seq<string>, key: string, i: nat, m: nat, rest: string)
    requires AllQuoteFree(ps) && ':' !in key
    requires 1 <= i < m < |ps| && ps[i] == key && ps[m] == ":"
    requires forall j :: 1 <= j < i ==> ps[j] != key
    requires forall j :: i < j < m ==> ':' !in ps[j]
    ensures ValueStart(Quoted(ps) + rest, key) == Some(Quoted(ps[m + 1..]) + rest)
  {
    FindKeyPiece(ps, key, i, rest);
    ColonPiece(ps, i, m, rest);
    NoColons(ps[i + 1..m]);
    ValueStartIs(Quoted(ps) + rest, key, Quoted(ps[i + 1..m]), Quoted(ps[m + 1..]) + rest);
  }

  lemma {:induction false} NoColons(ps: seq<string>)
    requires forall j :: 0 <= j < |ps| ==> ':' !in ps[j]
    ensures ':' !in Quoted(ps)
  {
    if ps != [] {
      NoColons(ps[1..]);
    }
  }

  lemma FieldPiece(ps: seq<string>, key: string, i: nat, m: nat, rest: string, room: nat)
    requires AllQuoteFree(ps) && ':' !in key
    requires 1 <= i < m && m + 1 < |ps| && ps[i] == key && ps[m] == ":"
    requires forall j :: 1 <= j < i ==> ps[j] != key
    requires forall j :: i < j < m ==> ':' !in ps[j]
    ensures Field(Quoted(ps) + rest, key, room) == Cut(ps[m + 1], room)
  {
    ValuePieceAfterColon(ps, key, i, m, rest);
    HeadUpToQuote(ps[m + 1..], rest);
  }

  lemma HeadUpToQuote(ps: seq<string>, rest: string)
    requires ps != [] && QuoteFree(ps[0])
    ensures UpToQuote(Quoted(ps) + rest) == ps[0]
  {
    assert ps == [ps[0]] + ps[1..];
    QuotedCons(ps[0], ps[1..], rest);
    Assoc(ps[0], "\"", Quoted(ps[1..]) + rest);
    UpToQuoteIs(ps[0], Quoted(ps[1..]) + rest);
  }

  /** A value behind all the pieces, of whatever text: it is read up to its first quote. */
  lemma LastValue(ps: seq<string>, key: string, i: nat, m: nat, value: string, tail: string, room: nat)
    requires AllQuoteFree(ps) && ':' !in key && |value| <= room
    requires 1 <= i < m && m + 1 == |ps| && ps[i] == key && ps[m] == ":"
    requires forall j :: 1 <= j < i ==> ps[j] != key
    requires forall j :: i < j < m ==> ':' !in ps[j]
    ensures Field(Quoted(ps) + (value + "\"" + tail), key, room) == UpToQuote(value + "\"")
  {
    var rest := value + "\"" + tail;
    ValuePieceAfterColon(ps, key, i, m, rest);
    assert Quoted(ps[m + 1..]) + rest == rest;
    UpToFirstQuote(value, tail);
  }
}
