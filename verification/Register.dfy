/** The registration message an agent prints and a receiver parses (sdk/protocol/protocol.c). */
module Register {
  import opened CStrings
  import opened Pieces
  import opened Json

  const MAX_CAPABILITIES: nat := 32
  const VERSION_LEN: nat := 16
  const CAPS_BUFFER: nat := 2048
  const CAP_ENTRY: nat := 72

  datatype AgentInfo = AgentInfo(name: string, version: string, capabilities: seq<string>)

  // ---- printing ----

  function CapEntry(i: nat, capability: string): string {
    (if i > 0 then "," else "") + Name(capability)
  }

  function CapsText(caps: seq<string>): string {
    if caps == [] then "" else CapsText(caps[..|caps| - 1]) + CapEntry(|caps| - 1, caps[|caps| - 1])
  }

  /** The same through the printer's two fixed buffers. */
  function CapsBuffer(caps: seq<string>): string {
    if caps == [] then ""
    else Cut(CapsBuffer(caps[..|caps| - 1]) + Cut(CapEntry(|caps| - 1, caps[|caps| - 1]), CAP_ENTRY - 1),
             CAPS_BUFFER - 1)
  }

  function RegisterText(name: string, version: string, caps: string): string {
    "{" + Member("type", "register") + "," + Member("name", name) + "," + Member("version", version)
    + "," + Name("capabilities") + (":[" + caps + "]}")
  }

  method BuildRegister(agent: AgentInfo, outLen: nat) returns (out: string)
    requires outLen > 0
    ensures out == Cut(RegisterText(agent.name, agent.version, CapsBuffer(agent.capabilities)), outLen - 1)
  {
    var buf := "";
    var caps := agent.capabilities;
    for i := 0 to |caps|
      invariant buf == CapsBuffer(caps[..i])
    {
      assert caps[..i + 1][..i] == caps[..i];
      var entry := Cut((if i > 0 then "," else "") + Name(caps[i]), CAP_ENTRY - 1);
      buf := Cut(buf + entry, CAPS_BUFFER - 1);
    }
    assert caps[..|caps|] == caps;
    out := Cut(RegisterText(agent.name, agent.version, buf), outLen - 1);
  }

  // ---- parsing ----

  function OrEmpty(s: Option<string>): string {
    if s.Some? then s.value else ""
  }

  function ParsedRegister(raw: string): AgentInfo {
    AgentInfo(OrEmpty(ExtractString(raw, "name", MAX_NAME_LEN - 1)),
              OrEmpty(ExtractString(raw, "version", VERSION_LEN - 1)),
              ExtractArray(raw, "capabilities", MAX_CAPABILITIES))
  }

  class AgentRecord {
    const name: array<char>
    const version: array<char>
    var capabilities: seq<string>

    ghost predicate Valid()
      reads this
    {
      name.Length == MAX_NAME_LEN && version.Length == VERSION_LEN && name != version
    }

    constructor ()
      ensures Valid() && fresh(name) && fresh(version)
    {
      name := new char[MAX_NAME_LEN];
      version := new char[VERSION_LEN];
      capabilities := [];
    }

    method ParseRegister(raw: string)
      requires Valid()
      modifies this, name, version
      ensures Valid()
      ensures Holds(name, ParsedRegister(raw).name) && Holds(version, ParsedRegister(raw).version)
      ensures capabilities == ParsedRegister(raw).capabilities
    {
      name[0], version[0] := '\0', '\0';
      var ok := JsonExtractString(raw, "name", name);
      ok := JsonExtractString(raw, "version", version);
      ok, capabilities := JsonExtractStringArray(raw, "capabilities", MAX_CAPABILITIES);
    }
  }

  // ---- round trip ----

  predicate Plain(s: string) {
    QuoteFree(s) && '\\' !in s
  }

  /** Within the field sizes, and the capability list within its buffer. */
  ghost predicate Sized(a: AgentInfo) {
    && |a.name| < MAX_NAME_LEN && |a.version| < VERSION_LEN && |a.capabilities| <= MAX_CAPABILITIES
    && (forall c :: c in a.capabilities ==> |c| < MAX_NAME_LEN)
    && |CapsText(a.capabilities)| < CAPS_BUFFER
  }

  ghost predicate AllPlain(caps: seq<string>) {
    forall i :: 0 <= i < |caps| ==> Plain(caps[i])
  }

  lemma CutTwice(a: string, b: string, n: nat)
    ensures Cut(Cut(a, n) + b, n) == Cut(a + b, n)
  {
  }

  /** Whatever its length, the list is printed as far as its 2048-byte buffer goes: the buffer of the single entry never
      cuts one. */
  lemma {:induction false} CapsBufferIs(caps: seq<string>)
    requires forall c :: c in caps ==> |c| < 64
    ensures CapsBuffer(caps) == Cut(CapsText(caps), 2047)
  {
    if caps != [] {
      var n := |caps| - 1;
      assert caps[n] in caps;
      CapsBufferIs(caps[..n]);
      CutTwice(CapsText(caps[..n]), CapEntry(n, caps[n]), 2047);
    }
  }

  lemma CapsFit(caps: seq<string>)
    requires forall c :: c in caps ==> |c| < MAX_NAME_LEN
    requires |CapsText(caps)| < CAPS_BUFFER
    ensures CapsBuffer(caps) == CapsText(caps)
  {
    CapsBufferIs(caps);
  }

  /** Both readers at once: up to `room` characters before a quote, where a backslash makes the next one `esc` of it. */
  function ReadBy(esc: char -> char, s: string, room: nat): string {
    if s == "" || s[0] == '"' || room == 0 then ""
    else if s[0] == '\\' && |s| > 1 then [esc(s[1])] + ReadBy(esc, s[2..], room - 1)
    else [s[0]] + ReadBy(esc, s[1..], room - 1)
  }

  function Literal(c: char): char {
    c
  }

  lemma {:induction false} UnescapedReads(s: string, room: nat)
    ensures Unescaped(s, room) == ReadBy(UnescapeChar, s, room)
    decreases |s|
  {
    if |s| > 1 && room > 0 {
      UnescapedReads(s[1..], room - 1);
      UnescapedReads(s[2..], room - 1);
    }
  }

  lemma {:induction false} ItemReads(s: string, room: nat)
    ensures ReadItem(s, room).0 == ReadBy(Literal, s, room)
    decreases |s|
  {
    if |s| > 1 && room > 0 {
      ItemReads(s[1..], room - 1);
      ItemReads(s[2..], room - 1);
    }
  }

  /** Only a backslash stands for a backslash. */
  ghost predicate KeepsBackslash(esc: char -> char) {
    forall c :: esc(c) == '\\' <==> c == '\\'
  }

  predicate Doubled(u: string) {
    |u| >= 2 && u[0] == u[1] == '\\'
  }

  lemma ReadDoubled(esc: char -> char, u: string, tail: string, room: nat)
    requires KeepsBackslash(esc) && Doubled(u) && room > 0
    ensures ReadBy(esc, u + "\"" + tail, room) == "\\" + ReadBy(esc, u[2..] + "\"" + tail, room - 1)
  {
    assert (u + "\"" + tail)[2..] == u[2..] + "\"" + tail;
  }

  lemma ReadOther(esc: char -> char, u: string, tail: string, room: nat)
    requires KeepsBackslash(esc) && (!Doubled(u) || room == 0)
    ensures var r := ReadBy(esc, u + "\"" + tail, room); r == "" || r[0] != '\\'
  {
    var text := u + "\"" + tail;
    if |u| == 1 {
      assert text[1] == '"';
    }
  }

  predicate Backslashes(s: string) {
    s != "" && forall i :: 0 <= i < |s| ==> s[i] == '\\'
  }

  lemma NextInRun(x: string, u: string)
    requires Backslashes(x) && Doubled(u)
    ensures Backslashes(x[1..] + u[..2]) && (x + u)[1..] == x[1..] + u[..2] + u[2..]
  {
  }

  lemma ConsDiffers(c: char, r: string, y: string)
    requires y != "" && r != y[1..]
    ensures [c] + r != y
  {
    assert ([c] + r)[1..] == r;
  }

  /** Reading `u` up to its closing quote never gives `u` with a run of backslashes before it: the reading always
      runs ahead of what it should produce. */
  lemma {:induction false} ReadingRunsAhead(esc: char -> char, x: string, u: string, tail: string, room: nat)
    requires KeepsBackslash(esc) && Backslashes(x)
    ensures ReadBy(esc, u + "\"" + tail, room) != x + u
    decreases |u|
  {
    if Doubled(u) && room > 0 {
      NextInRun(x, u);
      ReadingRunsAhead(esc, x[1..] + u[..2], u[2..], tail, room - 1);
      ReadDoubled(esc, u, tail, room);
      ConsDiffers('\\', ReadBy(esc, u[2..] + "\"" + tail, room - 1), x + u);
    } else {
      ReadOther(esc, u, tail, room);
      assert (x + u)[0] == '\\';
    }
  }

  lemma ReadEscapeFirst(esc: char -> char, v: string, tail: string, room: nat)
    requires KeepsBackslash(esc) && v != "" && v[0] == '\\'
    ensures ReadBy(esc, v + "\"" + tail, room) != v
  {
    if Doubled(v) && room > 0 {
      assert "\\" + v[2..] == v[1..];
      ReadingRunsAhead(esc, "\\", v[2..], tail, room - 1);
      ReadDoubled(esc, v, tail, room);
      ConsDiffers('\\', ReadBy(esc, v[2..] + "\"" + tail, room - 1), v);
    } else {
      ReadOther(esc, v, tail, room);
    }
  }

  lemma ReadOrdinary(esc: char -> char, v: string, tail: string, room: nat)
    requires v != "" && v[0] != '\\' && v[0] != '"' && room > 0
    ensures ReadBy(esc, v + "\"" + tail, room) == [v[0]] + ReadBy(esc, v[1..] + "\"" + tail, room - 1)
  {
    assert (v + "\"" + tail)[1..] == v[1..] + "\"" + tail;
  }

  lemma ReadAtQuote(esc: char -> char, v: string, tail: string, room: nat)
    requires v == "" || v[0] == '"'
    ensures ReadBy(esc, v + "\"" + tail, room) == ""
  {
  }

  /** A printed text reads back as itself exactly when it has no quote and no backslash. */
  lemma {:induction false} ReadIffPlain(esc: char -> char, v: string, tail: string, room: nat)
    requires KeepsBackslash(esc) && |v| <= room
    ensures ReadBy(esc, v + "\"" + tail, room) == v <==> Plain(v)
    decreases |v|
  {
    if v == "" || v[0] == '"' {
      ReadAtQuote(esc, v, tail, room);
    } else if v[0] == '\\' {
      ReadEscapeFirst(esc, v, tail, room);
    } else {
      ReadIffPlain(esc, v[1..], tail, room - 1);
      ReadOrdinary(esc, v, tail, room);
      assert v == [v[0]] + v[1..];
      assert Plain(v) <==> Plain(v[1..]);
      assert ([v[0]] + ReadBy(esc, v[1..] + "\"" + tail, room - 1))[1..] == ReadBy(esc, v[1..] + "\"" + tail, room - 1);
    }
  }

  lemma {:induction false} AfterPlainItem(v: string, tail: string, room: nat)
    requires Plain(v) && |v| <= room
    ensures ReadItem(v + "\"" + tail, room).1 == "\"" + tail
  {
    var text := v + "\"" + tail;
    if v != "" {
      assert text[1..] == v[1..] + "\"" + tail;
      AfterPlainItem(v[1..], tail, room - 1);
    } else {
      assert text == "\"" + tail;
    }
  }

  lemma ItemIffPlain(v: string, tail: string, room: nat)
    requires |v| <= room
    ensures ReadItem(v + "\"" + tail, room).0 == v <==> Plain(v)
    ensures Plain(v) ==> ReadItem(v + "\"" + tail, room).1 == "\"" + tail
  {
    ItemReads(v + "\"" + tail, room);
    ReadIffPlain(Literal, v, tail, room);
    if Plain(v) {
      AfterPlainItem(v, tail, room);
    }
  }

  lemma CapsPush(cs: seq<string>, c: string)
    ensures CapsText(cs + [c]) == CapsText(cs) + CapEntry(|cs|, c)
  {
    assert (cs + [c])[..|cs|] == cs;
  }

  lemma CapsOne(c: string)
    ensures CapsText([c]) == Name(c)
  {
    CapsPush([], c);
    assert [] + [c] == [c];
  }

  lemma {:induction false} CapsFromFront(c: string, cs: seq<string>)
    ensures CapsText([c] + cs) == Name(c) + if cs == [] then "" else "," + CapsText(cs)
  {
    CapsOne(c);
    if cs == [] {
      assert [c] + cs == [c];
    } else {
      var front, last := cs[..|cs| - 1], cs[|cs| - 1];
      assert cs == front + [last] && [c] + cs == ([c] + front) + [last];
      CapsFromFront(c, front);
      CapsPush([c] + front, last);
      CapsPush(front, last);
      CapsJoin(c, front, last);
    }
  }

  lemma CapsJoin(c: string, front: seq<string>, last: string)
    ensures Name(c) + (if front == [] then "" else "," + CapsText(front)) + ("," + Name(last))
         == Name(c) + ("," + (CapsText(front) + CapEntry(|front|, last)))
  {
    if front == [] {
      assert Name(c) + "" == Name(c);
      assert CapsText(front) + CapEntry(0, last) == Name(last);
    } else {
      Assoc(Name(c), "," + CapsText(front), "," + Name(last));
      Assoc(",", CapsText(front), "," + Name(last));
    }
  }

  lemma NextCap(c: string, after: string)
    requires |c| < MAX_NAME_LEN
    requires after != "" && !IsJsonSpace(after[0])
    ensures NextItem(Name(c) + after).0 == Some(c) <==> Plain(c)
    ensures NextItem(Name(c) + after).0.Some?
    ensures Plain(c) ==> NextItem(Name(c) + after).1 == Drop(after, ',')
  {
    var text := Name(c) + after;
    assert text[1..] == c + "\"" + after;
    ItemIffPlain(c, after, MAX_NAME_LEN - 1);
    assert ("\"" + after)[1..] == after;
  }

  lemma ItemsCons(c: string, after: string, max: nat)
    requires |c| < MAX_NAME_LEN && max > 0
    requires after != "" && !IsJsonSpace(after[0])
    ensures var items := Items(Name(c) + after, max);
            && items != [] && (items[0] == c <==> Plain(c))
            && (Plain(c) ==> items == [c] + Items(Drop(after, ','), max - 1))
  {
    NextCap(c, after);
    assert (Name(c) + after)[0] == '"';
  }

  // ---- lists with whitespace in them ----

  /** The items of a list, each with whitespace before and behind it. */
  datatype Spaced = Spaced(before: string, item: string, behind: string)

  ghost predicate Readable(s: Spaced) {
    AllSpace(s.before) && AllSpace(s.behind) && Plain(s.item) && |s.item| < MAX_NAME_LEN
  }

  /** The text of such a list up to its closing bracket. */
  function SpacedText(items: seq<Spaced>): string {
    if items == [] then "]"
    else
      var s := items[0];
      s.before + (Name(s.item) + (s.behind + ((if |items| > 1 then "," else "") + SpacedText(items[1..]))))
  }

  function ItemsOf(items: seq<Spaced>): seq<string> {
    if items == [] then [] else [items[0].item] + ItemsOf(items[1..])
  }

  lemma SpacedItem(s: Spaced, after: string)
    requires Readable(s) && after != "" && (after[0] == ',' || after[0] == ']')
    ensures NextItem(s.before + (Name(s.item) + (s.behind + after))) == (Some(s.item), Drop(after, ','))
  {
    var rest := Name(s.item) + (s.behind + after);
    SkipsSpace(s.before, rest);
    assert rest[1..] == s.item + "\"" + (s.behind + after);
    ItemIffPlain(s.item, s.behind + after, MAX_NAME_LEN - 1);
    assert ("\"" + (s.behind + after))[1..] == s.behind + after;
    SkipsSpace(s.behind, after);
  }

  lemma SpacedStep(s: Spaced, after: string, max: nat)
    requires Readable(s) && after != "" && (after[0] == ',' || after[0] == ']') && max > 0
    ensures Items(s.before + (Name(s.item) + (s.behind + after)), max) == [s.item] + Items(Drop(after, ','), max - 1)
  {
    var text := s.before + (Name(s.item) + (s.behind + after));
    SpacedItem(s, after);
    assert text[0] == if s.before == "" then '"' else s.before[0];
    assert s.before != "" ==> s.before[0] in s.before;
  }

  /** Whitespace around the items of a list changes nothing. */
  lemma {:induction false} SpacedListReads(items: seq<Spaced>, rest: string, max: nat)
    requires forall i :: 0 <= i < |items| ==> Readable(items[i])
    requires |items| <= max
    ensures Items(SpacedText(items) + rest, max) == ItemsOf(items)
    decreases |items|
  {
    if items != [] {
      SpacedListReads(items[1..], rest, max - 1);
      SpacedAppend(items, rest);
      SpacedFront(items[0], SpacedText(items[1..]) + rest, |items| > 1, max);
    }
  }

  lemma SpacedFront(s: Spaced, more: string, comma: bool, max: nat)
    requires Readable(s) && max > 0 && (!comma ==> more != "" && more[0] == ']')
    ensures Items(s.before + (Name(s.item) + (s.behind + ((if comma then "," else "") + more))), max)
         == [s.item] + Items(more, max - 1)
  {
    var after := (if comma then "," else "") + more;
    assert if comma then after[1..] == more else after == more;
    SpacedStep(s, after, max);
  }

  lemma SpacedAppend(items: seq<Spaced>, rest: string)
    requires items != []
    ensures var s := items[0];
            SpacedText(items) + rest
              == s.before + (Name(s.item) + (s.behind + ((if |items| > 1 then "," else "")
                                                          + (SpacedText(items[1..]) + rest))))
  {
    var s, comma, tail := items[0], if |items| > 1 then "," else "", SpacedText(items[1..]);
    Assoc(comma, tail, rest);
    Assoc(s.behind, comma + tail, rest);
    Assoc(Name(s.item), s.behind + (comma + tail), rest);
    Assoc(s.before, Name(s.item) + (s.behind + (comma + tail)), rest);
  }

  lemma CapsTextCons(c: string, cs: seq<string>, rest: string) returns (after: string)
    requires rest != "" && rest[0] == ']'
    ensures CapsText([c] + cs) + rest == Name(c) + after
    ensures after != "" && (after[0] == ',' || after[0] == ']') && Drop(after, ',') == CapsText(cs) + rest
  {
    CapsFromFront(c, cs);
    if cs == [] {
      after := rest;
      assert CapsText(cs) + rest == rest;
    } else {
      after := "," + (CapsText(cs) + rest);
      assert after[1..] == CapsText(cs) + rest;
      Assoc(Name(c), "," + CapsText(cs), rest);
      Assoc(",", CapsText(cs), rest);
    }
  }

  lemma ItemsStep(c: string, cs: seq<string>, rest: string, max: nat)
    requires |c| < MAX_NAME_LEN && max > 0
    requires rest != "" && rest[0] == ']'
    ensures var items := Items(CapsText([c] + cs) + rest, max);
            && items != [] && (items[0] == c <==> Plain(c))
            && (Plain(c) ==> items == [c] + Items(CapsText(cs) + rest, max - 1))
  {
    var after := CapsTextCons(c, cs, rest);
    ItemsCons(c, after, max);
  }

  /** A printed capability list reads back as itself exactly when no capability has a quote or a backslash. */
  lemma {:induction false} ItemsOfCaps(caps: seq<string>, rest: string, max: nat)
    requires forall i :: 0 <= i < |caps| ==> |caps[i]| < MAX_NAME_LEN
    requires |caps| <= max && rest != "" && rest[0] == ']'
    ensures Items(CapsText(caps) + rest, max) == caps <==> AllPlain(caps)
    decreases |caps|
  {
    if caps == [] {
      assert CapsText(caps) + rest == rest;
    } else {
      assert caps == [caps[0]] + caps[1..];
      ItemsOfCaps(caps[1..], rest, max - 1);
      ItemsOfCons(caps[0], caps[1..], rest, max);
    }
  }

  lemma ItemsOfCons(c: string, cs: seq<string>, rest: string, max: nat)
    requires |c| < MAX_NAME_LEN && max > 0 && rest != "" && rest[0] == ']'
    requires Items(CapsText(cs) + rest, max - 1) == cs <==> AllPlain(cs)
    ensures Items(CapsText([c] + cs) + rest, max) == [c] + cs <==> AllPlain([c] + cs)
  {
    ItemsStep(c, cs, rest, max);
    AllPlainCons(c, cs);
    if Plain(c) {
      SameTails(c, Items(CapsText(cs) + rest, max - 1), cs);
    }
  }

  lemma AllPlainCons(c: string, cs: seq<string>)
    ensures AllPlain([c] + cs) <==> Plain(c) && AllPlain(cs)
  {
    if AllPlain([c] + cs) {
      assert ([c] + cs)[0] == c && forall i :: 0 <= i < |cs| ==> ([c] + cs)[i + 1] == cs[i];
    }
  }

  lemma SameTails(c: string, a: seq<string>, b: seq<string>)
    ensures [c] + a == [c] + b <==> a == b
  {
    assert ([c] + a)[1..] == a && ([c] + b)[1..] == b;
  }

  /** The pieces of a register message up to its capability list. */
  function HeadPieces(name: string, version: string): seq<string> {
    ["{", "type", ":", "register", ",", "name", ":", name, ",", "version", ":", version, ",", "capabilities"]
  }

  lemma RegisterPieces(name: string, version: string, caps: string)
    ensures RegisterText(name, version, caps) == Quoted(HeadPieces(name, version)) + (":[" + caps + "]}")
  {
    var p1 := ["{", "type", ":", "register"];
    var p2 := p1 + [",", "name", ":", name];
    var p3 := p2 + [",", "version", ":", version];
    PushMember([], "{", "type", "register");
    assert [] + ["{", "type", ":", "register"] == p1;
    assert Quoted([]) + "{" + Member("type", "register") == "{" + Member("type", "register");
    PushMember(p1, ",", "name", name);
    PushMember(p2, ",", "version", version);
    PushName(p3, ",", "capabilities");
    assert p3 + [",", "capabilities"] == HeadPieces(name, version);
  }

  /** A field printed as piece n behind its key reads back exactly when it is plain. */
  lemma FieldParses(ps: seq<string>, n: nat, rest: string, key: string, room: nat)
    requires 3 <= n < |ps| && AllQuoteFree(ps[..n]) && |key| <= 125 && ps[n - 2] == key && ps[n - 1] == ":"
    requires forall j :: 1 <= j < n - 2 ==> ps[j] != key
    requires |ps[n]| <= room
    ensures var read := ExtractString(Quoted(ps) + rest, key, room);
            read.Some? && (read.value == ps[n] <==> Plain(ps[n]))
  {
    var more := ps[n] + "\"" + (Quoted(ps[n + 1..]) + rest);
    SplitText(ps, n, rest);
    ValueText(ps[..n], key, n - 2, more, room);
    assert ps[..n][n..] == [];
    assert Quoted([]) + more == more;
    UnescapedReads(more, room);
    ReadIffPlain(UnescapeChar, ps[n], Quoted(ps[n + 1..]) + rest, room);
  }

  lemma NameParses(name: string, version: string, rest: string)
    requires |name| < MAX_NAME_LEN
    ensures var read := ExtractString(Quoted(HeadPieces(name, version)) + rest, "name", MAX_NAME_LEN - 1);
            read.Some? && (read.value == name <==> Plain(name))
  {
    FieldParses(HeadPieces(name, version), 7, rest, "name", MAX_NAME_LEN - 1);
  }

  lemma VersionParses(name: string, version: string, rest: string)
    requires Plain(name) && |version| < VERSION_LEN
    ensures var read := OrEmpty(ExtractString(Quoted(HeadPieces(name, version)) + rest, "version", VERSION_LEN - 1));
            if name == "version" then read == "" else read == version <==> Plain(version)
  {
    var ps := HeadPieces(name, version);
    if name == "version" {
      SplitText(ps, 11, rest);
      NoValuePiece(ps[..11], "version", 7, version + "\"" + (Quoted(ps[12..]) + rest));
    } else {
      FieldParses(ps, 11, rest, "version", VERSION_LEN - 1);
    }
  }

  lemma CapabilitiesFound(name: string, version: string, caps: seq<string>)
    requires Plain(name) && Plain(version) && |caps| <= MAX_CAPABILITIES
    requires forall i :: 0 <= i < |caps| ==> |caps[i]| < MAX_NAME_LEN
    requires name != "capabilities" && version != "capabilities"
    ensures var text := Quoted(HeadPieces(name, version)) + (":[" + CapsText(caps) + "]}");
            ExtractArray(text, "capabilities", MAX_CAPABILITIES) == caps <==> AllPlain(caps)
  {
    var ps, rest := HeadPieces(name, version), ":[" + CapsText(caps) + "]}";
    FindKeyPiece(ps, "capabilities", 13, rest);
    assert Quoted(ps[14..]) + rest == rest;
    BracketValue(Quoted(ps) + rest, CapsText(caps));
    ItemsOfCaps(caps, "]}", MAX_CAPABILITIES);
  }

  lemma BracketValue(json: string, caps: string)
    requires AfterKey(json, "capabilities") == Some(":[" + caps + "]}")
    ensures ExtractArray(json, "capabilities", MAX_CAPABILITIES) == Items(caps + "]}", MAX_CAPABILITIES)
  {
    var rest, value := ":[" + caps + "]}", "[" + (caps + "]}");
    assert rest[1..] == value && value[1..] == caps + "]}";
    assert KeyValue(json, "capabilities") == Some(value);
  }

  lemma CapabilitiesHidden(name: string, version: string, rest: string)
    requires Plain(name) && Plain(version)
    requires name == "capabilities" || version == "capabilities"
    ensures ExtractArray(Quoted(HeadPieces(name, version)) + rest, "capabilities", MAX_CAPABILITIES) == []
  {
    NoValuePiece(HeadPieces(name, version), "capabilities", if name == "capabilities" then 7 else 11, rest);
  }

  /** What the parser recovers of each field: the name exactly when it is plain; then the version exactly when it is
      plain and not hidden by the name; then the capabilities exactly when they are plain and not hidden by either. */
  lemma ParsesBack(name: string, version: string, caps: seq<string>)
    requires Sized(AgentInfo(name, version, caps))
    ensures var p := ParsedRegister(RegisterText(name, version, CapsText(caps)));
            && (p.name == name <==> Plain(name))
            && (Plain(name) ==> if name == "version" then p.version == "" else p.version == version <==> Plain(version))
            && (Plain(name) && Plain(version) ==>
                  if name == "capabilities" || version == "capabilities" then p.capabilities == []
                  else p.capabilities == caps <==> AllPlain(caps))
  {
    var rest := ":[" + CapsText(caps) + "]}";
    RegisterPieces(name, version, CapsText(caps));
    NameParses(name, version, rest);
    if Plain(name) {
      VersionParses(name, version, rest);
    }
    if Plain(name) && Plain(version) {
      if name == "capabilities" || version == "capabilities" {
        CapabilitiesHidden(name, version, rest);
      } else {
        assert forall i :: 0 <= i < |caps| ==> caps[i] in caps;
        CapabilitiesFound(name, version, caps);
      }
    }
  }

  /** Printing an agent and parsing the message back gives the same agent exactly when its texts have no quote and no
      backslash and no field that equals a later key hides a non-empty value. */
  lemma RegisterRoundTrips(a: AgentInfo, outLen: nat)
    requires Sized(a)
    requires |RegisterText(a.name, a.version, CapsText(a.capabilities))| < outLen
    ensures ParsedRegister(Cut(RegisterText(a.name, a.version, CapsBuffer(a.capabilities)), outLen - 1)) == a <==>
              && Plain(a.name) && Plain(a.version) && AllPlain(a.capabilities)
              && (a.name == "version" ==> a.version == "")
              && (a.name == "capabilities" || a.version == "capabilities" ==> a.capabilities == [])
  {
    CapsFit(a.capabilities);
    ParsesBack(a.name, a.version, a.capabilities);
  }

  /** An agent called "version" loses its version. */
  lemma NamedVersion(version: string, outLen: nat)
    requires |RegisterText("version", version, CapsText([]))| < outLen && 0 < |version| < VERSION_LEN
    ensures var a := AgentInfo("version", version, []);
            ParsedRegister(Cut(RegisterText(a.name, a.version, CapsBuffer(a.capabilities)), outLen - 1)) != a
  {
    RegisterRoundTrips(AgentInfo("version", version, []), outLen);
  }
}
