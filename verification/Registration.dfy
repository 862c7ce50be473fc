/** How the orchestrator reads a message, and in particular a registration
    (components/orchestrator/protocol/protocol.c and the register case of components/orchestrator/main.c),
    against the message that the SDK prints (sdk/protocol/protocol.c). */
module Registration {
  import opened CStrings
  import opened Pieces
  import opened Json
  import opened Fields
  import Registry
  import Register

  const MAX_MESSAGE_SIZE: nat := 65536
  const MAX_SOCKET_LEN: nat := 256

  datatype Kind = Ping | Request | Registration | Unknown

  /** Any mention of "query" makes a message a request. */
  function KindOf(raw: string): Kind {
    if StrStr(raw, Member("type", "ping")).Some? then Ping
    else if StrStr(raw, Member("type", "request")).Some? || StrStr(raw, Name("query")).Some? then Request
    else if StrStr(raw, Member("type", "register")).Some? then Registration
    else Unknown
  }

  /** With the texts written out. */
  lemma KindExactly(raw: string)
    ensures KindOf(raw) ==
              if StrStr(raw, "\"type\":\"ping\"").Some? then Ping
              else if StrStr(raw, "\"type\":\"request\"").Some? || StrStr(raw, "\"query\"").Some? then Request
              else if StrStr(raw, "\"type\":\"register\"").Some? then Registration
              else Unknown
  {
    KindTexts();
  }

  lemma KindTexts()
    ensures Member("type", "ping") == "\"type\":\"ping\"" && Name("query") == "\"query\""
    ensures Member("type", "request") == "\"type\":\"request\""
    ensures Member("type", "register") == "\"type\":\"register\""
  {
  }

  function QueryOf(raw: string): string {
    EscapedField(raw, "query", MAX_MESSAGE_SIZE - 1)
  }

  function SocketKey(raw: string): string {
    if StrStr(raw, Name("socket")).Some? then "socket" else "socket_path"
  }

  /** The text after the first '[' that follows a quoted key. */
  function ListAfter(raw: string, key: string): Option<string> {
    var at := StrStr(raw, Name(key));
    if at.None? then None else AfterBracket(raw[at.value..])
  }

  function AfterBracket(from: string): Option<string> {
    var open := StrChr(from, '[');
    if open.None? then None else Some(from[open.value + 1..])
  }

  function CapsStart(raw: string): Option<string> {
    ListAfter(raw, "capabilities")
  }

  /** Up to `room` characters before a quote, and the text from there on. */
  function ReadUpTo(s: string, room: nat): (r: (string, string))
    ensures |r.1| <= |s|
  {
    if s == "" || s[0] == '"' || room == 0 then ("", s)
    else
      var r := ReadUpTo(s[1..], room - 1);
      ([s[0]] + r.0, r.1)
  }

  function SkipToSeparator(s: string): (r: string)
    ensures |r| <= |s|
  {
    if s != "" && s[0] != ',' && s[0] != ']' then SkipToSeparator(s[1..]) else s
  }

  function DropFirst(s: string): string {
    if s == "" then s else s[1..]
  }

  /** One turn of the capability loop: the next capability, if a quote is left, and the text after its separator. */
  function NextCap(s: string): (r: (Option<string>, string))
    ensures |r.1| <= |s| && (r.0.Some? ==> |r.1| < |s|) && (r.0.None? ==> r.1 == "")
  {
    var a := SkipToQuote(s);
    if a == "" then (None, "")
    else
      var item := ReadUpTo(a[1..], MAX_NAME_LEN - 1);
      (Some(item.0), Drop(SkipToSeparator(DropFirst(item.1)), ','))
  }

  function CapList(s: string, max: nat): (r: seq<string>)
    ensures |r| <= max
    decreases max
  {
    if s == "" || s[0] == ']' || max == 0 then []
    else
      var next := NextCap(s);
      if next.0.None? then [] else [next.0.value] + CapList(next.1, max - 1)
  }

  function CapsOf(raw: string): seq<string> {
    var start := CapsStart(raw);
    if start.Some? then CapList(start.value, Register.MAX_CAPABILITIES) else []
  }

  function AgentOf(raw: string, now: int): Registry.Agent {
    Registry.Agent(Field(raw, "name", MAX_NAME_LEN - 1), Field(raw, "version", Register.VERSION_LEN - 1),
                   Field(raw, SocketKey(raw), MAX_SOCKET_LEN - 1), CapsOf(raw), true, now)
  }

  // ---- the reader, step by step ----

  method ReadAgent(raw: CString, now: int) returns (a: Registry.Agent)
    ensures a == AgentOf(raw, now)
  {
    var name := ReadFieldText(raw, "name", MAX_NAME_LEN);
    var version := ReadFieldText(raw, "version", Register.VERSION_LEN);
    var key := "socket";
    if StrStr(raw, Name("socket")).None? {
      key := "socket_path";
    }
    var socket := ReadFieldText(raw, key, MAX_SOCKET_LEN);
    var caps := ReadCaps(raw);
    a := Registry.Agent(name, version, socket, caps, true, now);
  }

  method ReadCaps(raw: string) returns (caps: seq<string>)
    ensures caps == CapsOf(raw)
  {
    var start := FindCaps(raw);
    if start.None? { return []; }
    caps := ReadCapList(raw, start.value);
  }

  method FindCaps(raw: string) returns (start: Option<nat>)
    ensures start.Some? <==> CapsStart(raw).Some?
    ensures start.Some? ==> start.value <= |raw| && raw[start.value..] == CapsStart(raw).value
  {
    var at := StrStr(raw, Name("capabilities"));
    if at.None? { return None; }
    var open := StrChr(raw[at.value..], '[');
    if open.None? { return None; }
    DropDrop(raw, at.value, open.value + 1);
    return Some(at.value + open.value + 1);
  }

  /** Reading on from here completes `caps` to `all`. */
  ghost predicate CapsLeft(all: seq<string>, caps: seq<string>, rest: string) {
    |caps| <= Register.MAX_CAPABILITIES && all == caps + CapList(rest, Register.MAX_CAPABILITIES - |caps|)
  }

  lemma CapTaken(all: seq<string>, caps: seq<string>, rest: string)
    requires CapsLeft(all, caps, rest) && rest != "" && rest[0] != ']' && |caps| < Register.MAX_CAPABILITIES
    ensures var next := NextCap(rest);
            CapsLeft(all, if next.0.Some? then caps + [next.0.value] else caps, next.1)
  {
    var next := NextCap(rest);
    if next.0.Some? {
      Assoc(caps, [next.0.value], CapList(next.1, Register.MAX_CAPABILITIES - |caps| - 1));
    }
  }

  method ReadCapList(raw: string, start: nat) returns (caps: seq<string>)
    requires start <= |raw|
    ensures caps == CapList(raw[start..], Register.MAX_CAPABILITIES)
  {
    caps := [];
    var p := start;
    ghost var all := CapList(raw[start..], Register.MAX_CAPABILITIES);
    while p < |raw| && raw[p] != ']' && |caps| < Register.MAX_CAPABILITIES
      invariant p <= |raw| && CapsLeft(all, caps, raw[p..])
      decreases |raw| - p
    {
      CapTaken(all, caps, raw[p..]);
      var cap;
      cap, p := ReadNextCap(raw, p);
      if cap.Some? {
        caps := caps + [cap.value];
      }
    }
  }

  method ReadNextCap(raw: string, start: nat) returns (cap: Option<string>, p: nat)
    requires start < |raw|
    ensures start < p <= |raw|
    ensures cap == NextCap(raw[start..]).0 && raw[p..] == NextCap(raw[start..]).1
  {
    cap := None;
    p := FindQuote(raw, start);
    if p < |raw| {
      assert raw[p..][1..] == raw[p + 1..];
      var item;
      item, p := CopyItem(raw, p + 1);
      cap := Some(item);
      p := AfterItem(raw, p);
    }
  }

  lemma CopiedOne(whole: string, item: string, raw: string, p: nat, room: nat)
    requires p < |raw| && raw[p] != '"' && room > 0 && whole == item + ReadUpTo(raw[p..], room).0
    ensures whole == item + [raw[p]] + ReadUpTo(raw[p + 1..], room - 1).0
    ensures ReadUpTo(raw[p..], room).1 == ReadUpTo(raw[p + 1..], room - 1).1
  {
    assert raw[p..][1..] == raw[p + 1..];
    Assoc(item, [raw[p]], ReadUpTo(raw[p + 1..], room - 1).0);
  }

  method CopyItem(raw: string, start: nat) returns (item: string, p: nat)
    requires start <= |raw|
    ensures start <= p <= |raw| && item == ReadUpTo(raw[start..], MAX_NAME_LEN - 1).0
    ensures raw[p..] == ReadUpTo(raw[start..], MAX_NAME_LEN - 1).1
  {
    item, p := "", start;
    ghost var whole := ReadUpTo(raw[start..], MAX_NAME_LEN - 1);
    while p < |raw| && raw[p] != '"' && |item| < MAX_NAME_LEN - 1
      invariant start <= p <= |raw| && |item| < MAX_NAME_LEN
      invariant whole.0 == item + ReadUpTo(raw[p..], MAX_NAME_LEN - 1 - |item|).0
      invariant whole.1 == ReadUpTo(raw[p..], MAX_NAME_LEN - 1 - |item|).1
    {
      CopiedOne(whole.0, item, raw, p, MAX_NAME_LEN - 1 - |item|);
      item := item + [raw[p]];
      p := p + 1;
    }
  }

  /** Past the closing quote and the separator. */
  method AfterItem(raw: string, start: nat) returns (p: nat)
    requires start <= |raw|
    ensures start <= p <= |raw| && raw[p..] == Drop(SkipToSeparator(DropFirst(raw[start..])), ',')
  {
    p := start;
    if p < |raw| {
      assert raw[p..][1..] == raw[p + 1..];
      p := p + 1;
    }
    ghost var from := raw[p..];
    while p < |raw| && raw[p] != ',' && raw[p] != ']'
      invariant start <= p <= |raw| && SkipToSeparator(raw[p..]) == SkipToSeparator(from)
    {
      assert raw[p..][1..] == raw[p + 1..];
      p := p + 1;
    }
    p := DropAt(raw, p, ',');
  }

  // ---- what is read never holds a quote and fits its field ----

  lemma {:induction false} UpToQuoteFree(s: string)
    ensures QuoteFree(UpToQuote(s))
  {
    if s != "" && s[0] != '"' {
      UpToQuoteFree(s[1..]);
    }
  }

  lemma {:induction false} ReadUpToFree(s: string, room: nat)
    ensures QuoteFree(ReadUpTo(s, room).0) && |ReadUpTo(s, room).0| <= room
    decreases |s|
  {
    if s != "" && s[0] != '"' && room > 0 {
      ReadUpToFree(s[1..], room - 1);
    }
  }

  ghost predicate Readable(a: Registry.Agent) {
    ReadText(a.name) && forall c :: c in a.capabilities ==> ReadText(c)
  }

  /** What a field of 64 bytes holds after reading. */
  ghost predicate ReadText(s: string) {
    NulFree(s) && QuoteFree(s) && |s| < MAX_NAME_LEN
  }

  lemma {:induction false} ReadUpToWithin(s: string, room: nat)
    ensures forall c :: c in ReadUpTo(s, room).0 || c in ReadUpTo(s, room).1 ==> c in s
    decreases |s|
  {
    if s != "" && s[0] != '"' && room > 0 {
      ReadUpToWithin(s[1..], room - 1);
    }
  }

  lemma {:induction false} SkipToSeparatorWithin(s: string)
    ensures forall c :: c in SkipToSeparator(s) ==> c in s
  {
    if s != "" {
      SkipToSeparatorWithin(s[1..]);
    }
  }

  lemma NextCapIsText(s: CString)
    requires NextCap(s).0.Some?
    ensures ReadText(NextCap(s).0.value) && NulFree(NextCap(s).1)
  {
    var a := SkipToQuote(s);
    SkipToQuoteWithin(s);
    assert NulFree(a[1..]);
    var item := ReadUpTo(a[1..], MAX_NAME_LEN - 1);
    ReadUpToWithin(a[1..], MAX_NAME_LEN - 1);
    ReadUpToFree(a[1..], MAX_NAME_LEN - 1);
    assert NulFree(item.0) && NulFree(item.1) && NulFree(DropFirst(item.1));
    SkipToSeparatorWithin(DropFirst(item.1));
    assert NulFree(SkipToSeparator(DropFirst(item.1)));
  }

  lemma {:induction false} CapListReadable(s: CString, max: nat)
    ensures forall c :: c in CapList(s, max) ==> ReadText(c)
    decreases max
  {
    if s != "" && s[0] != ']' && max > 0 && NextCap(s).0.Some? {
      NextCapIsText(s);
      CapListReadable(NextCap(s).1, max - 1);
    }
  }

  /** Whatever the message, the agent read from it can be asked about. */
  lemma AgentIsReadable(raw: CString, now: int)
    ensures Readable(AgentOf(raw, now))
  {
    var v := ValueStart(raw, "name");
    if v.Some? {
      UpToQuoteFree(v.value);
    }
    FieldNulFree(raw, "name", MAX_NAME_LEN - 1);
    CapsReadable(raw);
  }

  lemma CapsReadable(raw: CString)
    ensures forall c :: c in CapsOf(raw) ==> ReadText(c)
  {
    var start := CapsStart(raw);
    if start.Some? {
      assert NulFree(start.value);
      CapListReadable(start.value, Register.MAX_CAPABILITIES);
    }
  }

  // ---- the printed capability list is read back ----

  lemma {:induction false} ReadUpToIs(c: string, tail: string, room: nat)
    requires QuoteFree(c) && |c| <= room
    ensures ReadUpTo(c + "\"" + tail, room) == (c, "\"" + tail)
  {
    var text := c + "\"" + tail;
    if c != "" {
      assert text[1..] == c[1..] + "\"" + tail;
      ReadUpToIs(c[1..], tail, room - 1);
      assert c == [c[0]] + c[1..];
    } else {
      assert text == "\"" + tail;
    }
  }

  lemma NamedCap(c: string, after: string)
    requires QuoteFree(c) && |c| < MAX_NAME_LEN && after != "" && (after[0] == ',' || after[0] == ']')
    ensures NextCap(Name(c) + after) == (Some(c), Drop(after, ','))
  {
    var text := Name(c) + after;
    assert text[0] == '"' && text[1..] == c + "\"" + after;
    ReadUpToIs(c, after, MAX_NAME_LEN - 1);
    assert ("\"" + after)[1..] == after;
  }

  /** An item may have any text before it up to its quote and any text behind it up to the comma or bracket. */
  lemma LooseCap(before: string, c: string, behind: string, after: string)
    requires QuoteFree(before) && QuoteFree(c) && |c| < MAX_NAME_LEN && ',' !in behind && ']' !in behind
    requires after != "" && (after[0] == ',' || after[0] == ']')
    ensures NextCap(before + (Name(c) + (behind + after))) == (Some(c), Drop(after, ','))
  {
    var rest := c + "\"" + (behind + after);
    assert Name(c) + (behind + after) == "\"" + rest;
    assert before + ("\"" + rest) == before + "\"" + rest;
    SkipToQuoteIs(before, rest);
    assert ("\"" + rest)[1..] == rest;
    ReadUpToIs(c, behind + after, MAX_NAME_LEN - 1);
    assert ("\"" + (behind + after))[1..] == behind + after;
    SkipsBehind(behind, after);
  }

  lemma {:induction false} SkipsBehind(behind: string, after: string)
    requires ',' !in behind && ']' !in behind && after != "" && (after[0] == ',' || after[0] == ']')
    ensures SkipToSeparator(behind + after) == after
  {
    if behind == "" {
      assert behind + after == after;
    } else {
      assert (behind + after)[1..] == behind[1..] + after && behind[0] in behind;
      SkipsBehind(behind[1..], after);
    }
  }

  ghost predicate Listable(caps: seq<string>) {
    forall i :: 0 <= i < |caps| ==> QuoteFree(caps[i]) && |caps[i]| < MAX_NAME_LEN
  }

  lemma ListableHead(caps: seq<string>) returns (c: string, cs: seq<string>)
    requires Listable(caps) && caps != []
    ensures caps == [c] + cs && |cs| == |caps| - 1 && QuoteFree(c) && |c| < MAX_NAME_LEN && Listable(cs)
  {
    c, cs := caps[0], caps[1..];
    assert forall i :: 0 <= i < |cs| ==> caps[i + 1] == cs[i];
  }

  lemma {:induction false} CapListIs(caps: seq<string>, rest: string, max: nat)
    requires Listable(caps) && |caps| <= max && rest != "" && rest[0] == ']'
    ensures CapList(Register.CapsText(caps) + rest, max) == caps
    decreases |caps|
  {
    if caps == [] {
      NoCaps(rest, max);
    } else {
      var c, cs := ListableHead(caps);
      CapListIs(cs, rest, max - 1);
      CapListCons(c, cs, rest, max);
    }
  }

  lemma CapListCons(c: string, cs: seq<string>, rest: string, max: nat)
    requires QuoteFree(c) && |c| < MAX_NAME_LEN && max > 0 && rest != "" && rest[0] == ']'
    requires CapList(Register.CapsText(cs) + rest, max - 1) == cs
    ensures CapList(Register.CapsText([c] + cs) + rest, max) == [c] + cs
  {
    CapListStep(c, cs, rest, max);
  }

  lemma NoCaps(rest: string, max: nat)
    requires rest != "" && rest[0] == ']'
    ensures CapList(Register.CapsText([]) + rest, max) == []
  {
    assert Register.CapsText([]) + rest == rest;
  }

  lemma CapListStep(c: string, cs: seq<string>, rest: string, max: nat)
    requires QuoteFree(c) && |c| < MAX_NAME_LEN && max > 0 && rest != "" && rest[0] == ']'
    ensures CapList(Register.CapsText([c] + cs) + rest, max) == [c] + CapList(Register.CapsText(cs) + rest, max - 1)
  {
    var after := Register.CapsTextCons(c, cs, rest);
    NamedCap(c, after);
    assert (Name(c) + after)[0] == '"';
  }

  // ---- the printed registration, as pieces ----

  function CapsPieces(caps: seq<string>): seq<string> {
    if caps == [] then []
    else CapsPieces(caps[..|caps| - 1]) + [if |caps| == 1 then ":[" else ",", caps[|caps| - 1]]
  }

  /** All the pieces that a quote ends. */
  function AllPieces(name: string, version: string, caps: seq<string>): seq<string> {
    Register.HeadPieces(name, version) + CapsPieces(caps)
  }

  function LastPiece(caps: seq<string>): string {
    if caps == [] then ":[]}" else "]}"
  }

  function Printed(name: string, version: string, caps: seq<string>): string {
    Register.RegisterText(name, version, Register.CapsText(caps))
  }

  lemma PushCap(ps: seq<string>, tail: string, c: string)
    ensures Quoted(ps) + (tail + Name(c)) == Quoted(ps + [tail, c])
  {
    PushName(ps, tail, c);
    Assoc(Quoted(ps), tail, Name(c));
  }

  lemma {:induction false} CapsArePieces(head: seq<string>, caps: seq<string>)
    requires caps != []
    ensures Quoted(head) + (":[" + Register.CapsText(caps)) == Quoted(head + CapsPieces(caps))
  {
    var front, last := caps[..|caps| - 1], caps[|caps| - 1];
    if front == [] {
      Register.CapsOne(last);
      assert caps == [last];
      assert CapsPieces(caps) == [":[", last];
      PushCap(head, ":[", last);
    } else {
      CapsArePieces(head, front);
      PushCap(head + CapsPieces(front), ",", last);
      assert head + CapsPieces(caps) == head + CapsPieces(front) + [",", last];
      Assoc(":[", Register.CapsText(front), "," + Name(last));
      Assoc(Quoted(head), ":[" + Register.CapsText(front), "," + Name(last));
    }
  }

  lemma PrintedIsPieces(name: string, version: string, caps: seq<string>)
    ensures Printed(name, version, caps) == Quoted(AllPieces(name, version, caps)) + LastPiece(caps)
  {
    var head := Register.HeadPieces(name, version);
    Register.RegisterPieces(name, version, Register.CapsText(caps));
    if caps == [] {
      assert AllPieces(name, version, caps) == head;
      assert ":[" + Register.CapsText(caps) + "]}" == ":[]}";
    } else {
      CapsArePieces(head, caps);
      Assoc(Quoted(head), ":[" + Register.CapsText(caps), "]}");
    }
  }

  /** Every second piece of the list is a capability; the others are ":[" and ",". */
  lemma {:induction false} CapsPieceAt(caps: seq<string>)
    ensures |CapsPieces(caps)| == 2 * |caps|
    ensures forall k :: 0 <= k < |caps| ==>
              CapsPieces(caps)[2 * k] == (if k == 0 then ":[" else ",") && CapsPieces(caps)[2 * k + 1] == caps[k]
  {
    if caps != [] {
      var front := caps[..|caps| - 1];
      CapsPieceAt(front);
      assert forall k :: 0 <= k < |front| ==>
        CapsPieces(caps)[2 * k] == CapsPieces(front)[2 * k]
        && CapsPieces(caps)[2 * k + 1] == CapsPieces(front)[2 * k + 1];
    }
  }

  /** Texts an agent can register with: within their fields, free of quotes, the list within its buffer. */
  ghost predicate Registrable(name: string, version: string, caps: seq<string>) {
    && QuoteFree(name) && QuoteFree(version) && Listable(caps)
    && Register.Sized(Register.AgentInfo(name, version, caps))
  }

  lemma PiecesFree(name: string, version: string, caps: seq<string>)
    requires QuoteFree(name) && QuoteFree(version) && Listable(caps)
    ensures AllQuoteFree(AllPieces(name, version, caps)) && AllQuoteFree(Register.HeadPieces(name, version))
    ensures QuoteFree(LastPiece(caps))
  {
    var ps := AllPieces(name, version, caps);
    forall j | 0 <= j < |ps|
      ensures QuoteFree(ps[j])
    {
      if j >= 14 {
        ListPiece(name, version, caps, j);
      }
    }
  }

  lemma ListPiece(name: string, version: string, caps: seq<string>, j: nat)
    requires 14 <= j < |AllPieces(name, version, caps)|
    ensures var k := (j - 14) / 2;
            k < |caps|
            && AllPieces(name, version, caps)[j] == if j % 2 == 1 then caps[k] else if k == 0 then ":[" else ","
  {
    CapsPieceAt(caps);
    var k := (j - 14) / 2;
    assert AllPieces(name, version, caps)[j] == CapsPieces(caps)[j - 14];
    assert j - 14 == 2 * k || j - 14 == 2 * k + 1;
  }

  // ---- which kind of message it is ----

  lemma NoTypeRun(name: string, version: string, caps: seq<string>, other: string, j: nat)
    requires other != "register" && 1 <= j <= |AllPieces(name, version, caps)|
    ensures !(["type", ":", other] <= AllPieces(name, version, caps)[j..])
  {
    var ps := AllPieces(name, version, caps);
    if j + 2 < |ps| {
      assert ps[j..][0] == ps[j] && ps[j..][1] == ps[j + 1] && ps[j..][2] == ps[j + 2];
      if j >= 14 {
        ListPiece(name, version, caps, j);
        ListPiece(name, version, caps, j + 1);
      }
    }
  }

  lemma NoOtherType(name: string, version: string, caps: seq<string>, other: string)
    requires QuoteFree(name) && QuoteFree(version) && Listable(caps) && QuoteFree(other) && other != "register"
    ensures StrStr(Printed(name, version, caps), Member("type", other)).None?
  {
    var ps := AllPieces(name, version, caps);
    PrintedIsPieces(name, version, caps);
    PiecesFree(name, version, caps);
    MemberIsPieces("type", other);
    forall j | 1 <= j <= |ps|
      ensures !(["type", ":", other] <= ps[j..])
    {
      NoTypeRun(name, version, caps, other, j);
    }
    NoPieces(ps, ["type", ":", other], LastPiece(caps));
  }

  lemma RegisterTypeFound(name: string, version: string, caps: seq<string>)
    requires QuoteFree(name) && QuoteFree(version) && Listable(caps)
    ensures StrStr(Printed(name, version, caps), Member("type", "register")).Some?
  {
    var ps := AllPieces(name, version, caps);
    PrintedIsPieces(name, version, caps);
    PiecesFree(name, version, caps);
    MemberIsPieces("type", "register");
    assert ps[1..] == ["type", ":", "register"] + ps[4..];
    FindPieces(ps, ["type", ":", "register"], 1, LastPiece(caps));
  }

  /** The printed texts that could be mistaken for a key. */
  predicate Mentions(name: string, version: string, caps: seq<string>, key: string) {
    name == key || version == key || key in caps
  }

  lemma KeyPiece(name: string, version: string, caps: seq<string>, key: string)
    requires key !in ["type", ":", "register", ",", "name", "version", "capabilities", ":["]
    ensures (exists j :: 1 <= j < |AllPieces(name, version, caps)| && AllPieces(name, version, caps)[j] == key)
              <==> Mentions(name, version, caps, key)
  {
    var ps := AllPieces(name, version, caps);
    if j :| 1 <= j < |ps| && ps[j] == key {
      if j >= 14 {
        ListPiece(name, version, caps, j);
      }
    } else {
      assert ps[7] == name && ps[11] == version;
      CapsPieceAt(caps);
      forall k | 0 <= k < |caps|
        ensures caps[k] != key
      {
        assert ps[14 + 2 * k + 1] == CapsPieces(caps)[2 * k + 1];
      }
    }
  }

  lemma MentionedInPrinted(name: string, version: string, caps: seq<string>, key: string)
    requires QuoteFree(name) && QuoteFree(version) && Listable(caps) && QuoteFree(key)
    requires key !in ["type", ":", "register", ",", "name", "version", "capabilities", ":["]
    ensures StrStr(Printed(name, version, caps), Name(key)).Some? <==> Mentions(name, version, caps, key)
  {
    PrintedIsPieces(name, version, caps);
    PiecesFree(name, version, caps);
    Mentioned(AllPieces(name, version, caps), key, LastPiece(caps));
    KeyPiece(name, version, caps, key);
  }

  /** A registration is taken for one exactly when nothing in it is called "query". */
  lemma TakenForRegistration(name: string, version: string, caps: seq<string>)
    requires QuoteFree(name) && QuoteFree(version) && Listable(caps)
    ensures KindOf(Printed(name, version, caps))
         == if Mentions(name, version, caps, "query") then Request else Registration
  {
    NoOtherType(name, version, caps, "ping");
    NoOtherType(name, version, caps, "request");
    RegisterTypeFound(name, version, caps);
    MentionedInPrinted(name, version, caps, "query");
  }

  /** As an agent called "query" is not. */
  lemma NamedQuery(version: string, caps: seq<string>)
    requires QuoteFree(version) && Listable(caps)
    ensures KindOf(Printed("query", version, caps)) == Request
  {
    TakenForRegistration("query", version, caps);
  }

  /** A request as the orchestrator's README gives it. */
  function RequestMessage(query: string): string {
    "{" + Member("type", "request") + "," + Member("query", query) + "}"
  }

  lemma RequestPieces(query: string)
    ensures RequestMessage(query) == Quoted(["{", "type", ":", "request", ",", "query", ":", query]) + "}"
  {
    var p := ["{", "type", ":", "request"];
    PushMember([], "{", "type", "request");
    assert [] + p == p;
    assert Quoted([]) + "{" + Member("type", "request") == "{" + Member("type", "request");
    PushMember(p, ",", "query", query);
    assert p + [",", "query", ":", query] == ["{", "type", ":", "request", ",", "query", ":", query];
  }

  lemma QueryValue(query: string)
    requires QuoteFree(query)
    ensures ValueStart(RequestMessage(query), "query") == Some(query + "\"" + "}")
  {
    var ps := ["{", "type", ":", "request", ",", "query", ":", query];
    RequestPieces(query);
    ValuePieceAfterColon(ps, "query", 5, 6, "}");
    UnquoteFirst(ps[7..], "}");
    assert ps[7..][1..] == [];
    assert Quoted([]) + "}" == "}";
  }

  /** A query without quotes is read from such a request as it is exactly when it holds no backslash, even when it is
      itself called "query" or "type". */
  lemma QueryArrivesExactly(query: string)
    requires QuoteFree(query) && |query| <= 65535
    ensures KindOf(RequestMessage(query)) == Request
    ensures QueryOf(RequestMessage(query)) == query <==> '\\' !in query
  {
    var ps := ["{", "type", ":", "request", ",", "query", ":", query];
    RequestPieces(query);
    NoPing(ps, query);
    Mentioned(ps, "query", "}");
    assert ps[5] == "query";
    QueryValue(query);
    Register.ItemIffPlain(query, "}", MAX_MESSAGE_SIZE - 1);
  }

  lemma NoPing(ps: seq<string>, query: string)
    requires ps == ["{", "type", ":", "request", ",", "query", ":", query] && QuoteFree(query)
    ensures StrStr(Quoted(ps) + "}", Member("type", "ping")).None?
  {
    MemberIsPieces("type", "ping");
    forall j | 1 <= j <= |ps|
      ensures !(["type", ":", "ping"] <= ps[j..])
    {
      assert j + 2 < |ps| ==> ps[j..][0] == ps[j] && ps[j..][1] == ps[j + 1] && ps[j..][2] == ps[j + 2];
    }
    NoPieces(ps, ["type", ":", "ping"], "}");
  }

  // ---- what is read ----

  lemma HeadFree(name: string, version: string)
    requires QuoteFree(name) && QuoteFree(version)
    ensures AllQuoteFree(Register.HeadPieces(name, version))
  {
  }

  lemma HeadBefore(name: string, version: string, n: nat)
    requires n == 7 || (n == 11 && QuoteFree(name))
    ensures AllQuoteFree(Register.HeadPieces(name, version)[..n])
  {
  }

  /** The name comes back exactly when it holds no quote. */
  lemma NameRead(name: string, version: string, rest: string)
    requires |name| < MAX_NAME_LEN
    ensures var read := Field(Quoted(Register.HeadPieces(name, version)) + rest, "name", MAX_NAME_LEN - 1);
            read == name <==> QuoteFree(name)
  {
    var ps := Register.HeadPieces(name, version);
    HeadBefore(name, version, 7);
    SplitText(ps, 7, rest);
    LastValue(ps[..7], "name", 5, 6, name, Quoted(ps[8..]) + rest, MAX_NAME_LEN - 1);
    UpToFirstQuote(name, "");
  }

  /** And so does the version behind such a name. */
  lemma VersionRead(name: string, version: string, rest: string)
    requires QuoteFree(name) && |version| < Register.VERSION_LEN
    ensures var read := Field(Quoted(Register.HeadPieces(name, version)) + rest, "version", Register.VERSION_LEN - 1);
            read == version <==> QuoteFree(version)
  {
    var ps := Register.HeadPieces(name, version);
    HeadBefore(name, version, 11);
    SplitText(ps, 11, rest);
    VersionAt(ps[..11], name, version, Quoted(ps[12..]) + rest);
    UpToFirstQuote(version, "");
  }

  lemma VersionAt(ps: seq<string>, name: string, version: string, tail: string)
    requires ps == ["{", "type", ":", "register", ",", "name", ":", name, ",", "version", ":"]
    requires QuoteFree(name) && |version| < Register.VERSION_LEN
    ensures Field(Quoted(ps) + (version + "\"" + tail), "version", Register.VERSION_LEN - 1)
              == UpToQuote(version + "\"")
  {
    assert AllQuoteFree(ps);
    if name == "version" {
      LastValue(ps, "version", 7, 10, version, tail, Register.VERSION_LEN - 1);
    } else {
      LastValue(ps, "version", 9, 10, version, tail, Register.VERSION_LEN - 1);
    }
  }

  /** Name and version both come back exactly when neither holds a quote. */
  lemma NameAndVersionExactly(name: string, version: string, caps: seq<string>, now: int)
    requires |name| < MAX_NAME_LEN && |version| < Register.VERSION_LEN
    ensures var a := AgentOf(Printed(name, version, caps), now);
            a.name == name && a.version == version <==> QuoteFree(name) && QuoteFree(version)
  {
    var rest := ":[" + Register.CapsText(caps) + "]}";
    Register.RegisterPieces(name, version, Register.CapsText(caps));
    NameRead(name, version, rest);
    if QuoteFree(name) {
      VersionRead(name, version, rest);
    }
  }

  /** The list is looked for behind the first piece called "capabilities". */
  predicate ListFound(name: string, version: string) {
    name == "capabilities" ==> '[' !in version
  }

  lemma {:induction false} NoneWithin(ps: seq<string>, c: char)
    requires c != '"' && forall j :: 0 <= j < |ps| ==> c !in ps[j]
    ensures c !in Quoted(ps)
  {
    if ps != [] {
      NoneWithin(ps[1..], c);
    }
  }

  lemma AtBracket(before: string, list: string)
    requires '[' !in before
    ensures AfterBracket(before + ['['] + list) == Some(list)
  {
    StrChrIs(before, '[', list);
  }

  lemma BracketAfterKey(raw: string, key: string, between: string, list: string)
    requires AfterKey(raw, key) == Some(between + ['['] + list) && '[' !in key && '[' !in between
    ensures ListAfter(raw, key) == Some(list)
  {
    var at := AtKey(raw, key, between + ['['] + list);
    Regroup(Name(key), between, '[', list);
    AtBracket(Name(key) + between, list);
  }

  /** With the key at piece i and no '[' up to the list, the list is what follows. */
  lemma ListStart(ps: seq<string>, key: string, i: nat, list: string)
    requires AllQuoteFree(ps) && 1 <= i < |ps| && ps[i] == key && '[' !in key
    requires forall j :: 1 <= j < i ==> ps[j] != key
    requires forall j :: i < j < |ps| ==> '[' !in ps[j]
    ensures ListAfter(Quoted(ps) + (":[" + list), key) == Some(list)
  {
    var raw, between := Quoted(ps) + (":[" + list), Quoted(ps[i + 1..]);
    FindKeyPiece(ps, key, i, ":[" + list);
    NoneBehind(ps, i, '[');
    ColonBracket(between, list);
    BracketAfterKey(raw, key, between + ":", list);
  }

  lemma NoneBehind(ps: seq<string>, i: nat, c: char)
    requires c != '"' && i < |ps| && forall j :: i < j < |ps| ==> c !in ps[j]
    ensures c !in Quoted(ps[i + 1..])
  {
    var tail := ps[i + 1..];
    assert forall j :: 0 <= j < |tail| ==> tail[j] == ps[i + 1 + j];
    NoneWithin(tail, c);
  }

  lemma ColonBracket(between: string, list: string)
    ensures between + (":[" + list) == between + ":" + ['['] + list
    ensures '[' !in between ==> '[' !in between + ":"
  {
  }

  lemma ListBehindHead(name: string, version: string, list: string)
    requires QuoteFree(name) && QuoteFree(version) && ListFound(name, version)
    ensures CapsStart(Quoted(Register.HeadPieces(name, version)) + (":[" + list)) == Some(list)
  {
    var ps := Register.HeadPieces(name, version);
    HeadFree(name, version);
    if name == "capabilities" {
      ListStart(ps, "capabilities", 7, list);
    } else if version == "capabilities" {
      ListStart(ps, "capabilities", 11, list);
    } else {
      ListStart(ps, "capabilities", 13, list);
    }
  }

  lemma CapsArrive(name: string, version: string, caps: seq<string>)
    requires QuoteFree(name) && QuoteFree(version) && Listable(caps) && |caps| <= Register.MAX_CAPABILITIES
    requires ListFound(name, version)
    ensures CapsOf(Printed(name, version, caps)) == caps
  {
    var list := Register.CapsText(caps) + "]}";
    Register.RegisterPieces(name, version, Register.CapsText(caps));
    assert ":[" + Register.CapsText(caps) + "]}" == ":[" + list;
    ListBehindHead(name, version, list);
    CapListIs(caps, "]}", Register.MAX_CAPABILITIES);
  }

  /** Otherwise the reader starts inside the version, and a one-capability list does not come back. */
  lemma CapsLost(version: string, c: string)
    requires QuoteFree(version) && '[' in version && QuoteFree(c) && c != ","
    ensures CapsOf(Printed("capabilities", version, [c])) != [c]
  {
    var ps := Register.HeadPieces("capabilities", version);
    var rest := ":[" + Register.CapsText([c]) + "]}";
    var open := StrChr(version, '[').value;
    var a, b := version[..open], version[open + 1..];
    assert version == a + "[" + b;
    Register.RegisterPieces("capabilities", version, Register.CapsText([c]));
    var more := VersionStart(ps, a, b, rest);
    WrongList(b, more, c);
  }

  lemma VersionStart(ps: seq<string>, a: string, b: string, rest: string) returns (more: string)
    requires QuoteFree(a) && QuoteFree(b) && '[' !in a
    requires ps == Register.HeadPieces("capabilities", a + "[" + b)
    ensures CapsStart(Quoted(ps) + rest) == Some(b + "\"" + (",\"" + more))
  {
    more := Quoted(ps[13..]) + rest;
    HeadFree("capabilities", a + "[" + b);
    FindKeyPiece(ps, "capabilities", 7, rest);
    BehindName(ps[8..], a, b, rest, more);
    NoBracketBefore(a);
    BracketAfterKey(Quoted(ps) + rest, "capabilities", Quoted([",", "version", ":"]) + a, b + "\"" + (",\"" + more));
  }

  lemma NoBracketBefore(a: string)
    requires '[' !in a
    ensures '[' !in Quoted([",", "version", ":"]) + a
  {
    NoneWithin([",", "version", ":"], '[');
  }

  lemma BehindName(ps: seq<string>, a: string, b: string, rest: string, more: string)
    requires |ps| == 6 && ps[..3] == [",", "version", ":"] && ps[3] == a + "[" + b && ps[4] == ","
    requires more == Quoted(ps[5..]) + rest
    ensures Quoted(ps) + rest == Quoted([",", "version", ":"]) + a + ['['] + (b + "\"" + (",\"" + more))
  {
    var quoted := Quoted([",", "version", ":"]);
    SplitText(ps, 3, rest);
    UnquoteFirst(ps[4..], rest);
    assert ps[4..][1..] == ps[5..];
    Assoc(",", "\"", more);
    Spread(quoted, a, b, ",\"" + more);
  }

  lemma Spread(quoted: string, a: string, b: string, tail: string)
    ensures quoted + (a + "[" + b + "\"" + tail) == quoted + a + ['['] + (b + "\"" + tail)
  {
  }

  lemma WrongList(b: string, more: string, c: string)
    requires QuoteFree(b) && c != ","
    ensures CapList(b + "\"" + (",\"" + more), Register.MAX_CAPABILITIES) != [c]
  {
    var text := b + "\"" + (",\"" + more);
    SkipToQuoteIs(b, ",\"" + more);
    var a := SkipToQuote(text);
    assert a[1..] == ",\"" + more;
    CommaItem(more);
    assert NextCap(text).0 == Some(",");
    assert text[0] != ']' ==> CapList(text, Register.MAX_CAPABILITIES)[0] == ",";
  }

  lemma CommaItem(more: string)
    ensures ReadUpTo(",\"" + more, MAX_NAME_LEN - 1).0 == ","
  {
    assert (",\"" + more)[1..] == "\"" + more;
    assert ReadUpTo("\"" + more, MAX_NAME_LEN - 2).0 == "";
  }

  // ---- the registration arrives ----

  ghost predicate Arrives(name: string, version: string, caps: seq<string>, now: int) {
    var text := Printed(name, version, caps);
    var a := AgentOf(text, now);
    KindOf(text) == Registration && a.name == name && a.version == version && a.capabilities == caps
  }

  /** An agent called "version" or "capabilities" is no obstacle here; only "query" and a list hidden by the
      version are. */
  lemma RegistrationArrives(name: string, version: string, caps: seq<string>, now: int)
    requires Registrable(name, version, caps)
    ensures AgentOf(Printed(name, version, caps), now).name == name
            && AgentOf(Printed(name, version, caps), now).version == version
    ensures !Mentions(name, version, caps, "query") && ListFound(name, version) ==> Arrives(name, version, caps, now)
    ensures Mentions(name, version, caps, "query") ==> !Arrives(name, version, caps, now)
  {
    NameAndVersionExactly(name, version, caps, now);
    TakenForRegistration(name, version, caps);
    if ListFound(name, version) {
      CapsArrive(name, version, caps);
    }
  }

  /** A capability list of quote-free texts that fits its fields and its buffer. */
  ghost predicate ListFits(caps: seq<string>) {
    Listable(caps) && |caps| <= Register.MAX_CAPABILITIES && |Register.CapsText(caps)| < Register.CAPS_BUFFER
  }

  /** With this name and version every such list that does not mention "query" arrives. */
  ghost predicate AlwaysArrives(name: string, version: string, now: int) {
    forall caps :: ListFits(caps) && "query" !in caps ==> Arrives(name, version, caps, now)
  }

  /** Whatever a name and a version are, that is so exactly when neither holds a quote or is "query", and the version
      does not hide the list. */
  lemma RegistrationArrivesExactly(name: string, version: string, now: int)
    requires |name| < MAX_NAME_LEN && |version| < Register.VERSION_LEN
    ensures AlwaysArrives(name, version, now) <==>
              && QuoteFree(name) && QuoteFree(version) && name != "query" && version != "query"
              && ListFound(name, version)
  {
    var one := ["x"];
    Register.CapsOne("x");
    assert ListFits(one) && "query" !in one;
    NameAndVersionExactly(name, version, one, now);
    if QuoteFree(name) && QuoteFree(version) {
      PlainArriveExactly(name, version, now);
    } else {
      assert !Arrives(name, version, one, now);
    }
  }

  lemma PlainArriveExactly(name: string, version: string, now: int)
    requires |name| < MAX_NAME_LEN && |version| < Register.VERSION_LEN && QuoteFree(name) && QuoteFree(version)
    ensures AlwaysArrives(name, version, now) <==> name != "query" && version != "query" && ListFound(name, version)
  {
    forall caps | ListFits(caps) && "query" !in caps
      ensures name != "query" && version != "query" && ListFound(name, version) ==> Arrives(name, version, caps, now)
    {
      assert forall c :: c in caps ==> |c| < MAX_NAME_LEN;
      RegistrationArrives(name, version, caps, now);
    }
    var one := ["x"];
    Register.CapsOne("x");
    assert ListFits(one) && "query" !in one;
    RegistrationArrives(name, version, one, now);
    if !ListFound(name, version) {
      CapsLost(version, "x");
      assert !Arrives(name, version, one, now);
    }
  }

  /** The printer's two buffers and the agent's 4096-byte message buffer cut nothing of such a registration. */
  lemma PrintedWhole(name: string, version: string, caps: seq<string>)
    requires Registrable(name, version, caps)
    ensures Cut(Register.RegisterText(name, version, Register.CapsBuffer(caps)), 4095) == Printed(name, version, caps)
  {
    Register.CapsFit(caps);
  }

  /** The SDK prints no socket: unless a text is called like its key, the agent is registered without one. */
  lemma SocketIsNotSent(name: string, version: string, caps: seq<string>, now: int)
    requires QuoteFree(name) && QuoteFree(version) && Listable(caps)
    requires !Mentions(name, version, caps, "socket") && !Mentions(name, version, caps, "socket_path")
    ensures AgentOf(Printed(name, version, caps), now).socket == ""
  {
    MentionedInPrinted(name, version, caps, "socket");
    MentionedInPrinted(name, version, caps, "socket_path");
  }
}
