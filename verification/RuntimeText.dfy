/** Generated text on its way from the model runtime to the intent classifier: one process escapes
    (components/model-runtime/protocol/protocol.c), another unescapes (components/intent-classifier/main.c). */
module RuntimeText {
  import opened CStrings
  import opened Pieces
  import opened Json
  import opened Fields

  const MAX_GENERATION_LEN: nat := 8192
  const MAX_PROMPT_LEN: nat := 4096

  // ---- the runtime's side ----

  function RuntimeChar(c: char): (e: string)
    ensures |e| == 1 || |e| == 2
  {
    if c == '"' then "\\\"" else if c == '\\' then "\\\\" else if c == '\n' then "\\n" else [c]
  }

  function RuntimeEscaped(text: string): (r: string)
    ensures |r| <= 2 * |text|
  {
    if text == "" then "" else RuntimeChar(text[0]) + RuntimeEscaped(text[1..])
  }

  lemma EscapedStep(all: string, done: string, text: string, p: nat)
    requires p < |text| && all == done + RuntimeEscaped(text[p..])
    ensures all == done + RuntimeChar(text[p]) + RuntimeEscaped(text[p + 1..])
  {
    assert text[p..][1..] == text[p + 1..];
    Assoc(done, RuntimeChar(text[p]), RuntimeEscaped(text[p + 1..]));
  }

  /** The escape buffer of twice the text's size is never the loop's limit. */
  method EscapeGenerated(text: string, escaped: array<char>)
    requires |text| < MAX_GENERATION_LEN && escaped.Length == 2 * MAX_GENERATION_LEN
    modifies escaped
    ensures Holds(escaped, RuntimeEscaped(text))
  {
    var p, ei := 0, 0;
    ghost var all := RuntimeEscaped(text);
    while p < |text| && ei < escaped.Length - 2
      invariant p <= |text| && 0 <= ei <= 2 * p
      invariant all == escaped[..ei] + RuntimeEscaped(text[p..])
    {
      var e := RuntimeChar(text[p]);
      EscapedStep(all, escaped[..ei], text, p);
      PutEscape(e, escaped, ei);
      ei := ei + |e|;
      p := p + 1;
    }
    assert RuntimeEscaped(text[p..]) == "";
    escaped[ei] := '\0';
  }

  /** The runtime's reply; `id`, `tokens` and `speed` are the printed numbers. */
  function RuntimeReply(id: string, text: string, tokens: string, speed: string): string {
    "{" + Name("id") + (":" + id + ",") + Member("type", "inference_response") + "," + Name("success") + ":true,"
    + Name("text") + (":\"" + (RuntimeEscaped(text) + "\"" + ReplyEnd(tokens, speed)))
  }

  function ReplyEnd(tokens: string, speed: string): string {
    ",\"tokens_generated\":" + tokens + ",\"tokens_per_second\":" + speed + "}"
  }

  // ---- the classifier's side ----

  function ClassifierChar(c: char): char {
    if c == 'n' then '\n' else if c == '"' then '"' else '\\'
  }

  /** An unknown escape leaves the backslash and drops the character after it. */
  function ClassifierUnescaped(s: string, room: nat): (r: string)
    ensures |r| <= room
  {
    if s == "" || s[0] == '"' || room == 0 then ""
    else if s[0] == '\\' && |s| > 1 then [ClassifierChar(s[1])] + ClassifierUnescaped(s[2..], room - 1)
    else [s[0]] + ClassifierUnescaped(s[1..], room - 1)
  }

  /** The classifier's raw_output for a reply. */
  function RawOutput(reply: string): string {
    var v := ValueStart(reply, "text");
    if v.Some? then ClassifierUnescaped(v.value, MAX_PROMPT_LEN - 1) else ""
  }

  /** One turn of the unescape loop: the character written, and where reading goes on. */
  function NextChar(s: string, p: nat): (char, nat)
    requires p < |s|
  {
    if s[p] == '\\' && p + 1 < |s| then (ClassifierChar(s[p + 1]), p + 2) else (s[p], p + 1)
  }

  lemma UnescapedStep(all: string, done: string, s: string, p: nat, room: nat)
    requires p < |s| && s[p] != '"' && room > 0 && all == done + ClassifierUnescaped(s[p..], room)
    ensures NextChar(s, p).1 <= |s|
    ensures all == done + [NextChar(s, p).0] + ClassifierUnescaped(s[NextChar(s, p).1..], room - 1)
  {
    UnescapedFirst(s, p, room);
    Assoc(done, [NextChar(s, p).0], ClassifierUnescaped(s[NextChar(s, p).1..], room - 1));
  }

  lemma UnescapedFirst(s: string, p: nat, room: nat)
    requires p < |s| && s[p] != '"' && room > 0
    ensures NextChar(s, p).1 <= |s|
    ensures ClassifierUnescaped(s[p..], room)
              == [NextChar(s, p).0] + ClassifierUnescaped(s[NextChar(s, p).1..], room - 1)
  {
    var from := s[p..];
    assert from[1..] == s[p + 1..];
    if p + 1 < |s| {
      assert from[1] == s[p + 1] && from[2..] == s[p + 2..];
    }
  }

  method ReadRawOutput(reply: string, raw: array<char>)
    requires raw.Length == MAX_PROMPT_LEN && Zeroed(raw)
    modifies raw
    ensures Holds(raw, RawOutput(reply))
  {
    var v := FindValue(reply, "text");
    if v.None? { return; }
    UnescapeInto(reply, v.value, raw);
  }

  method UnescapeInto(reply: string, start: nat, raw: array<char>)
    requires start <= |reply| && raw.Length > 0
    modifies raw
    ensures Holds(raw, ClassifierUnescaped(reply[start..], raw.Length - 1))
  {
    var p, i := start, 0;
    ghost var all := ClassifierUnescaped(reply[p..], raw.Length - 1);
    while p < |reply| && reply[p] != '"' && i < raw.Length - 1
      invariant p <= |reply| && 0 <= i <= raw.Length - 1
      invariant all == raw[..i] + ClassifierUnescaped(reply[p..], raw.Length - 1 - i)
    {
      ghost var next, done := NextChar(reply, p), raw[..i];
      UnescapedStep(all, done, reply, p, raw.Length - 1 - i);
      var c := reply[p];
      if reply[p] == '\\' && p + 1 < |reply| {
        var esc := reply[p + 1];
        c := if esc == 'n' then '\n' else if esc == '"' then '"' else if esc == '\\' then '\\' else reply[p];
        p := p + 2;
      } else {
        p := p + 1;
      }
      assert (c, p) == next;
      raw[i] := c;
      i := i + 1;
      assert raw[..i] == done + [c];
    }
    assert ClassifierUnescaped(reply[p..], raw.Length - 1 - i) == "";
    raw[i] := '\0';
  }

  // ---- the text arrives ----

  lemma UnescapeOne(c: char, rest: string, room: nat)
    requires room > 0
    ensures ClassifierUnescaped(RuntimeChar(c) + rest, room) == [c] + ClassifierUnescaped(rest, room - 1)
  {
    var text := RuntimeChar(c) + rest;
    if |RuntimeChar(c)| == 2 {
      assert text[2..] == rest;
    } else {
      assert text[1..] == rest;
    }
  }

  lemma EscapedFirst(text: string, tail: string)
    requires text != ""
    ensures RuntimeEscaped(text) + "\"" + tail == RuntimeChar(text[0]) + (RuntimeEscaped(text[1..]) + "\"" + tail)
  {
  }

  lemma CutFirst(text: string, room: nat)
    requires text != "" && room > 0
    ensures Cut(text, room) == [text[0]] + Cut(text[1..], room - 1)
  {
  }

  lemma {:induction false} UnescapeInverts(text: string, tail: string, room: nat)
    ensures ClassifierUnescaped(RuntimeEscaped(text) + "\"" + tail, room) == Cut(text, room)
    decreases |text|
  {
    if text != "" && room > 0 {
      EscapedFirst(text, tail);
      UnescapeOne(text[0], RuntimeEscaped(text[1..]) + "\"" + tail, room);
      UnescapeInverts(text[1..], tail, room - 1);
      CutFirst(text, room);
    }
  }

  function ReplyPieces(id: string): seq<string> {
    ["{", "id", ":" + id + ",", "type", ":", "inference_response", ",", "success", ":true,", "text", ":"]
  }

  lemma ReplyIsPieces(id: string, text: string, tokens: string, speed: string)
    ensures RuntimeReply(id, text, tokens, speed)
         == Quoted(ReplyPieces(id)) + (RuntimeEscaped(text) + "\"" + ReplyEnd(tokens, speed))
  {
    var p1 := ["{", "id"];
    var p2 := p1 + [":" + id + ",", "type", ":", "inference_response"];
    var p3 := p2 + [",", "success"];
    var p4 := p3 + [":true,", "text"];
    PushName([], "{", "id");
    assert [] + p1 == p1;
    assert Quoted([]) + "{" + Name("id") == "{" + Name("id");
    PushMember(p1, ":" + id + ",", "type", "inference_response");
    PushName(p2, ",", "success");
    PushName(p3, ":true,", "text");
    QuotedConcat(p4, [":"]);
    assert [":"][1..] == [];
    assert Quoted([":"]) == ":\"";
    assert p4 + [":"] == ReplyPieces(id);
    Assoc(Quoted(p4), ":\"", RuntimeEscaped(text) + "\"" + ReplyEnd(tokens, speed));
  }

  lemma ReplyKeys(id: string)
    requires QuoteFree(id)
    ensures var ps := ReplyPieces(id);
            && AllQuoteFree(ps) && |ps| == 11 && ps[9] == "text" && ps[10] == ":"
            && forall j :: 1 <= j < 9 ==> ps[j] != "text"
  {
    assert (":" + id + ",")[0] == ':';
  }

  /** Every generated text reaches the classifier unchanged, or as its first 4095 bytes. */
  lemma TextArrives(id: string, text: string, tokens: string, speed: string)
    requires QuoteFree(id)
    ensures RawOutput(RuntimeReply(id, text, tokens, speed)) == Cut(text, MAX_PROMPT_LEN - 1)
  {
    var ps, rest := ReplyPieces(id), RuntimeEscaped(text) + "\"" + ReplyEnd(tokens, speed);
    ReplyIsPieces(id, text, tokens, speed);
    ReplyKeys(id);
    ValuePieceAfterColon(ps, "text", 9, 10, rest);
    assert Quoted(ps[11..]) + rest == rest;
    UnescapeInverts(text, ReplyEnd(tokens, speed), MAX_PROMPT_LEN - 1);
  }

  /** Neither process's message buffer of 65536 bytes cuts the reply short. */
  lemma ReplyFits(id: string, text: string, tokens: string, speed: string)
    requires |text| < MAX_GENERATION_LEN && |id| <= 20 && |tokens| <= 20 && |speed| <= 400
    ensures |RuntimeReply(id, text, tokens, speed)| < 65536
  {
  }

  // ---- and is understood ----

  /** The object the model answers with. */
  function ModelText(intent: string, target: string, rest: string): string {
    "{" + Member("intent", intent) + "," + Member("target", target) + rest
  }

  function ModelPieces(intent: string, target: string): seq<string> {
    ["{", "intent", ":", intent, ",", "target", ":", target]
  }

  lemma ModelTextIsPieces(intent: string, target: string, rest: string)
    ensures ModelText(intent, target, rest) == Quoted(ModelPieces(intent, target)) + rest
  {
    var p1 := ["{", "intent", ":", intent];
    PushMember([], "{", "intent", intent);
    assert [] + p1 == p1;
    assert Quoted([]) + "{" + Member("intent", intent) == "{" + Member("intent", intent);
    PushMember(p1, ",", "target", target);
    assert p1 + [",", "target", ":", target] == ModelPieces(intent, target);
  }

  lemma ModelIntent(intent: string, target: string, rest: string)
    requires QuoteFree(intent) && QuoteFree(target)
    ensures Field(ModelText(intent, target, rest), "intent", 63) == Cut(intent, 63)
  {
    ModelTextIsPieces(intent, target, rest);
    FieldPiece(ModelPieces(intent, target), "intent", 1, 2, rest, 63);
  }

  lemma ModelTarget(intent: string, target: string, rest: string)
    requires QuoteFree(intent) && QuoteFree(target)
    ensures Field(ModelText(intent, target, rest), "target", 127) == Cut(target, 127)
  {
    ModelTextIsPieces(intent, target, rest);
    FieldPiece(ModelPieces(intent, target), "target", if intent == "target" then 3 else 5, 6, rest, 127);
  }

  /** The classifier reads the intent and the target the model named, even for an intent called "target". */
  lemma IntentUnderstood(id: string, intent: string, target: string, rest: string, tokens: string, speed: string)
    requires QuoteFree(id) && QuoteFree(intent) && QuoteFree(target)
    requires |ModelText(intent, target, rest)| < MAX_PROMPT_LEN
    ensures var raw := RawOutput(RuntimeReply(id, ModelText(intent, target, rest), tokens, speed));
            Field(raw, "intent", 63) == Cut(intent, 63) && Field(raw, "target", 127) == Cut(target, 127)
  {
    TextArrives(id, ModelText(intent, target, rest), tokens, speed);
    ModelIntent(intent, target, rest);
    ModelTarget(intent, target, rest);
  }
}
