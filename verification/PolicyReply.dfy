/** The policy engine's answers and how the orchestrator's client reads them
    (components/policy-engine/protocol/protocol.c, components/orchestrator/policy_client/policy_client.c). */
module PolicyReply {
  import opened CStrings
  import opened Pieces
  import opened Json
  import opened Fields
  import opened Policy

  function ActionText(a: Action): string {
    match a
    case Allow => "allow"
    case Deny => "deny"
    case AskUser => "ask_user"
  }

  function ReplyText(id: string, resp: Response): string {
    "{" + Name("id") + (":" + id + ",") + Member("type", "policy_response")
    + "," + Member("action", ActionText(resp.action))
    + "," + Name("reason") + (":\"" + ReplyTail(resp))
  }

  function ReplyTail(resp: Response): string {
    resp.reason + "\"," + Member("matched_rule", resp.matchedRule) + "}"
  }

  /** What the engine writes: 1024-byte buffer; `id` is the request's id in digits. */
  function ServerReply(id: string, resp: Response): string {
    Cut(ReplyText(id, resp), 1023)
  }

  /** The client's reader: "key":" must occur literally, and the value runs to the next quote. */
  function ReplyField(raw: string, key: string, room: nat): Option<string> {
    var after := AfterText(raw, ReplyKey(key));
    if after.Some? then Some(Cut(UpToQuote(after.value), room)) else None
  }

  function ReplyKey(key: string): string {
    Cut(Name(key) + ":\"", 127)
  }

  predicate ClientAllows(reply: string) {
    ReplyField(reply, "action", 31) == Some("allow")
  }

  function ClientReason(reply: string): string {
    var r := ReplyField(reply, "reason", 255);
    if r.Some? then r.value else ""
  }

  // ---- the client's reader, step by step ----

  lemma {:induction false} UpToQuoteEnds(s: string)
    ensures UpToQuote(s) == if StrChr(s, '"').Some? then s[..StrChr(s, '"').value] else s
  {
    if s != "" && s[0] != '"' {
      UpToQuoteEnds(s[1..]);
      var end := StrChr(s, '"');
      assert s == [s[0]] + s[1..];
      if end.Some? {
        assert s[..end.value] == [s[0]] + s[1..][..end.value - 1];
      }
    }
  }

  /** memcpy of `len` characters to the front of a zeroed buffer. */
  method CopyBytes(src: string, from: nat, len: nat, buf: array<char>)
    requires from + len <= |src| && len < buf.Length && Zeroed(buf)
    modifies buf
    ensures Holds(buf, src[from..from + len])
  {
    for i := 0 to len
      invariant forall k :: 0 <= k < i ==> buf[k] == src[from + k]
      invariant forall k :: i <= k < buf.Length ==> buf[k] == '\0'
    {
      buf[i] := src[from + i];
    }
    assert buf[..len] == src[from..from + len];
  }

  /** Find the pattern, then the closing quote, and copy what lies between, at most what fits. */
  method ExtractStr(json: string, key: string, buf: array<char>) returns (ok: bool)
    requires buf.Length >= 1 && Zeroed(buf)
    modifies buf
    ensures ok <==> ReplyField(json, key, buf.Length - 1).Some?
    ensures Holds(buf, if ok then ReplyField(json, key, buf.Length - 1).value else "")
  {
    var p := FindReplyKey(json, key);
    if p.None? { return false; }
    CopyValue(json, p.value, buf);
    return true;
  }

  method FindReplyKey(json: string, key: string) returns (p: Option<nat>)
    ensures p.Some? <==> AfterText(json, ReplyKey(key)).Some?
    ensures p.Some? ==> p.value <= |json| && json[p.value..] == AfterText(json, ReplyKey(key)).value
  {
    var search := ReplyKey(key);
    var at := StrStr(json, search);
    return if at.None? then None else Some(at.value + |search|);
  }

  method CopyValue(json: string, p: nat, buf: array<char>)
    requires p <= |json| && buf.Length >= 1 && Zeroed(buf)
    modifies buf
    ensures Holds(buf, Cut(UpToQuote(json[p..]), buf.Length - 1))
  {
    var len := ValueLength(json[p..], buf.Length);
    assert json[p..p + len] == json[p..][..len];
    CopyBytes(json, p, len, buf);
  }

  /** How much of the text before the first quote fits a buffer of this size. */
  method ValueLength(s: string, size: nat) returns (len: nat)
    requires size > 0
    ensures len <= |s| && len < size && s[..len] == Cut(UpToQuote(s), size - 1)
  {
    var end := StrChr(s, '"');
    UpToQuoteEnds(s);
    len := if end.Some? then end.value else |s|;
    if len >= size {
      len := size - 1;
    }
  }

  lemma ReplyFieldNulFree(raw: CString, key: string, room: nat)
    ensures ReplyField(raw, key, room).Some? ==> NulFree(ReplyField(raw, key, room).value)
  {
    var after := AfterText(raw, ReplyKey(key));
    if after.Some? {
      UpToQuoteWithin(after.value);
      assert '\0' !in UpToQuote(after.value);
    }
  }

  method ReadReplyField(reply: CString, key: string, size: nat) returns (value: string)
    requires size > 0
    ensures var f := ReplyField(reply, key, size - 1); value == if f.Some? then f.value else ""
  {
    var buf := new char[size](_ => '\0');
    var ok := ExtractStr(reply, key, buf);
    ReplyFieldNulFree(reply, key, size - 1);
    ghost var field := if ok then ReplyField(reply, key, size - 1).value else "";
    assert buf[|field|] in buf[..];
    value := BufferText(buf);
    HoldsOne(buf, value, field);
  }

  /** What the client takes from an answer: it is allowed exactly if the answer printed was an allow, with the reason up
      to its first quote. */
  method ReadReply(reply: CString) returns (allowed: bool, reason: string)
    ensures allowed <==> ClientAllows(reply)
    ensures reason == ClientReason(reply)
    ensures forall id, resp :: Replyable(id, resp) && reply == ServerReply(id, resp) ==>
              (allowed <==> resp.action == Allow) && reason == UpToQuote(resp.reason + "\"")
  {
    allowed := false;
    var action := ReadReplyField(reply, "action", 32);
    if action == "allow" {
      allowed := true;
    }
    reason := ReadReplyField(reply, "reason", 256);
    forall id, resp | Replyable(id, resp) && reply == ServerReply(id, resp)
      ensures (allowed <==> resp.action == Allow) && reason == UpToQuote(resp.reason + "\"")
    {
      ReplyAllowsExactly(id, resp);
      ReasonArrives(id, resp);
    }
  }

  // ---- the reply survives ----

  function ReplyPieces(id: string, action: Action): seq<string> {
    ["{", "id", ":" + id + ",", "type", ":", "policy_response", ",", "action", ":", ActionText(action), ",", "reason",
     ":"]
  }

  lemma ReplyIsPieces(id: string, resp: Response)
    ensures ReplyText(id, resp) == Quoted(ReplyPieces(id, resp.action)) + ReplyTail(resp)
  {
    var p1 := ["{", "id"];
    var p2 := p1 + [":" + id + ",", "type", ":", "policy_response"];
    var p3 := p2 + [",", "action", ":", ActionText(resp.action)];
    var p4 := p3 + [",", "reason"];
    PushName([], "{", "id");
    assert [] + p1 == p1;
    assert Quoted([]) + "{" + Name("id") == "{" + Name("id");
    PushMember(p1, ":" + id + ",", "type", "policy_response");
    PushMember(p2, ",", "action", ActionText(resp.action));
    PushName(p3, ",", "reason");
    QuotedConcat(p4, [":"]);
    assert [":"][1..] == [];
    assert Quoted([":"]) == ":\"";
    assert p4 + [":"] == ReplyPieces(id, resp.action);
    Assoc(Quoted(p4), ":\"", ReplyTail(resp));
  }

  lemma ReplyKeys(id: string, action: Action)
    requires QuoteFree(id)
    ensures var ps := ReplyPieces(id, action);
            && AllQuoteFree(ps) && |ps| == 13 && ps[7] == "action" && ps[11] == "reason"
            && ps[8] == ps[12] == ":" && ps[9] == ActionText(action)
            && (forall j :: 1 <= j < 7 ==> ps[j] != "action")
            && (forall j :: 1 <= j < 11 ==> ps[j] != "reason")
  {
    assert (":" + id + ",")[0] == ':';
  }

  lemma PatternIsPieces(key: string)
    requires |key| <= 100
    ensures ReplyKey(key) == "\"" + Quoted([key, ":"])
  {
    QuotedPair(key, ":");
  }

  lemma ReplyFieldIs(ps: seq<string>, key: string, i: nat, rest: string, room: nat)
    requires AllQuoteFree(ps) && QuoteFree(key) && |key| <= 100 && 1 <= i && i + 1 < |ps| && ps[i] == key
             && ps[i + 1] == ":"
    requires forall j :: 1 <= j < i ==> ps[j] != key
    ensures ReplyField(Quoted(ps) + rest, key, room) == Some(Cut(UpToQuote(Quoted(ps[i + 2..]) + rest), room))
  {
    PatternIsPieces(key);
    assert ps[i..] == [key, ":"] + ps[i + 2..];
    forall j | 1 <= j < i
      ensures !([key, ":"] <= ps[j..])
    {
      assert ps[j..][0] == ps[j];
    }
    FindPieces(ps, [key, ":"], i, rest);
  }

  ghost predicate Replyable(id: string, resp: Response) {
    QuoteFree(id) && |id| <= 20 && |resp.reason| <= 255 && |resp.matchedRule| <= 63
  }

  lemma ReplyFits(id: string, resp: Response)
    requires Replyable(id, resp)
    ensures ServerReply(id, resp) == ReplyText(id, resp)
  {
  }

  /** The client sets `allowed` exactly for an allow, whatever text the reason holds, and could tell the other two
      answers apart. */
  lemma ReplyAllowsExactly(id: string, resp: Response)
    requires Replyable(id, resp)
    ensures ClientAllows(ServerReply(id, resp)) <==> resp.action == Allow
    ensures ReplyField(ServerReply(id, resp), "action", 31)
         == Some(if resp.action == Allow then "allow" else if resp.action == Deny then "deny" else "ask_user")
  {
    ReplyFits(id, resp);
    ReplyIsPieces(id, resp);
    var ps := ReplyPieces(id, resp.action);
    ReplyKeys(id, resp.action);
    ReplyFieldIs(ps, "action", 7, ReplyTail(resp), 31);
    HeadUpToQuote(ps[9..], ReplyTail(resp));
  }

  /** The client receives the reason up to its first quote. */
  lemma ReasonArrives(id: string, resp: Response)
    requires Replyable(id, resp)
    ensures ClientReason(ServerReply(id, resp)) == UpToQuote(resp.reason + "\"")
    ensures QuoteFree(resp.reason) ==> ClientReason(ServerReply(id, resp)) == resp.reason
  {
    ReplyFits(id, resp);
    ReplyIsPieces(id, resp);
    var ps := ReplyPieces(id, resp.action);
    ReplyKeys(id, resp.action);
    ReplyFieldIs(ps, "reason", 11, ReplyTail(resp), 255);
    assert Quoted(ps[13..]) + ReplyTail(resp) == ReplyTail(resp);
    ReasonUpToQuote(resp);
  }

  /** And the matched rule, of texts without quotes. */
  lemma MatchedRuleArrives(id: string, resp: Response)
    requires Replyable(id, resp) && QuoteFree(resp.reason) && QuoteFree(resp.matchedRule)
    ensures ReplyField(ServerReply(id, resp), "matched_rule", 63) == Some(resp.matchedRule)
  {
    var head, tail := ReplyPieces(id, resp.action), [resp.reason, ",", "matched_rule", ":", resp.matchedRule];
    var ps := head + tail;
    ReplyFits(id, resp);
    ReplyIsPieces(id, resp);
    ReplyKeys(id, resp.action);
    TailIsPieces(resp);
    QuotedConcat(head, tail);
    Assoc(Quoted(head), Quoted(tail), "}");
    assert (":" + id + ",")[0] == ':';
    assert forall j :: 1 <= j < 13 ==> ps[j] == head[j];
    RuleMemberAt(ps, resp.matchedRule);
  }

  lemma TailIsPieces(resp: Response)
    ensures ReplyTail(resp) == Quoted([resp.reason, ",", "matched_rule", ":", resp.matchedRule]) + "}"
  {
    var p := [resp.reason];
    assert p[1..] == [] && Quoted(p) == resp.reason + "\"";
    PushMember(p, ",", "matched_rule", resp.matchedRule);
    assert p + [",", "matched_rule", ":", resp.matchedRule]
        == [resp.reason, ",", "matched_rule", ":", resp.matchedRule];
  }

  lemma RuleMemberAt(ps: seq<string>, rule: string)
    requires AllQuoteFree(ps) && |ps| == 18 && ps[14..] == [",", "matched_rule", ":", rule] && |rule| <= 63
    requires forall j :: 1 <= j < 13 ==> ps[j] != "matched_rule"
    ensures ReplyField(Quoted(ps) + "}", "matched_rule", 63) == Some(rule)
  {
    PatternIsPieces("matched_rule");
    RuleMemberFirst(ps, rule);
    FindPieces(ps, ["matched_rule", ":"], 15, "}");
    assert ps[17..] == ps[14..][3..] && ps[17] == rule;
    HeadUpToQuote(ps[17..], "}");
  }

  lemma RuleMemberFirst(ps: seq<string>, rule: string)
    requires |ps| == 18 && ps[14..] == [",", "matched_rule", ":", rule]
    requires forall j :: 1 <= j < 13 ==> ps[j] != "matched_rule"
    ensures ["matched_rule", ":"] <= ps[15..] && forall j :: 1 <= j < 15 ==> !(["matched_rule", ":"] <= ps[j..])
  {
    assert ps[14] == ps[14..][0] && ps[15..] == ps[14..][1..];
    forall j | 1 <= j < 15
      ensures !(["matched_rule", ":"] <= ps[j..])
    {
      assert ps[j..][0] == ps[j] && ps[j..][1] == ps[j + 1];
    }
  }

  lemma ReasonUpToQuote(resp: Response)
    requires |resp.reason| <= 255
    ensures Cut(UpToQuote(ReplyTail(resp)), 255) == UpToQuote(resp.reason + "\"")
    ensures QuoteFree(resp.reason) ==> UpToQuote(resp.reason + "\"") == resp.reason
  {
    var tail := "," + Member("matched_rule", resp.matchedRule) + "}";
    assert ReplyTail(resp) == resp.reason + "\"" + tail;
    UpToFirstQuote(resp.reason, tail);
    if QuoteFree(resp.reason) {
      UpToQuoteIs(resp.reason, "");
      assert resp.reason + "\"" + "" == resp.reason + "\"";
    }
  }

  lemma DecisionIsReplyable(rules: seq<PolicyRule>, agent: string, capability: string, fnmatch: Fnmatch, id: string)
    requires QuoteFree(id) && |id| <= 20
    ensures Replyable(id, Decision(rules, agent, capability, fnmatch))
  {
  }

  // ---- the engine's other answers never allow ----

  /** What follows the type in every other answer. */
  function OtherReply(rest: string): string {
    "{" + Member("type", "policy_response") + "," + rest + "}"
  }

  /** The client reads neither an allow nor a reason. */
  ghost predicate SaysNothing(reply: string) {
    !ClientAllows(reply) && ClientReason(reply) == ""
  }

  /** No piece equal to the key is followed by the piece ":". */
  predicate NoMember(ps: seq<string>, key: string) {
    forall j :: 1 <= j < |ps| - 1 ==> !(ps[j] == key && ps[j + 1] == ":")
  }

  lemma MemberNotFound(ps: seq<string>, last: string, key: string, room: nat)
    requires AllQuoteFree(ps) && QuoteFree(last) && NoMember(ps, key) && QuoteFree(key) && |key| <= 100
    ensures ReplyField(Quoted(ps) + last, key, room) == None
  {
    PatternIsPieces(key);
    forall j | 1 <= j <= |ps|
      ensures !([key, ":"] <= ps[j..])
    {
      assert j + 1 < |ps| ==> ps[j..][0] == ps[j] && ps[j..][1] == ps[j + 1];
    }
    NoPieces(ps, [key, ":"], last);
  }

  lemma NothingFound(ps: seq<string>, last: string)
    requires AllQuoteFree(ps) && QuoteFree(last) && NoMember(ps, "action") && NoMember(ps, "reason")
    ensures SaysNothing(Quoted(ps) + last)
  {
    MemberNotFound(ps, last, "action", 31);
    MemberNotFound(ps, last, "reason", 255);
  }

  function TypePieces(): seq<string> {
    ["{", "type", ":", "policy_response"]
  }

  lemma TypeIsPieces()
    ensures "{" + Member("type", "policy_response") == Quoted(TypePieces())
  {
    PushMember([], "{", "type", "policy_response");
    assert [] + TypePieces() == TypePieces();
    assert Quoted([]) + "{" + Member("type", "policy_response") == "{" + Member("type", "policy_response");
  }

  /** An answer with one more member. */
  lemma MemberNeverAllows(key: string, value: string)
    requires QuoteFree(key) && QuoteFree(value) && key !in ["action", "reason"]
    ensures SaysNothing(OtherReply(Member(key, value)))
  {
    TypeIsPieces();
    PushMember(TypePieces(), ",", key, value);
    NothingFound(TypePieces() + [",", key, ":", value], "}");
  }

  /** Or two. */
  lemma MembersNeverAllow(key: string, value: string, key2: string, value2: string)
    requires QuoteFree(key) && QuoteFree(value) && QuoteFree(key2) && QuoteFree(value2) && key !in ["action", "reason"]
             && key2 !in ["action", "reason"]
    ensures SaysNothing(OtherReply(Member(key, value) + "," + Member(key2, value2)))
  {
    var ps := TypePieces() + [",", key, ":", value];
    TypeIsPieces();
    PushMember(TypePieces(), ",", key, value);
    PushMember(ps, ",", key2, value2);
    Assoc(Member(key, value), ",", Member(key2, value2));
    Assoc(Quoted(ps), ",", Member(key2, value2));
    NothingFound(ps + [",", key2, ":", value2], "}");
    Regrouped("{" + Member("type", "policy_response"), Member(key, value), "," + Member(key2, value2));
  }

  lemma Regrouped(head: string, a: string, b: string)
    ensures head + "," + (a + b) + "}" == head + "," + a + b + "}"
  {
  }
}
