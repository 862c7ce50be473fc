/** The orchestrator's policy question and how the policy engine reads it
    (components/orchestrator/policy_client/policy_client.c, components/policy-engine/protocol/protocol.c). */
module PolicyRequest {
  import opened CStrings
  import opened Pieces
  import opened Json
  import opened Fields

  function RequestText(agent: string, capability: string, target: string): string {
    "{" + Member("type", "policy_check") + "," + Name("id") + ":1," + Member("agent", agent)
    + "," + Member("capability", capability) + "," + Member("target", target) + "}"
  }

  /** What the client writes: 4096-byte buffer. */
  function ClientRequest(agent: string, capability: string, target: string): string {
    Cut(RequestText(agent, capability, target), 4095)
  }

  datatype MessageType = Ping | Version | ReloadRules | AddPolicy | PolicyCheck | Unknown

  /** The first of these fixed texts found anywhere in the message decides its type. */
  function TypeOf(raw: string): MessageType {
    if StrStr(raw, Member("type", "ping")).Some? then Ping
    else if StrStr(raw, Member("type", "version")).Some? then Version
    else if StrStr(raw, Member("type", "reload")).Some? then ReloadRules
    else if StrStr(raw, Member("type", "add_rule")).Some? then AddPolicy
    else if StrStr(raw, Member("type", "policy_check")).Some? then PolicyCheck
    else Unknown
  }

  /** The order in which a message's type is looked for, with the texts written out. */
  lemma TypeExactly(raw: string)
    ensures TypeOf(raw) ==
              if StrStr(raw, "\"type\":\"ping\"").Some? then Ping
              else if StrStr(raw, "\"type\":\"version\"").Some? then Version
              else if StrStr(raw, "\"type\":\"reload\"").Some? then ReloadRules
              else if StrStr(raw, "\"type\":\"add_rule\"").Some? then AddPolicy
              else if StrStr(raw, "\"type\":\"policy_check\"").Some? then PolicyCheck
              else Unknown
  {
    assert Member("type", "ping") == "\"type\":\"ping\"";
    assert Member("type", "version") == "\"type\":\"version\"";
    assert Member("type", "reload") == "\"type\":\"reload\"";
    assert Member("type", "add_rule") == "\"type\":\"add_rule\"";
    assert Member("type", "policy_check") == "\"type\":\"policy_check\"";
  }

  datatype Request = Request(agent: string, capability: string, target: string)

  function ParsedRequest(raw: string): Request {
    Request(Field(raw, "agent", 63), Field(raw, "capability", 63), Field(raw, "target", 127))
  }

  // ---- the parser, step by step ----

  method ReadRequest(raw: CString) returns (req: Request)
    ensures req == ParsedRequest(raw)
  {
    var agent := ReadFieldText(raw, "agent", 64);
    var capability := ReadFieldText(raw, "capability", 64);
    var target := ReadFieldText(raw, "target", 128);
    req := Request(agent, capability, target);
  }

  // ---- the request seen as pieces ----

  /** Within the field sizes. Agents and capabilities hold no quote, since they were read up to one; a target is any
      text, since a query can hold quotes. */
  ghost predicate Sendable(agent: string, capability: string, target: string) {
    QuoteFree(agent) && |agent| <= 63 && QuoteFree(capability) && |capability| <= 63 && |target| <= 127
  }

  /** The pieces before the target. */
  function HeadPieces(agent: string, capability: string): seq<string> {
    ["{", "type", ":", "policy_check", ",", "id", ":1,", "agent", ":", agent, ",", "capability", ":", capability,
     ",", "target", ":"]
  }

  function RequestTail(target: string): string {
    target + "\"}"
  }

  lemma RequestHead(agent: string)
    ensures "{" + Member("type", "policy_check") + "," + Name("id") + ":1," + Member("agent", agent)
         == Quoted(["{", "type", ":", "policy_check", ",", "id", ":1,", "agent", ":", agent])
  {
    var p1 := ["{", "type", ":", "policy_check"];
    var p2 := p1 + [",", "id"];
    PushMember([], "{", "type", "policy_check");
    assert [] + p1 == p1;
    assert Quoted([]) + "{" + Member("type", "policy_check") == "{" + Member("type", "policy_check");
    PushName(p1, ",", "id");
    PushMember(p2, ":1,", "agent", agent);
    assert p2 + [":1,", "agent", ":", agent]
        == ["{", "type", ":", "policy_check", ",", "id", ":1,", "agent", ":", agent];
  }

  lemma MemberEnds(ps: seq<string>, key: string, value: string)
    ensures Quoted(ps) + "," + Member(key, value) + "}" == Quoted(ps + [",", key, ":"]) + RequestTail(value)
  {
    var front := ps + [",", key, ":"];
    PushMember(ps, ",", key, value);
    assert ps + [",", key, ":", value] == front + [value];
    QuotedConcat(front, [value]);
    assert [value][1..] == [];
    assert Quoted([value]) == value + "\"";
    assert Quoted(front) + (value + "\"") + "}" == Quoted(front) + (value + "\"" + "}");
  }

  lemma RequestIsPieces(agent: string, capability: string, target: string)
    ensures RequestText(agent, capability, target) == Quoted(HeadPieces(agent, capability)) + RequestTail(target)
  {
    var p3 := ["{", "type", ":", "policy_check", ",", "id", ":1,", "agent", ":", agent];
    var p4 := p3 + [",", "capability", ":", capability];
    RequestHead(agent);
    PushMember(p3, ",", "capability", capability);
    MemberEnds(p4, "target", target);
    assert p4 + [",", "target", ":"] == HeadPieces(agent, capability);
  }

  /** Where the keys stand among the pieces, and that nothing before them is taken for them. */
  lemma RequestKeys(agent: string, capability: string)
    ensures var ps := HeadPieces(agent, capability);
            && |ps| == 17 && ps[7] == "agent" && ps[11] == "capability" && ps[15] == "target"
            && ps[8] == ps[12] == ps[16] == ":" && ps[9] == agent && ps[13] == capability
            && ps[10] == ps[14] == ","
            && (forall j :: 1 <= j < 7 ==> ps[j] != "agent")
            && (forall j :: 1 <= j < 11 && j != 9 ==> ps[j] != "capability")
            && (forall j :: 1 <= j < 15 && j != 9 && j != 13 ==> ps[j] != "target")
  {
  }

  lemma PiecesQuoteFree(agent: string, capability: string)
    requires QuoteFree(agent) && QuoteFree(capability)
    ensures AllQuoteFree(HeadPieces(agent, capability))
  {
  }

  lemma RequestFits(agent: string, capability: string, target: string)
    requires Sendable(agent, capability, target)
    ensures ClientRequest(agent, capability, target) == RequestText(agent, capability, target)
  {
  }

  // ---- the type of the message ----

  /** The target, in its quotes, contains the text that stands for this message type. */
  predicate NamesType(target: string, name: string) {
    StrStr("\"" + target + "\"", Member("type", name)).Some?
  }

  /** What the engine takes the question for: its target decides. */
  function TypeByTarget(target: string): MessageType {
    if NamesType(target, "ping") then Ping
    else if NamesType(target, "version") then Version
    else if NamesType(target, "reload") then ReloadRules
    else if NamesType(target, "add_rule") then AddPolicy
    else PolicyCheck
  }

  /** No match of another type starts before the target. */
  lemma NoTypeInHead(agent: string, capability: string, other: string, rest: string, j: nat)
    requires QuoteFree(agent) && QuoteFree(capability) && QuoteFree(other) && other != "policy_check" && 1 <= j < 17
    ensures !(Quoted(["type", ":", other]) <= Quoted(HeadPieces(agent, capability)[j..]) + rest)
  {
    var ps, qs := HeadPieces(agent, capability), ["type", ":", other];
    PiecesQuoteFree(agent, capability);
    var from := ps[j..];
    assert from[0] == ps[j];
    if j <= 14 {
      assert from[1] == ps[j + 1] && from[2] == ps[j + 2];
      assert !(ps[j] == "type" && ps[j + 1] == ":" && ps[j + 2] == other);
      PrefixCode(qs, from, rest);
    } else {
      OtherStart("type", Quoted([":", other]), from[0], Quoted(from[1..]) + rest);
      assert qs[1..] == [":", other];
      UnquoteFirst(from, rest);
    }
  }

  lemma OtherStart(q: string, x: string, p: string, y: string)
    requires QuoteFree(q) && QuoteFree(p) && q != p
    ensures !(q + "\"" + x <= p + "\"" + y)
  {
    var a, b := q + "\"" + x, p + "\"" + y;
    if |q| < |p| {
      assert a[|q|] == '"' && b[|q|] == p[|q|];
    } else if |p| < |q| {
      assert b[|p|] == '"' && a[|p|] == q[|p|];
    } else {
      assert a[..|q|] == q && b[..|q|] == p;
    }
  }

  lemma TypeBehindHead(agent: string, capability: string, other: string, rest: string)
    requires QuoteFree(agent) && QuoteFree(capability) && QuoteFree(other) && other != "policy_check"
    ensures var pat := "\"" + Quoted(["type", ":", other]);
            Occurs(Quoted(HeadPieces(agent, capability)) + rest, pat) <==> Occurs("\"" + rest, pat)
  {
    var ps := HeadPieces(agent, capability);
    PiecesQuoteFree(agent, capability);
    forall j | 1 <= j < |ps|
      ensures !(Quoted(["type", ":", other]) <= Quoted(ps[j..]) + rest)
    {
      NoTypeInHead(agent, capability, other, rest, j);
    }
    OccursBehind(ps, ["type", ":", other], rest);
  }

  lemma TypeInTail(target: string, other: string)
    ensures Occurs("\"" + RequestTail(target), Member("type", other)) <==> NamesType(target, other)
  {
    var quoted, pat := "\"" + target + "\"", Member("type", other);
    assert "\"" + RequestTail(target) == quoted + ['}'];
    EndsInQuote("type", other);
    OccursBefore(quoted, '}', pat);
    OccursIff(quoted, pat);
  }

  /** Another type is found in the question exactly when the quoted target contains its text. */
  lemma TypeFoundExactly(agent: string, capability: string, target: string, other: string)
    requires QuoteFree(agent) && QuoteFree(capability) && QuoteFree(other) && other != "policy_check"
    ensures StrStr(RequestText(agent, capability, target), Member("type", other)).Some? <==> NamesType(target, other)
  {
    MemberIsPieces("type", other);
    RequestIsPieces(agent, capability, target);
    TypeBehindHead(agent, capability, other, RequestTail(target));
    TypeInTail(target, other);
    OccursIff(RequestText(agent, capability, target), Member("type", other));
  }

  lemma EndsInQuote(key: string, value: string)
    ensures var m := Member(key, value); m != "" && m[|m| - 1] == '"'
  {
  }

  lemma CheckIsFound(agent: string, capability: string, target: string)
    requires QuoteFree(agent) && QuoteFree(capability)
    ensures StrStr(RequestText(agent, capability, target), Member("type", "policy_check")).Some?
  {
    var ps, qs := HeadPieces(agent, capability), ["type", ":", "policy_check"];
    RequestIsPieces(agent, capability, target);
    MemberIsPieces("type", "policy_check");
    PiecesQuoteFree(agent, capability);
    assert ps[1..] == qs + ps[4..];
    FindPieces(ps, qs, 1, RequestTail(target));
  }

  /** The target alone decides what the engine takes the question for. */
  lemma TargetDecidesType(agent: string, capability: string, target: string)
    requires QuoteFree(agent) && QuoteFree(capability)
    ensures TypeOf(RequestText(agent, capability, target)) == TypeByTarget(target)
  {
    TypeFoundExactly(agent, capability, target, "ping");
    TypeFoundExactly(agent, capability, target, "version");
    TypeFoundExactly(agent, capability, target, "reload");
    TypeFoundExactly(agent, capability, target, "add_rule");
    CheckIsFound(agent, capability, target);
  }

  lemma QuotedTarget(target: string)
    ensures "\"" + target + "\"" == Quoted(["", target]) + ""
  {
    assert ["", target][1..] == [target] && [target][1..] == [];
    assert Quoted([target]) == target + "\"";
  }

  /** Without quotes in the target it is always a policy check. */
  lemma PlainTargetIsCheck(target: string)
    requires QuoteFree(target)
    ensures TypeByTarget(target) == PolicyCheck
  {
    NoTypeNamed(target, "ping");
    NoTypeNamed(target, "version");
    NoTypeNamed(target, "reload");
    NoTypeNamed(target, "add_rule");
  }

  lemma NoTypeNamed(target: string, name: string)
    requires QuoteFree(target) && QuoteFree(name)
    ensures !NamesType(target, name)
  {
    QuotedTarget(target);
    MemberIsPieces("type", name);
    NoPieces(["", target], ["type", ":", name], "");
  }

  /** A text with a quote in it, after which the message seems to go on with the type of an added rule. */
  function MistakenTarget(first: string): string {
    first + "\"," + "\"type\":\"add_rule"
  }

  lemma MistakenPieces(first: string)
    ensures "\"" + MistakenTarget(first) + "\"" == Quoted(["", first, ",", "type", ":", "add_rule"]) + ""
  {
    var p := ["", first];
    QuotedTarget(first);
    assert Member("type", "add_rule") == "\"type\":\"add_rule" + "\"";
    PushMember(p, ",", "type", "add_rule");
    assert p + [",", "type", ":", "add_rule"] == ["", first, ",", "type", ":", "add_rule"];
    assert "\"" + MistakenTarget(first) + "\"" == ("\"" + first + "\"") + "," + ("\"type\":\"add_rule" + "\"");
  }

  lemma MissesType(ps: seq<string>, first: string, name: string)
    requires ps == ["", first, ",", "type", ":", "add_rule"] && QuoteFree(first) && QuoteFree(name)
             && name != "add_rule"
    ensures StrStr(Quoted(ps) + "", Member("type", name)).None?
  {
    MemberIsPieces("type", name);
    var qs := ["type", ":", name];
    forall j | 1 <= j <= |ps|
      ensures !(qs <= ps[j..])
    {
      assert j + 2 < |ps| ==> ps[j..][1] == ps[j + 1] && ps[j..][2] == ps[j + 2];
    }
    NoPieces(ps, qs, "");
  }

  lemma MeetsType(ps: seq<string>, first: string)
    requires ps == ["", first, ",", "type", ":", "add_rule"] && QuoteFree(first)
    ensures StrStr(Quoted(ps) + "", Member("type", "add_rule")).Some?
  {
    MemberIsPieces("type", "add_rule");
    assert AllQuoteFree(ps) && ps[3..] == ["type", ":", "add_rule"];
    if first == "type" {
      assert ps[1..][1] == ",";
    }
    assert ps[2..][0] == "," && ps[1..][1] == ",";
    FindPieces(ps, ["type", ":", "add_rule"], 3, "");
  }

  /** With quotes it need not be: such a target turns the question into the addition of a rule. */
  lemma QuotedTargetMistaken(first: string)
    requires QuoteFree(first)
    ensures TypeByTarget(MistakenTarget(first)) == AddPolicy
  {
    var ps := ["", first, ",", "type", ":", "add_rule"];
    MistakenPieces(first);
    MissesType(ps, first, "ping");
    MissesType(ps, first, "version");
    MissesType(ps, first, "reload");
    MeetsType(ps, first);
  }

  // ---- what is read ----

  /** The value read for a key that first stands at piece i, with the next ":" at piece m. */
  lemma RequestField(agent: string, capability: string, target: string, key: string, i: nat, m: nat, room: nat)
    requires QuoteFree(agent) && QuoteFree(capability) && ':' !in key
    requires 1 <= i < m < 16
    requires var ps := HeadPieces(agent, capability);
             && ps[i] == key && ps[m] == ":"
             && (forall j :: 1 <= j < i ==> ps[j] != key) && (forall j :: i < j < m ==> ':' !in ps[j])
    ensures Field(RequestText(agent, capability, target), key, room) == Cut(HeadPieces(agent, capability)[m + 1], room)
  {
    RequestIsPieces(agent, capability, target);
    PiecesQuoteFree(agent, capability);
    FieldPiece(HeadPieces(agent, capability), key, i, m, RequestTail(target), room);
  }

  lemma AgentParses(agent: string, capability: string, target: string)
    requires Sendable(agent, capability, target)
    ensures Field(RequestText(agent, capability, target), "agent", 63) == agent
  {
    AgentCut(agent, capability, target);
  }

  lemma CapabilityParses(agent: string, capability: string, target: string)
    requires Sendable(agent, capability, target)
    ensures Field(RequestText(agent, capability, target), "capability", 63) == capability
  {
    CapabilityCut(agent, capability, target);
  }

  /** Longer texts arrive cut to their fields. */
  lemma LongTextsAreCut(agent: string, capability: string, target: string)
    requires QuoteFree(agent) && QuoteFree(capability)
    ensures ParsedRequest(RequestText(agent, capability, target)).agent == Cut(agent, 63)
    ensures ParsedRequest(RequestText(agent, capability, target)).capability == Cut(capability, 63)
  {
    AgentCut(agent, capability, target);
    CapabilityCut(agent, capability, target);
  }

  lemma AgentCut(agent: string, capability: string, target: string)
    requires QuoteFree(agent) && QuoteFree(capability)
    ensures Field(RequestText(agent, capability, target), "agent", 63) == Cut(agent, 63)
  {
    RequestKeys(agent, capability);
    RequestField(agent, capability, target, "agent", 7, 8, 63);
  }

  lemma CapabilityCut(agent: string, capability: string, target: string)
    requires QuoteFree(agent) && QuoteFree(capability)
    ensures Field(RequestText(agent, capability, target), "capability", 63) == Cut(capability, 63)
  {
    RequestKeys(agent, capability);
    RequestField(agent, capability, target, "capability", if agent == "capability" then 9 else 11, 12, 63);
  }

  lemma TargetText(agent: string, capability: string, target: string)
    requires Sendable(agent, capability, target) && agent != "target"
    ensures Field(RequestText(agent, capability, target), "target", 127) == UpToQuote(target + "\"")
  {
    RequestKeys(agent, capability);
    TargetFrom(agent, capability, target, if capability == "target" then 13 else 15);
  }

  lemma TargetFrom(agent: string, capability: string, target: string, i: nat)
    requires Sendable(agent, capability, target) && 1 <= i < 16
    requires var ps := HeadPieces(agent, capability);
             && ps[i] == "target" && (forall j :: 1 <= j < i ==> ps[j] != "target")
             && (forall j :: i < j < 16 ==> ':' !in ps[j])
    ensures Field(RequestText(agent, capability, target), "target", 127) == UpToQuote(target + "\"")
  {
    RequestIsPieces(agent, capability, target);
    PiecesQuoteFree(agent, capability);
    assert RequestTail(target) == target + "\"" + "}";
    LastValue(HeadPieces(agent, capability), "target", i, 16, target, "}", 127);
  }

  /** The target arrives up to its first quote, so unchanged exactly when it has none; except that an agent named
      "target" makes the engine read the capability there. */
  lemma TargetParses(agent: string, capability: string, target: string)
    requires Sendable(agent, capability, target)
    ensures var read := ParsedRequest(RequestText(agent, capability, target)).target;
            if agent == "target" then read == capability
            else read == UpToQuote(target + "\"") && (read == target <==> QuoteFree(target))
  {
    RequestKeys(agent, capability);
    if agent == "target" {
      RequestField(agent, capability, target, "target", 9, 12, 127);
    } else {
      TargetText(agent, capability, target);
      UpToFirstQuote(target, "");
    }
  }

  /** As when an agent named "target" asks about opening a file. */
  lemma AgentNamedTarget()
    ensures ParsedRequest(RequestText("target", "open", "file")) == Request("target", "open", "open")
  {
    AgentParses("target", "open", "file");
    CapabilityParses("target", "open", "file");
    TargetParses("target", "open", "file");
  }
}
