/** The policy engine's handler (components/policy-engine/main.c), and a decision on its way through both messages. */
module PolicyWire {
  import opened CStrings
  import opened RuleTables
  import opened Pieces
  import opened Json
  import opened Fields
  import opened Policy
  import opened PolicyRequest
  import opened PolicyReply
  import opened Scan
  import Register

  // ---- the engine's handler: every message is answered, and two kinds change the rules ----

  function ActionFrom(text: string): Action {
    if text == "allow" then Allow else if text == "ask_user" then AskUser else Deny
  }

  function ParsedRule(raw: string): PolicyRule {
    var action := EscapedField(raw, "action", 255);
    PolicyRule(Cut(EscapedField(raw, "capability", 255), 63), Cut(EscapedField(raw, "agent", 255), 63),
               if action != "" then ActionFrom(action) else Allow, 10, "")
  }

  function RuleName(rule: PolicyRule): string {
    if rule.capability != "" then rule.capability else "unnamed"
  }

  function PingReply(): string {
    OtherReply(Member("status", "alive"))
  }

  function VersionReply(): string {
    OtherReply(Member("version", "0.1.0") + "," + Member("component", "ai-policy-engine"))
  }

  function ReloadedReply(): string {
    OtherReply(Member("status", "reloaded"))
  }

  function AddedReply(rule: PolicyRule): string {
    OtherReply(Member("status", "rule_added") + "," + Member("rule", RuleName(rule)))
  }

  function UnknownReply(): string {
    OtherReply(Member("status", "error") + "," + Member("message", "unknown message type"))
  }

  /** The answer to a message of this type; `id` is a check's id in digits. */
  function AnswerTo(kind: MessageType, rules: seq<PolicyRule>, fnmatch: Fnmatch, raw: string, id: string): string {
    match kind
    case Ping => PingReply()
    case Version => VersionReply()
    case ReloadRules => ReloadedReply()
    case AddPolicy => AddedReply(ParsedRule(raw))
    case PolicyCheck =>
      var req := ParsedRequest(raw);
      ServerReply(id, Decision(rules, req.agent, req.capability, fnmatch))
    case Unknown => UnknownReply()
  }

  function EngineReply(rules: seq<PolicyRule>, fnmatch: Fnmatch, raw: string, id: string): string {
    AnswerTo(TypeOf(raw), rules, fnmatch, raw, id)
  }

  /** The rules after a message; `files` are those a reload finds. */
  function EngineRules(rules: seq<PolicyRule>, raw: string, files: seq<PolicyRule>): seq<PolicyRule> {
    match TypeOf(raw)
    case ReloadRules => AppendAll([], files, MAX_POLICIES)
    case AddPolicy => Append(rules, ParsedRule(raw), MAX_POLICIES)
    case _ => rules
  }

  // ---- a rule added by a message ----

  /** A message that adds a rule, with each member the engine reads. */
  function AddMessage(capability: string, agent: string, action: string): string {
    "{" + Member("type", "add_rule") + "," + Member("capability", capability) + "," + Member("agent", agent)
    + "," + Member("action", action) + "}"
  }

  function AddPieces(capability: string, agent: string, action: string): seq<string> {
    ["{", "type", ":", "add_rule", ",", "capability", ":", capability, ",", "agent", ":", agent, ",", "action", ":",
     action]
  }

  lemma AddIsPieces(capability: string, agent: string, action: string)
    ensures AddMessage(capability, agent, action) == Quoted(AddPieces(capability, agent, action)) + "}"
  {
    var p2 := ["{", "type", ":", "add_rule", ",", "capability", ":", capability];
    AddHead(capability);
    PushMember(p2, ",", "agent", agent);
    PushMember(p2 + [",", "agent", ":", agent], ",", "action", action);
    assert p2 + [",", "agent", ":", agent] + [",", "action", ":", action] == AddPieces(capability, agent, action);
  }

  lemma AddHead(capability: string)
    ensures "{" + Member("type", "add_rule") + "," + Member("capability", capability)
         == Quoted(["{", "type", ":", "add_rule", ",", "capability", ":", capability])
  {
    var p1 := ["{", "type", ":", "add_rule"];
    PushMember([], "{", "type", "add_rule");
    assert [] + p1 == p1;
    assert Quoted([]) + "{" + Member("type", "add_rule") == "{" + Member("type", "add_rule");
    PushMember(p1, ",", "capability", capability);
    assert p1 + [",", "capability", ":", capability]
        == ["{", "type", ":", "add_rule", ",", "capability", ":", capability];
  }

  /** The value of a key that first stands at piece i, with the next ":" at piece m and a plain value behind that. */
  lemma PlainMember(ps: seq<string>, key: string, i: nat, m: nat, last: string)
    requires AllQuoteFree(ps) && ':' !in key && 1 <= i < m && m + 1 < |ps| && ps[i] == key && ps[m] == ":"
    requires forall j :: 1 <= j < i ==> ps[j] != key
    requires forall j :: i < j < m ==> ':' !in ps[j]
    requires Register.Plain(ps[m + 1]) && |ps[m + 1]| <= 255
    ensures EscapedField(Quoted(ps) + last, key, 255) == ps[m + 1]
  {
    ValuePieceAfterColon(ps, key, i, m, last);
    UnquoteFirst(ps[m + 1..], last);
    Register.ItemIffPlain(ps[m + 1], Quoted(ps[m + 1..][1..]) + last, 255);
  }

  /** Such a message adds the rule it names, of priority 10 and without a text; only a capability called "action" has
      the agent's name read as the action. */
  lemma RuleArrivesExactly(capability: string, agent: string, action: string)
    requires Register.Plain(capability) && Register.Plain(agent) && Register.Plain(action)
    requires |capability| <= 255 && |agent| <= 255 && |action| <= 255
    ensures var said := if capability == "action" then agent else action;
            ParsedRule(AddMessage(capability, agent, action))
              == PolicyRule(Cut(capability, 63), Cut(agent, 63),
                            if said == "allow" || said == "" then Allow
                            else if said == "ask_user" then AskUser else Deny, 10, "")
  {
    AddIsPieces(capability, agent, action);
    AddKeys(capability, agent, action);
    CapabilityMember(AddPieces(capability, agent, action), capability, agent, action);
    AgentMember(AddPieces(capability, agent, action), capability, agent, action);
    ActionMember(AddPieces(capability, agent, action), capability, agent, action);
  }

  /** As when the agent is called "allow" and the action is to be denied. */
  lemma ActionCapability()
    ensures ParsedRule(AddMessage("action", "allow", "deny")) == PolicyRule("action", "allow", Allow, 10, "")
  {
    RuleArrivesExactly("action", "allow", "deny");
  }

  lemma CapabilityMember(ps: seq<string>, capability: string, agent: string, action: string)
    requires ps == AddPieces(capability, agent, action) && AllQuoteFree(ps)
    requires Register.Plain(capability) && |capability| <= 255
    ensures EscapedField(Quoted(ps) + "}", "capability", 255) == capability
  {
    AddKeys(capability, agent, action);
    PlainMember(ps, "capability", 5, 6, "}");
  }

  lemma AgentMember(ps: seq<string>, capability: string, agent: string, action: string)
    requires ps == AddPieces(capability, agent, action) && AllQuoteFree(ps)
    requires Register.Plain(agent) && |agent| <= 255
    ensures EscapedField(Quoted(ps) + "}", "agent", 255) == agent
  {
    AddKeys(capability, agent, action);
    if capability == "agent" {
      PlainMember(ps, "agent", 7, 10, "}");
    } else {
      PlainMember(ps, "agent", 9, 10, "}");
    }
  }

  lemma ActionMember(ps: seq<string>, capability: string, agent: string, action: string)
    requires ps == AddPieces(capability, agent, action) && AllQuoteFree(ps)
    requires Register.Plain(agent) && Register.Plain(action) && |agent| <= 255 && |action| <= 255
    ensures EscapedField(Quoted(ps) + "}", "action", 255) == if capability == "action" then agent else action
  {
    if capability == "action" {
      PlainMember(ps, "action", 7, 10, "}");
    } else if agent == "action" {
      PlainMember(ps, "action", 11, 14, "}");
    } else {
      PlainMember(ps, "action", 13, 14, "}");
    }
  }

  lemma AddKeys(capability: string, agent: string, action: string)
    ensures var ps := AddPieces(capability, agent, action);
            && (QuoteFree(capability) && QuoteFree(agent) && QuoteFree(action) ==> AllQuoteFree(ps)) && |ps| == 16
                && ps[5] == "capability" && ps[9] == "agent"
            && ps[6] == ps[10] == ":" && ps[7] == capability && ps[11] == agent && ps[8] == ","
            && (forall j :: 1 <= j < 5 ==> ps[j] != "capability")
            && (forall j :: 1 <= j < 9 && j != 7 ==> ps[j] != "agent")
  {
  }

  // ---- what the engine answers, written out ----

  /** The answers to the messages that are no checks. */
  lemma FixedAnswers(rules: seq<PolicyRule>, fnmatch: Fnmatch, raw: string, id: string)
    requires TypeOf(raw) != PolicyCheck
    ensures var name := ParsedRule(raw).capability;
            EngineReply(rules, fnmatch, raw, id) == "{" + Member("type", "policy_response") + "," +
              (match TypeOf(raw)
               case Ping => Member("status", "alive")
               case Version => Member("version", "0.1.0") + "," + Member("component", "ai-policy-engine")
               case ReloadRules => Member("status", "reloaded")
               case AddPolicy => Member("status", "rule_added") + ","
                                 + Member("rule", if name == "" then "unnamed" else name)
               case _ => Member("status", "error") + "," + Member("message", "unknown message type")) + "}"
  {
  }

  method ReadRule(raw: string) returns (rule: PolicyRule)
    ensures rule == ParsedRule(raw)
  {
    rule := PolicyRule("", "", Allow, 10, "");
    var text := ReadEscapedField(raw, "capability", 255);
    if |text| > 0 {
      rule := rule.(capability := Cut(text, 63));
    }
    text := ReadEscapedField(raw, "agent", 255);
    if |text| > 0 {
      rule := rule.(agent := Cut(text, 63));
    }
    text := ReadEscapedField(raw, "action", 255);
    if |text| > 0 {
      rule := rule.(action := ActionFrom(text));
    }
  }

  method Serve(store: PolicyStore, fnmatch: Fnmatch, raw: CString, id: string, files: seq<PolicyRule>)
    returns (out: string)
    requires store.Valid()
    modifies store, store.rules
    ensures store.Valid()
    ensures out == EngineReply(old(store.Contents()), fnmatch, raw, id)
    ensures store.Contents() == EngineRules(old(store.Contents()), raw, files)
  {
    match TypeOf(raw) {
      case Ping => out := PingReply();
      case Version => out := VersionReply();
      case ReloadRules =>
        store.Reload(files);
        out := ReloadedReply();
      case AddPolicy =>
        var rule := ReadRule(raw);
        var added := store.AddRule(rule);
        out := AddedReply(rule);
      case PolicyCheck =>
        var req := ReadRequest(raw);
        var resp := store.Check(req.agent, req.capability, fnmatch);
        out := ServerReply(id, resp);
      case Unknown => out := UnknownReply();
    }
  }

  // ---- a question taken for an added rule is not answered with an allow either ----

  /** At most one quote, at the end or before a last comma. */
  predicate LateQuote(s: string) {
    || QuoteFree(s)
    || (s[|s| - 1] == '"' && QuoteFree(s[..|s| - 1]))
    || (|s| >= 2 && s[|s| - 2..] == "\"," && QuoteFree(s[..|s| - 2]))
  }

  lemma LateQuoteCons(c: char, s: string)
    requires c != '"' && LateQuote(s)
    ensures LateQuote([c] + s)
  {
    var t := [c] + s;
    if s != "" {
      assert t[..|t| - 1] == [c] + s[..|s| - 1];
    }
    if |s| >= 2 {
      assert t[..|t| - 2] == [c] + s[..|s| - 2] && t[|t| - 2..] == s[|s| - 2..];
    }
  }

  lemma LateQuoteCut(s: string, n: nat)
    requires LateQuote(s)
    ensures LateQuote(Cut(s, n))
  {
    if n + 1 == |s| && n > 0 {
      assert s[..n][..n - 1] == s[..|s| - 2];
    } else if n + 2 <= |s| {
      assert s[..n] == s[..|s| - 2][..n] == s[..|s| - 1][..n];
    }
  }

  lemma LateAfterPlain(c: char, rest: string, room: nat)
    requires c != '"' && c != '\\' && room > 0 && LateQuote(ReadItem(rest, room - 1).0)
    ensures LateQuote(ReadItem([c] + rest, room).0)
  {
    assert ([c] + rest)[1..] == rest;
    LateQuoteCons(c, ReadItem(rest, room - 1).0);
  }

  lemma LateAfterEscape(c: char, rest: string, room: nat)
    requires c != '"' && room > 0 && LateQuote(ReadItem(rest, room - 1).0)
    ensures LateQuote(ReadItem(['\\', c] + rest, room).0)
  {
    assert (['\\', c] + rest)[2..] == rest;
    LateQuoteCons(c, ReadItem(rest, room - 1).0);
  }

  /** What follows a value in a message: its quote, a comma and the next quote. */
  ghost predicate NextMember(tail: string) {
    |tail| >= 3 && tail[0] == '"' && tail[1] == ',' && tail[2] == '"'
  }

  lemma SwallowedQuote(rest: string, room: nat)
    requires room > 0
    ensures ReadItem("\\\"" + rest, room).0 == "\"" + ReadItem(rest, room - 1).0
  {
    assert ("\\\"" + rest)[2..] == rest;
  }

  lemma LateSwallowed(tail: string, room: nat)
    requires NextMember(tail) && room > 0
    ensures LateQuote(ReadItem("\\\"" + tail[1..], room).0)
  {
    SwallowedQuote(tail[1..], room);
    ReadComma(tail[1..], room - 1);
    LateAlone();
  }

  lemma ReadComma(rest: string, room: nat)
    requires |rest| >= 2 && rest[0] == ',' && rest[1] == '"'
    ensures ReadItem(rest, room).0 == if room == 0 then "" else ","
  {
    if room > 0 {
      var more := rest[1..];
      assert more[0] == '"';
      assert ReadItem(more, room - 1) == ("", more);
    }
  }

  lemma LateAlone()
    ensures LateQuote("\"" + "") && LateQuote("\"" + ",")
  {
    assert ("\"" + "")[..0] == "";
    assert ("\"" + ",")[..0] == "";
  }

  lemma HeadOf(c: string, tail: string, n: nat)
    requires n <= |c| && QuoteFree(c)
    ensures c + tail == c[..n] + (c[n..] + tail) && QuoteFree(c[n..])
    ensures n == 1 ==> c[..n] == [c[0]]
  {
  }

  lemma LateAtEnd(tail: string, room: nat)
    requires NextMember(tail)
    ensures LateQuote(ReadItem("" + tail, room).0)
  {
    assert "" + tail == tail;
  }

  /** Reading a quote-free value with backslashes may swallow the closing quote, but then it ends at the next one. */
  lemma {:induction false} ReadsLateQuote(c: string, tail: string, room: nat)
    requires QuoteFree(c) && NextMember(tail)
    ensures LateQuote(ReadItem(c + tail, room).0)
    decreases |c|
  {
    if room == 0 {
      assert ReadItem(c + tail, room).0 == "";
    } else if c == "" {
      LateAtEnd(tail, room);
    } else if c[0] != '\\' {
      HeadOf(c, tail, 1);
      ReadsLateQuote(c[1..], tail, room - 1);
      LateAfterPlain(c[0], c[1..] + tail, room);
    } else if |c| > 1 {
      HeadOf(c, tail, 2);
      assert c[..2] == ['\\', c[1]];
      ReadsLateQuote(c[2..], tail, room - 1);
      LateAfterEscape(c[1], c[2..] + tail, room);
    } else {
      LateSwallowed(tail, room);
      assert c + tail == "\\\"" + tail[1..];
    }
  }

  /** An answer that names such a rule holds no action. */
  lemma RuleAddedNeverAllows(name: string)
    requires LateQuote(name)
    ensures SaysNothing(OtherReply(Member("status", "rule_added") + "," + Member("rule", name)))
  {
    if QuoteFree(name) {
      MembersNeverAllow("status", "rule_added", "rule", name);
    } else {
      var front, back := BrokenAt(name);
      BrokenNameNeverAllows(front, back);
    }
  }

  lemma BrokenAt(name: string) returns (front: string, back: string)
    requires LateQuote(name) && !QuoteFree(name)
    ensures name == front + "\"" + back && QuoteFree(front) && (back == "" || back == ",")
  {
    var n := if name[|name| - 1] == '"' then |name| - 1 else |name| - 2;
    front, back := name[..n], name[n + 1..];
  }

  lemma BrokenNameNeverAllows(front: string, back: string)
    requires QuoteFree(front) && QuoteFree(back) && back != ":"
    ensures SaysNothing(OtherReply(Member("status", "rule_added") + "," + Member("rule", front + "\"" + back)))
  {
    var ps := TypePieces() + [",", "status", ":", "rule_added"];
    var qs := ps + [",", "rule", ":", front];
    TypeIsPieces();
    PushMember(TypePieces(), ",", "status", "rule_added");
    PushMember(ps, ",", "rule", front);
    PushBack(qs, back);
    NothingFound(qs + [back], "}");
    BrokenText(front, back);
  }

  lemma PushBack(qs: seq<string>, back: string)
    ensures Quoted(qs) + (back + "\"") == Quoted(qs + [back])
  {
    QuotedConcat(qs, [back]);
    assert [back][1..] == [];
    assert Quoted([back]) == back + "\"";
  }

  lemma BrokenText(front: string, back: string)
    ensures OtherReply(Member("status", "rule_added") + "," + Member("rule", front + "\"" + back))
         == "{" + Member("type", "policy_response") + "," + Member("status", "rule_added") + "," + Member("rule", front)
              + (back + "\"") + "}"
  {
    assert Member("rule", front + "\"" + back) == Member("rule", front) + (back + "\"");
  }

  lemma RuleNameOfRequest(agent: string, capability: string, target: string)
    requires Sendable(agent, capability, target)
    ensures LateQuote(RuleName(ParsedRule(RequestText(agent, capability, target))))
  {
    var more := CapabilityValue(agent, capability, target);
    RuleNameIsLate(RequestText(agent, capability, target), capability, more);
  }

  lemma RuleNameIsLate(raw: string, capability: string, more: string)
    requires QuoteFree(capability) && ValueStart(raw, "capability") == Some(capability + "\"" + (",\"" + more))
    ensures LateQuote(RuleName(ParsedRule(raw)))
  {
    var tail := "\",\"" + more;
    assert capability + "\"" + (",\"" + more) == capability + tail;
    ReadsLateQuote(capability, tail, 255);
    LateQuoteCut(ReadItem(capability + tail, 255).0, 63);
    LateUnnamed();
  }

  lemma LateUnnamed()
    ensures LateQuote("unnamed")
  {
  }

  lemma CapabilityValue(agent: string, capability: string, target: string) returns (more: string)
    requires Sendable(agent, capability, target)
    ensures ValueStart(RequestText(agent, capability, target), "capability") == Some(capability + "\"" + (",\"" + more))
  {
    var ps := HeadPieces(agent, capability);
    RequestKeys(agent, capability);
    RequestIsPieces(agent, capability, target);
    PiecesQuoteFree(agent, capability);
    ValuePieceAfterColon(ps, "capability", if agent == "capability" then 9 else 11, 12, RequestTail(target));
    more := TwoPieces(ps, 13, RequestTail(target));
  }

  lemma TwoPieces(ps: seq<string>, i: nat, rest: string) returns (more: string)
    requires i + 1 < |ps| && ps[i + 1] == ","
    ensures Quoted(ps[i..]) + rest == ps[i] + "\"" + (",\"" + more)
  {
    more := Quoted(ps[i + 2..]) + rest;
    UnquoteFirst(ps[i..], rest);
    UnquoteFirst(ps[i + 1..], rest);
    assert ps[i..][1..] == ps[i + 1..] && ps[i + 1..][1..] == ps[i + 2..];
    Assoc(",", "\"", more);
  }

  // ---- the decision crosses both messages ----

  lemma PingNeverAllows()
    ensures SaysNothing(PingReply())
  {
    MemberNeverAllows("status", "alive");
  }

  lemma VersionNeverAllows()
    ensures SaysNothing(VersionReply())
  {
    MembersNeverAllow("version", "0.1.0", "component", "ai-policy-engine");
  }

  lemma ReloadedNeverAllows()
    ensures SaysNothing(ReloadedReply())
  {
    MemberNeverAllows("status", "reloaded");
  }

  lemma UnknownNeverAllows()
    ensures SaysNothing(UnknownReply())
  {
    MembersNeverAllow("status", "error", "message", "unknown message type");
  }

  lemma OtherKindsNeverAllow(kind: MessageType, rules: seq<PolicyRule>, fnmatch: Fnmatch, raw: string, id: string)
    requires kind != PolicyCheck && LateQuote(RuleName(ParsedRule(raw)))
    ensures SaysNothing(AnswerTo(kind, rules, fnmatch, raw, id))
  {
    match kind {
      case Ping => PingNeverAllows();
      case Version => VersionNeverAllows();
      case ReloadRules => ReloadedNeverAllows();
      case AddPolicy => RuleAddedNeverAllows(RuleName(ParsedRule(raw)));
      case Unknown => UnknownNeverAllows();
    }
  }

  lemma OnlyChecksAllow(rules: seq<PolicyRule>, fnmatch: Fnmatch, agent: string, capability: string, target: string,
                        id: string)
    requires Sendable(agent, capability, target) && TypeByTarget(target) != PolicyCheck
    ensures SaysNothing(EngineReply(rules, fnmatch, RequestText(agent, capability, target), id))
  {
    TargetDecidesType(agent, capability, target);
    RuleNameOfRequest(agent, capability, target);
    OtherKindsNeverAllow(TypeByTarget(target), rules, fnmatch, RequestText(agent, capability, target), id);
  }

  /** What the client is told of the reason: up to its first quote for a policy check, and nothing for any other
      answer. */
  lemma ReasonSurvivesBothMessages(rules: seq<PolicyRule>, fnmatch: Fnmatch, agent: string, capability: string,
                                   target: string, id: string)
    requires Sendable(agent, capability, target) && QuoteFree(id) && |id| <= 20
    ensures var reply := EngineReply(rules, fnmatch, ClientRequest(agent, capability, target), id);
            ClientReason(reply) == if TypeByTarget(target) != PolicyCheck then ""
                                   else UpToQuote(Decision(rules, agent, capability, fnmatch).reason + "\"")
  {
    RequestFits(agent, capability, target);
    if TypeByTarget(target) == PolicyCheck {
      TargetDecidesType(agent, capability, target);
      AgentParses(agent, capability, target);
      CapabilityParses(agent, capability, target);
      DecisionIsReplyable(rules, agent, capability, fnmatch, id);
      ReasonArrives(id, Decision(rules, agent, capability, fnmatch));
    } else {
      OnlyChecksAllow(rules, fnmatch, agent, capability, target, id);
    }
  }

  lemma CheckArrives(rules: seq<PolicyRule>, fnmatch: Fnmatch, agent: string, capability: string, target: string,
                     id: string)
    requires Sendable(agent, capability, target) && TypeByTarget(target) == PolicyCheck && QuoteFree(id) && |id| <= 20
    ensures var reply := EngineReply(rules, fnmatch, RequestText(agent, capability, target), id);
            ClientAllows(reply) <==> Decision(rules, agent, capability, fnmatch).action == Allow
  {
    TargetDecidesType(agent, capability, target);
    AgentParses(agent, capability, target);
    CapabilityParses(agent, capability, target);
    DecisionIsReplyable(rules, agent, capability, fnmatch, id);
    ReplyAllowsExactly(id, Decision(rules, agent, capability, fnmatch));
  }

  /** Whatever the target, the client is told to allow exactly when the question is taken for a policy check and the
      rules decide allow for that agent and capability: never more than the rules allow. */
  lemma DecisionSurvivesBothMessages(rules: seq<PolicyRule>, fnmatch: Fnmatch, agent: string, capability: string,
                                     target: string, id: string)
    requires Sendable(agent, capability, target) && QuoteFree(id) && |id| <= 20
    ensures var reply := EngineReply(rules, fnmatch, ClientRequest(agent, capability, target), id);
            ClientAllows(reply) <==>
              TypeByTarget(target) == PolicyCheck && Decision(rules, agent, capability, fnmatch).action == Allow
  {
    RequestFits(agent, capability, target);
    if TypeByTarget(target) == PolicyCheck {
      CheckArrives(rules, fnmatch, agent, capability, target, id);
    } else {
      OnlyChecksAllow(rules, fnmatch, agent, capability, target, id);
    }
  }

  /** For these texts the client always learns what the rules decide. */
  ghost predicate AlwaysArrives(agent: string, capability: string, target: string, id: string) {
    forall rules: seq<PolicyRule>, fnmatch: Fnmatch :: Arrives(rules, fnmatch, agent, capability, target, id)
  }

  ghost predicate Arrives(rules: seq<PolicyRule>, fnmatch: Fnmatch, agent: string, capability: string, target: string,
                          id: string) {
    var reply := EngineReply(rules, fnmatch, ClientRequest(agent, capability, target), id);
    ClientAllows(reply) <==> Decision(rules, agent, capability, fnmatch).action == Allow
  }

  lemma AllowAll(agent: string, capability: string, fnmatch: Fnmatch)
    ensures Decision([PolicyRule("*", "*", Allow, 0, "")], agent, capability, fnmatch).action == Allow
  {
    var rules := [PolicyRule("*", "*", Allow, 0, "")];
    assert rules[0] in rules && Applies(rules[0], agent, capability, fnmatch);
    DecisionOfWinner(rules, agent, capability, fnmatch);
  }

  /** That is so exactly when no other message type is named in the quoted target, as in every target without quotes. */
  lemma DecisionArrivesExactly(agent: string, capability: string, target: string, id: string)
    requires Sendable(agent, capability, target) && QuoteFree(id) && |id| <= 20
    ensures AlwaysArrives(agent, capability, target, id) <==> TypeByTarget(target) == PolicyCheck
    ensures QuoteFree(target) ==> AlwaysArrives(agent, capability, target, id)
  {
    if TypeByTarget(target) == PolicyCheck {
      ChecksArrive(agent, capability, target, id);
    } else {
      AllowLost(agent, capability, target, id);
    }
    if QuoteFree(target) {
      PlainTargetIsCheck(target);
    }
  }

  lemma ChecksArrive(agent: string, capability: string, target: string, id: string)
    requires Sendable(agent, capability, target) && QuoteFree(id) && |id| <= 20 && TypeByTarget(target) == PolicyCheck
    ensures AlwaysArrives(agent, capability, target, id)
  {
    forall rules: seq<PolicyRule>, fnmatch: Fnmatch
      ensures Arrives(rules, fnmatch, agent, capability, target, id)
    {
      CheckAnswered(rules, fnmatch, agent, capability, target, id);
    }
  }

  lemma CheckAnswered(rules: seq<PolicyRule>, fnmatch: Fnmatch, agent: string, capability: string, target: string,
                      id: string)
    requires Sendable(agent, capability, target) && QuoteFree(id) && |id| <= 20 && TypeByTarget(target) == PolicyCheck
    ensures Arrives(rules, fnmatch, agent, capability, target, id)
  {
    DecisionSurvivesBothMessages(rules, fnmatch, agent, capability, target, id);
  }

  lemma AllowLost(agent: string, capability: string, target: string, id: string)
    requires Sendable(agent, capability, target) && QuoteFree(id) && |id| <= 20 && TypeByTarget(target) != PolicyCheck
    ensures !AlwaysArrives(agent, capability, target, id)
  {
    var rules, fnmatch := [PolicyRule("*", "*", Allow, 0, "")], (p: string, a: string) => false;
    AllowAll(agent, capability, fnmatch);
    AllowNotAnswered(rules, fnmatch, agent, capability, target, id);
    NotAlways(rules, fnmatch, agent, capability, target, id);
  }

  lemma NotAlways(rules: seq<PolicyRule>, fnmatch: Fnmatch, agent: string, capability: string, target: string,
                  id: string)
    requires !Arrives(rules, fnmatch, agent, capability, target, id)
    ensures !AlwaysArrives(agent, capability, target, id)
  {
  }

  lemma AllowNotAnswered(rules: seq<PolicyRule>, fnmatch: Fnmatch, agent: string, capability: string, target: string,
                         id: string)
    requires Sendable(agent, capability, target) && QuoteFree(id) && |id| <= 20 && TypeByTarget(target) != PolicyCheck
    requires Decision(rules, agent, capability, fnmatch).action == Allow
    ensures !Arrives(rules, fnmatch, agent, capability, target, id)
  {
    DecisionSurvivesBothMessages(rules, fnmatch, agent, capability, target, id);
  }

  /** Asking leaves the engine's rules as they are exactly when the question is not taken for a reload that finds other
      rules, or for an added rule that fits. */
  lemma AskingChangesNothing(rules: seq<PolicyRule>, files: seq<PolicyRule>, agent: string, capability: string,
                             target: string)
    requires Sendable(agent, capability, target)
    ensures EngineRules(rules, ClientRequest(agent, capability, target), files) == rules <==>
              && (TypeByTarget(target) == ReloadRules ==> AppendAll([], files, MAX_POLICIES) == rules)
              && (TypeByTarget(target) == AddPolicy ==> |rules| >= MAX_POLICIES)
  {
    RequestFits(agent, capability, target);
    TargetDecidesType(agent, capability, target);
    var rule := ParsedRule(RequestText(agent, capability, target));
    assert |rules| < MAX_POLICIES ==> |Append(rules, rule, MAX_POLICIES)| == |rules| + 1;
  }

  // ---- what a question taken for an added rule changes ----

  lemma AddsItsRule(rules: seq<PolicyRule>, files: seq<PolicyRule>, agent: string, capability: string, target: string)
    requires Sendable(agent, capability, target) && TypeByTarget(target) == AddPolicy
    ensures EngineRules(rules, ClientRequest(agent, capability, target), files)
         == Append(rules, ParsedRule(RequestText(agent, capability, target)), MAX_POLICIES)
  {
    RequestFits(agent, capability, target);
    TargetDecidesType(agent, capability, target);
  }

  /** Some rule that applies has at least this priority. */
  ghost predicate HeldAt(rules: seq<PolicyRule>, priority: int, agent: string, capability: string, fnmatch: Fnmatch) {
    exists r :: r in rules && Applies(r, agent, capability, fnmatch) && r.priority >= priority
  }

  lemma AppendedDecides(rules: seq<PolicyRule>, r: PolicyRule, agent: string, capability: string, fnmatch: Fnmatch)
    requires r.priority >= 0
    ensures Decision(rules + [r], agent, capability, fnmatch) ==
              if Applies(r, agent, capability, fnmatch) && !HeldAt(rules, r.priority, agent, capability, fnmatch)
              then RuleResponse(r) else Decision(rules, agent, capability, fnmatch)
  {
    if Applies(r, agent, capability, fnmatch) && !HeldAt(rules, r.priority, agent, capability, fnmatch) {
      StrongerRuleDecides(rules, r, agent, capability, fnmatch);
    } else {
      WeakerRuleChangesNothing(rules, r, agent, capability, fnmatch);
    }
  }

  lemma AgentValue(agent: string, capability: string, target: string) returns (more: string)
    requires Sendable(agent, capability, target)
    ensures ValueStart(RequestText(agent, capability, target), "agent") == Some(agent + "\"" + (",\"" + more))
  {
    var ps := HeadPieces(agent, capability);
    RequestKeys(agent, capability);
    RequestIsPieces(agent, capability, target);
    PiecesQuoteFree(agent, capability);
    ValuePieceAfterColon(ps, "agent", 7, 8, RequestTail(target));
    more := TwoPieces(ps, 9, RequestTail(target));
  }

  /** The rule is about the question's own agent and capability when they hold no backslash. */
  lemma RuleOfQuestion(agent: string, capability: string, target: string)
    requires Sendable(agent, capability, target) && '\\' !in agent && '\\' !in capability
    ensures var r := ParsedRule(RequestText(agent, capability, target));
            r.agent == agent && r.capability == capability && r.priority == 10
  {
    var more := AgentValue(agent, capability, target);
    Register.ItemIffPlain(agent, ",\"" + more, 255);
    var more' := CapabilityValue(agent, capability, target);
    Register.ItemIffPlain(capability, ",\"" + more', 255);
  }

  /** What the question's own text says about the action. */
  function ActionRead(agent: string, capability: string, target: string): string {
    EscapedField(RequestText(agent, capability, target), "action", 255)
  }

  /** A question taken for an added rule decides later questions about the same agent and capability: unless the store
      is full or an applying rule of priority 10 or more is held, they are answered by what its text says about an
      action, and by allow if it says nothing. */
  lemma MistakenDecidesExactly(rules: seq<PolicyRule>, files: seq<PolicyRule>, fnmatch: Fnmatch,
                               agent: string, capability: string, target: string)
    requires Sendable(agent, capability, target) && '\\' !in agent && '\\' !in capability
    requires TypeByTarget(target) == AddPolicy
    ensures var after := EngineRules(rules, ClientRequest(agent, capability, target), files);
            Decision(after, agent, capability, fnmatch).action ==
              if |rules| >= MAX_POLICIES || HeldAt(rules, 10, agent, capability, fnmatch)
              then Decision(rules, agent, capability, fnmatch).action
              else if ActionRead(agent, capability, target) == "" then Allow
              else ActionFrom(ActionRead(agent, capability, target))
  {
    var r := ParsedRule(RequestText(agent, capability, target));
    AddsItsRule(rules, files, agent, capability, target);
    RuleOfQuestion(agent, capability, target);
    assert Applies(r, agent, capability, fnmatch);
    AppendedDecides(rules, r, agent, capability, fnmatch);
  }

  lemma MistakenRequestPieces(agent: string, capability: string, first: string)
    ensures RequestText(agent, capability, MistakenTarget(first))
         == Quoted(HeadPieces(agent, capability) + [first, ",", "type", ":", "add_rule"]) + "}"
  {
    var head, tail := HeadPieces(agent, capability), [first, ",", "type", ":", "add_rule"];
    RequestIsPieces(agent, capability, MistakenTarget(first));
    QuotedConcat(head, tail);
    MistakenTail(first);
    Assoc(Quoted(head), Quoted(tail), "}");
  }

  lemma MistakenTail(first: string)
    ensures RequestTail(MistakenTarget(first)) == Quoted([first, ",", "type", ":", "add_rule"]) + "}"
  {
    var p := [first];
    assert p[1..] == [] && Quoted(p) == first + "\"";
    PushMember(p, ",", "type", "add_rule");
    assert p + [",", "type", ":", "add_rule"] == [first, ",", "type", ":", "add_rule"];
    assert Member("type", "add_rule") == "\"type\":\"add_rule" + "\"";
    assert MistakenTarget(first) + "\"" == (first + "\"") + "," + ("\"type\":\"add_rule" + "\"");
    assert RequestTail(MistakenTarget(first)) == MistakenTarget(first) + "\"" + "}";
  }

  lemma NoActionPiece(agent: string, capability: string, tail: seq<string>)
    requires QuoteFree(agent) && QuoteFree(capability) && AllQuoteFree(tail)
    requires agent != "action" && capability != "action" && "action" !in tail
    ensures var ps := HeadPieces(agent, capability) + tail;
            AllQuoteFree(ps) && forall j :: 1 <= j < |ps| ==> ps[j] != "action"
  {
    var head := HeadPieces(agent, capability);
    PiecesQuoteFree(agent, capability);
    assert forall j :: 1 <= j < |head| ==> head[j] != "action";
  }

  lemma NotRead(ps: seq<string>, key: string, last: string, room: nat)
    requires AllQuoteFree(ps) && QuoteFree(last) && QuoteFree(key) && forall j :: 1 <= j < |ps| ==> ps[j] != key
    ensures EscapedField(Quoted(ps) + last, key, room) == ""
  {
    Mentioned(ps, key, last);
  }

  lemma NoActionRead(agent: string, capability: string, first: string)
    requires QuoteFree(agent) && QuoteFree(capability) && QuoteFree(first)
    requires agent != "action" && capability != "action" && first != "action"
    ensures ActionRead(agent, capability, MistakenTarget(first)) == ""
  {
    var tail := [first, ",", "type", ":", "add_rule"];
    MistakenRequestPieces(agent, capability, first);
    NoActionPiece(agent, capability, tail);
    NotRead(HeadPieces(agent, capability) + tail, "action", "}", 255);
  }

  /** As when nothing is allowed: after such a question the same agent is allowed that capability. */
  lemma AskedThenAllowed(agent: string, capability: string, first: string, files: seq<PolicyRule>, fnmatch: Fnmatch)
    requires Sendable(agent, capability, MistakenTarget(first)) && QuoteFree(first)
    requires '\\' !in agent && '\\' !in capability && agent != "action" && capability != "action" && first != "action"
    ensures Decision([], agent, capability, fnmatch).action == Deny
    ensures var after := EngineRules([], ClientRequest(agent, capability, MistakenTarget(first)), files);
            Decision(after, agent, capability, fnmatch).action == Allow
  {
    QuotedTargetMistaken(first);
    NoActionRead(agent, capability, first);
    MistakenDecidesExactly([], files, fnmatch, agent, capability, MistakenTarget(first));
    DecisionOfWinner([], agent, capability, fnmatch);
  }

  // ---- answers are C strings ----

  ghost predicate CleanRules(rules: seq<PolicyRule>) {
    forall r :: r in rules ==> NulFree(r.capability) && NulFree(r.agent) && NulFree(r.message)
  }

  lemma MemberClean(key: string, value: string)
    requires NulFree(key) && NulFree(value)
    ensures NulFree(Member(key, value)) && NulFree(Name(key))
  {
  }

  lemma OtherReplyClean(rest: string)
    requires NulFree(rest)
    ensures NulFree(OtherReply(rest))
  {
    MemberClean("type", "policy_response");
  }

  lemma TwoMembersClean(key: string, value: string, key2: string, value2: string)
    requires NulFree(key) && NulFree(value) && NulFree(key2) && NulFree(value2)
    ensures NulFree(OtherReply(Member(key, value)))
            && NulFree(OtherReply(Member(key, value) + "," + Member(key2, value2)))
  {
    MemberClean(key, value);
    MemberClean(key2, value2);
    OtherReplyClean(Member(key, value));
    OtherReplyClean(Member(key, value) + "," + Member(key2, value2));
  }

  lemma ReplyClean(id: string, resp: Response)
    requires NulFree(id) && NulFree(resp.reason) && NulFree(resp.matchedRule)
    ensures NulFree(ServerReply(id, resp))
  {
    MemberClean("type", "policy_response");
    MemberClean("action", ActionText(resp.action));
    MemberClean("matched_rule", resp.matchedRule);
    MemberClean("id", "");
    MemberClean("reason", "");
    TailClean(resp);
    assert NulFree(ReplyText(id, resp));
  }

  lemma TailClean(resp: Response)
    requires NulFree(resp.reason) && NulFree(resp.matchedRule)
    ensures NulFree(ReplyTail(resp))
  {
    MemberClean("matched_rule", resp.matchedRule);
  }

  lemma DecisionClean(rules: seq<PolicyRule>, agent: string, capability: string, fnmatch: Fnmatch)
    requires CleanRules(rules)
    ensures var d := Decision(rules, agent, capability, fnmatch); NulFree(d.reason) && NulFree(d.matchedRule)
  {
    var best := FirstBest(Keys(rules, agent, capability, fnmatch), -1.0);
    if best.Some? {
      var r := rules[best.value];
      assert r in rules;
      assert NulFree("cap=" + r.capability + " agent=" + r.agent);
    }
  }

  lemma {:induction false} ReadItemWithin(s: string, room: nat)
    ensures forall c :: c in ReadItem(s, room).0 ==> c in s
    decreases |s|
  {
    if s != "" && room > 0 {
      ReadItemWithin(s[1..], room - 1);
      if |s| > 1 {
        ReadItemWithin(s[2..], room - 1);
      }
    }
  }

  lemma EscapedFieldClean(raw: CString, key: string, room: nat)
    ensures NulFree(EscapedField(raw, key, room))
  {
    var v := ValueStart(raw, key);
    if v.Some? {
      var at := StrStr(raw, Name(key)).value;
      var from := raw[at + StrChr(raw[at..], ':').value..];
      SkipToQuoteWithin(from);
      assert NulFree(from) && NulFree(SkipToQuote(from)) && v.value == SkipToQuote(from)[1..];
      ReadItemWithin(v.value, room);
    }
  }

  lemma ParsedRuleClean(raw: CString)
    ensures var r := ParsedRule(raw);
            NulFree(r.capability) && NulFree(r.agent) && NulFree(r.message) && NulFree(RuleName(r))
  {
    EscapedFieldClean(raw, "capability", 255);
    EscapedFieldClean(raw, "agent", 255);
  }

  lemma PingClean()
    ensures NulFree(PingReply())
  {
    TwoMembersClean("status", "alive", "", "");
  }

  lemma VersionClean()
    ensures NulFree(VersionReply())
  {
    TwoMembersClean("version", "0.1.0", "component", "ai-policy-engine");
  }

  lemma ReloadedClean()
    ensures NulFree(ReloadedReply())
  {
    TwoMembersClean("status", "reloaded", "", "");
  }

  lemma UnknownClean()
    ensures NulFree(UnknownReply())
  {
    TwoMembersClean("status", "error", "message", "unknown message type");
  }

  lemma AddedClean(raw: CString)
    ensures NulFree(AddedReply(ParsedRule(raw)))
  {
    ParsedRuleClean(raw);
    TwoMembersClean("status", "rule_added", "rule", RuleName(ParsedRule(raw)));
  }

  /** With rules free of NUL the answer to every message is a C string. */
  lemma EngineReplyClean(rules: seq<PolicyRule>, fnmatch: Fnmatch, raw: CString, id: string)
    requires CleanRules(rules) && NulFree(id)
    ensures NulFree(EngineReply(rules, fnmatch, raw, id))
  {
    var req := ParsedRequest(raw);
    PingClean();
    VersionClean();
    ReloadedClean();
    UnknownClean();
    AddedClean(raw);
    DecisionClean(rules, req.agent, req.capability, fnmatch);
    ReplyClean(id, Decision(rules, req.agent, req.capability, fnmatch));
  }

  lemma EngineRulesClean(rules: seq<PolicyRule>, raw: CString, files: seq<PolicyRule>)
    requires CleanRules(rules) && CleanRules(files)
    ensures CleanRules(EngineRules(rules, raw, files))
  {
    ParsedRuleClean(raw);
    AppendAllTakesWhatFits([], files, MAX_POLICIES);
  }

  lemma RequestClean(agent: CString, capability: CString, target: CString)
    ensures NulFree(ClientRequest(agent, capability, target))
  {
    MemberClean("type", "policy_check");
    MemberClean("id", "");
    MemberClean("agent", agent);
    MemberClean("capability", capability);
    MemberClean("target", target);
    assert NulFree(RequestText(agent, capability, target));
  }
}
