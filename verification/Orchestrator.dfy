/** The orchestrator's message handler: resolve, find an agent, ask the policy engine, dispatch, reply
    (components/orchestrator/main.c). */
module Orchestrator {
  import opened CStrings
  import opened Registry
  import opened Registration
  import AgentMessages
  import Json
  import Fields
  import Policy
  import PolicyRequest
  import PolicyReply
  import PolicyWire

  datatype Message =
    | Invalid
    | Ping
    | Request(id: nat, query: string)
    | Register(data: CString)

  /** What the intent's 128-byte target field can hold. */
  type TargetText = s: CString | |s| <= 127

  datatype Intent = Intent(capability: CString, target: TargetText)

  datatype Status = Success | Failure

  datatype Reply = Alive | Response(id: nat, status: Status, payload: string)

  /** What the policy engine does with a check: there may be no client, no answer, or a reply text. */
  datatype PolicyOutcome = NoClient | Unreachable | Replied(text: CString)

  /** The other processes: three resolvers in order (absent or failing: None), the policy engine asked
      about an agent, a capability and a target, and the agent a request is dispatched to. */
  datatype World = World(rules: string -> Option<Intent>,
                         router: string -> Option<Intent>,
                         classifier: string -> Option<Intent>,
                         policy: (string, string, string) -> PolicyOutcome,
                         agentClient: bool, perform: (Agent, string) -> (Status, string))

  /** A task sent to an agent: the capability named in the message, and the intent it was resolved to. */
  datatype Dispatch = Dispatch(agent: Agent, id: nat, query: string, sent: string, intent: Intent)

  datatype State = State(agents: seq<Agent>, sent: seq<Reply>, dispatched: seq<Dispatch>)

  // ---- what the handler does ----

  /** The first resolver that knows the query, in this order. */
  function Resolve(w: World, query: string): (r: Option<Intent>)
    ensures w.rules(query).Some? ==> r == w.rules(query)
    ensures w.rules(query).None? && w.router(query).Some? ==> r == w.router(query)
    ensures w.rules(query).None? && w.router(query).None? ==> r == w.classifier(query)
  {
    if w.rules(query).Some? then w.rules(query)
    else if w.router(query).Some? then w.router(query)
    else w.classifier(query)
  }

  /** An unreachable policy engine does not stop the request. */
  predicate Permitted(outcome: PolicyOutcome) {
    outcome.Replied? ==> PolicyReply.ClientAllows(outcome.text)
  }

  function DeniedPayload(text: string): string {
    var reason := PolicyReply.ClientReason(text);
    "policy denied: " + if reason != "" then reason else "action not permitted"
  }

  function HandleRequest(w: World, s: State, id: nat, query: string): State {
    var intent := Resolve(w, query);
    if intent.None? then s.(sent := s.sent + [Response(id, Success, "no intent matched for query")])
    else
      var agent := FindByCapability(s.agents, intent.value.capability);
      if agent.None? then
        s.(sent := s.sent + [Response(id, Failure, "no agent for capability '" + intent.value.capability + "'")])
      else
        var outcome := w.policy(agent.value.name, intent.value.capability, intent.value.target);
        if !Permitted(outcome) then s.(sent := s.sent + [Response(id, Failure, DeniedPayload(outcome.text))])
        else if !w.agentClient then
          s.(sent := s.sent + [Response(id, Success, "routed to " + agent.value.name + " (no agent client)")])
        else if agent.value.socket == "" then
          s.(sent := s.sent + [Response(id, Failure, "agent " + agent.value.name + " has no socket path")])
        else
          var done := w.perform(agent.value, query);
          s.(sent := s.sent + [Response(id, done.0, done.1)],
             dispatched := s.dispatched + [Dispatch(agent.value, id, query, FirstCapability(agent.value),
                                                    intent.value)])
  }

  /** The capability named in the message to an agent. */
  function FirstCapability(a: Agent): string {
    if a.capabilities == [] then "" else a.capabilities[0]
  }

  function HandleRegister(s: State, data: string, now: int, text: string): State {
    var a := AgentOf(data, now);
    if a.name == "" then s.(sent := s.sent + [Response(0, Failure, "invalid registration")])
    else State(Registered(s.agents, a, now), s.sent + [Response(0, Success, text)], s.dispatched)
  }

  /** `text` is the wording of a registration's reply, which is success even when the registry is full. */
  function Handle(w: World, s: State, m: Message, now: int, text: string): State {
    match m
    case Invalid => s.(sent := s.sent + [Response(0, Failure, "invalid message format")])
    case Ping => s.(sent := s.sent + [Alive])
    case Request(id, query) => HandleRequest(w, s, id, query)
    case Register(data) => HandleRegister(s, data, now, text)
  }

  // ---- the process ----

  class OrchestratorProcess {
    const registry: AgentRegistry
    var sent: seq<Reply>
    var dispatched: seq<Dispatch>

    ghost predicate Valid()
      reads this, registry, registry.agents
    {
      registry.Valid()
    }

    ghost function Now(): State
      requires Valid()
      reads this, registry, registry.agents
    {
      State(registry.Contents(), sent, dispatched)
    }

    constructor ()
      ensures Valid() && Now() == State([], [], [])
    {
      registry := new AgentRegistry();
      sent, dispatched := [], [];
    }

    method Send(r: Reply)
      modifies `sent
      ensures sent == old(sent) + [r]
    {
      sent := sent + [r];
    }

    method OnRequest(w: World, id: nat, query: string)
      requires Valid()
      modifies this
      ensures Valid() && Now() == HandleRequest(w, old(Now()), id, query)
    {
      var intent := w.rules(query);
      var resolved := intent.Some?;
      if !resolved {
        intent := w.router(query);
        resolved := intent.Some?;
      }
      if !resolved {
        intent := w.classifier(query);
        resolved := intent.Some?;
      }
      if !resolved {
        Send(Response(id, Success, "no intent matched for query"));
        return;
      }
      var agent := registry.Find(intent.value.capability);
      if agent.None? {
        Send(Response(id, Failure, "no agent for capability '" + intent.value.capability + "'"));
        return;
      }
      var outcome := w.policy(agent.value.name, intent.value.capability, intent.value.target);
      if outcome.Replied? {
        var allowed, reason := PolicyReply.ReadReply(outcome.text);
        if !allowed {
          Send(Response(id, Failure, "policy denied: " + if reason != "" then reason else "action not permitted"));
          return;
        }
      }
      if w.agentClient {
        SendTask(w, agent.value, id, query, intent.value);
      } else {
        Send(Response(id, Success, "routed to " + agent.value.name + " (no agent client)"));
      }
    }

    method SendTask(w: World, agent: Agent, id: nat, query: string, intent: Intent)
      modifies `sent, `dispatched
      ensures if agent.socket == "" then
                sent == old(sent) + [Response(id, Failure, "agent " + agent.name + " has no socket path")]
                && dispatched == old(dispatched)
              else
                sent == old(sent) + [Response(id, w.perform(agent, query).0, w.perform(agent, query).1)]
                && dispatched == old(dispatched) + [Dispatch(agent, id, query, FirstCapability(agent), intent)]
    {
      if agent.socket == "" {
        Send(Response(id, Failure, "agent " + agent.name + " has no socket path"));
        return;
      }
      var done := w.perform(agent, query);
      dispatched := dispatched + [Dispatch(agent, id, query, FirstCapability(agent), intent)];
      Send(Response(id, done.0, done.1));
    }

    method OnMessage(w: World, m: Message, now: int, text: string)
      requires Valid()
      modifies this, registry, registry.agents
      ensures Valid() && Now() == Handle(w, old(Now()), m, now, text)
    {
      match m {
        case Invalid => Send(Response(0, Failure, "invalid message format"));
        case Ping => Send(Alive);
        case Request(id, query) => OnRequest(w, id, query);
        case Register(data) =>
          var a := ReadAgent(data, now);
          if a.name != "" {
            var ok := registry.Register(a, now);
            Send(Response(0, Success, text));
          } else {
            Send(Response(0, Failure, "invalid registration"));
          }
      }
    }
  }

  /** A message as its text says; `id` is the number read from it. */
  function MessageOf(raw: CString, id: nat): Message {
    match KindOf(raw)
    case Ping => Message.Ping
    case Request => Message.Request(id, QueryOf(raw))
    case Registration => Message.Register(raw)
    case Unknown => Message.Invalid
  }

  method ReadMessage(raw: CString, id: nat) returns (m: Message)
    ensures m == MessageOf(raw, id)
  {
    if StrStr(raw, Json.Member("type", "ping")).Some? { return Message.Ping; }
    if StrStr(raw, Json.Member("type", "request")).Some? || StrStr(raw, Json.Name("query")).Some? {
      var query := Fields.ReadEscapedField(raw, "query", MAX_MESSAGE_SIZE - 1);
      return Message.Request(id, query);
    }
    if StrStr(raw, Json.Member("type", "register")).Some? { return Message.Register(raw); }
    return Message.Invalid;
  }

  // ---- over every message sequence ----

  /** A message with the world it meets, its time and its registration wording. */
  datatype Event = Event(message: Message, world: World, now: int, text: string)

  function Run(events: seq<Event>): State {
    if events == [] then State([], [], [])
    else
      var e := events[|events| - 1];
      Handle(e.world, Run(events[..|events| - 1]), e.message, e.now, e.text)
  }

  ghost predicate Answers(e: Event, r: Reply) {
    e.message.Request? ==> r.Response? && r.id == e.message.id
  }

  ghost predicate AllAnswered(events: seq<Event>, sent: seq<Reply>) {
    |sent| == |events| && forall i :: 0 <= i < |events| ==> Answers(events[i], sent[i])
  }

  lemma AnswersOnce(e: Event, s: State) returns (r: Reply)
    ensures Handle(e.world, s, e.message, e.now, e.text).sent == s.sent + [r] && Answers(e, r)
  {
    var after := Handle(e.world, s, e.message, e.now, e.text);
    r := after.sent[|s.sent|];
  }

  lemma AnsweredPush(events: seq<Event>, sent: seq<Reply>, e: Event, r: Reply)
    requires AllAnswered(events, sent) && Answers(e, r)
    ensures AllAnswered(events + [e], sent + [r])
  {
  }

  /** Every message gets exactly one reply, in order, and a request's reply bears its id. */
  lemma {:induction false} EveryMessageAnsweredOnce(events: seq<Event>)
    ensures AllAnswered(events, Run(events).sent)
  {
    if events != [] {
      var front, last := events[..|events| - 1], events[|events| - 1];
      EveryMessageAnsweredOnce(front);
      var r := AnswersOnce(last, Run(front));
      AnsweredPush(front, Run(front).sent, last, r);
      assert events == front + [last];
    }
  }

  ghost predicate AllReadable(agents: seq<Agent>) {
    forall a :: a in agents ==> Readable(a)
  }

  lemma RegisterKeepsReadable(agents: seq<Agent>, data: CString, now: int)
    requires AllReadable(agents)
    ensures AllReadable(Registered(agents, AgentOf(data, now), now))
  {
    AgentIsReadable(data, now);
    var after := Registered(agents, AgentOf(data, now), now);
    forall a | a in after
      ensures Readable(a)
    {
      assert a in agents || a == Online(AgentOf(data, now), now);
    }
  }

  lemma HandleKeepsAgents(e: Event, s: State)
    requires Sound(s.agents) && AllReadable(s.agents)
    ensures var after := Handle(e.world, s, e.message, e.now, e.text).agents; Sound(after) && AllReadable(after)
  {
    AgentsAfter(e.world, s, e.message, e.now, e.text);
    if e.message.Register? {
      RegisterRefines(s.agents, AgentOf(e.message.data, e.now), e.now);
      RegisterKeepsReadable(s.agents, e.message.data, e.now);
    }
  }

  /** Only a registration that names an agent changes the registry. */
  lemma AgentsAfter(w: World, s: State, m: Message, now: int, text: string)
    ensures Handle(w, s, m, now, text).agents ==
              if m.Register? && AgentOf(m.data, now).name != "" then Registered(s.agents, AgentOf(m.data, now), now)
              else s.agents
  {
  }

  /** Over every message sequence the agents held are alive, uniquely named and at most 64, and their texts hold no
      quote and fit their fields. */
  lemma {:induction false} RegistryStaysSound(events: seq<Event>)
    ensures Sound(Run(events).agents) && AllReadable(Run(events).agents)
  {
    if events != [] {
      RegistryStaysSound(events[..|events| - 1]);
      HandleKeepsAgents(events[|events| - 1], Run(events[..|events| - 1]));
    }
  }

  /** What a message printed by the SDK does: the agent is then held with these texts, unless it is new and the registry
      is full. */
  lemma RegistrationTakesEffect(w: World, s: State, name: string, version: string, caps: seq<string>, id: nat,
                                now: int, text: string)
    requires Sound(s.agents) && name != "" && Registrable(name, version, caps) && NulFree(Printed(name, version, caps))
    requires !Mentions(name, version, caps, "query") && ListFound(name, version)
    requires name in Directory(s.agents) || |s.agents| < MAX_AGENTS
    ensures var held := Directory(Handle(w, s, MessageOf(Printed(name, version, caps), id), now, text).agents);
            name in held && held[name].version == version && held[name].capabilities == caps && held[name].alive
  {
    var raw := Printed(name, version, caps);
    RegistrationArrives(name, version, caps, now);
    assert MessageOf(raw, id) == Message.Register(raw);
    HeldOnceRegistered(w, s, raw, now, text);
  }

  /** So does what a bundled agent prints, and that agent has a socket to be dispatched to. */
  lemma AnnouncementTakesEffect(w: World, s: State, name: string, version: string, socket: string, caps: seq<string>,
                                id: nat, now: int, text: string)
    requires Sound(s.agents) && name != "" && AgentMessages.Announceable(name, version, socket, caps)
    requires NulFree(AgentMessages.Announced(name, version, socket, caps))
    requires !AgentMessages.Announces(name, version, socket, caps, "query")
    requires name != "socket" && AgentMessages.ListMet(name, version, socket)
    requires name in Directory(s.agents) || |s.agents| < MAX_AGENTS
    ensures var message := MessageOf(AgentMessages.Announced(name, version, socket, caps), id);
            var held := Directory(Handle(w, s, message, now, text).agents);
            name in held && held[name] == Agent(name, version, socket, caps, true, now)
  {
    var raw := AgentMessages.Announced(name, version, socket, caps);
    AgentMessages.AnnouncementKind(name, version, socket, caps);
    AgentMessages.AnnouncementArrives(name, version, socket, caps, now);
    assert MessageOf(raw, id) == Message.Register(raw);
    HeldOnceRegistered(w, s, raw, now, text);
  }

  lemma HeldOnceRegistered(w: World, s: State, data: CString, now: int, text: string)
    requires Sound(s.agents) && AgentOf(data, now).name != ""
    requires AgentOf(data, now).name in Directory(s.agents) || |s.agents| < MAX_AGENTS
    ensures var a := AgentOf(data, now);
            var held := Directory(Handle(w, s, Message.Register(data), now, text).agents);
            a.name in held && held[a.name] == Online(a, now)
  {
    AgentsAfter(w, s, Message.Register(data), now, text);
    RegisterRefines(s.agents, AgentOf(data, now), now);
  }

  /** Request k was resolved to this intent, the agent was then registered under a unique name, alive, reachable and
      offering the capability, and the policy engine, if it replied, replied allow. */
  ghost predicate Justified(events: seq<Event>, d: Dispatch, k: nat)
    requires k < |events|
  {
    var e := events[k];
    var agents := Run(events[..k]).agents;
    && e.message.Request? && e.message.id == d.id && e.message.query == d.query
    && Resolve(e.world, d.query) == Some(d.intent)
    && Sound(agents) && Readable(d.agent)
    && d.agent.name in Directory(agents) && Directory(agents)[d.agent.name] == d.agent
    && d.agent.alive && d.intent.capability in d.agent.capabilities && d.agent.socket != ""
    && Permitted(e.world.policy(d.agent.name, d.intent.capability, d.intent.target))
  }

  lemma DispatchFacts(w: World, s: State, id: nat, query: string) returns (d: Dispatch)
    requires Sound(s.agents) && AllReadable(s.agents) && HandleRequest(w, s, id, query).dispatched != s.dispatched
    ensures HandleRequest(w, s, id, query).dispatched == s.dispatched + [d]
    ensures d.id == id && d.query == query && Resolve(w, query) == Some(d.intent) && Readable(d.agent)
    ensures d.agent.name in Directory(s.agents) && Directory(s.agents)[d.agent.name] == d.agent
    ensures d.agent.alive && d.intent.capability in d.agent.capabilities && d.agent.socket != ""
    ensures Permitted(w.policy(d.agent.name, d.intent.capability, d.intent.target))
  {
    var intent := Resolve(w, query).value;
    FoundAgentOffers(s.agents, intent.capability);
    var agent := FindByCapability(s.agents, intent.capability).value;
    assert agent in s.agents;
    d := Dispatch(agent, id, query, FirstCapability(agent), intent);
  }

  lemma NewDispatchJustified(events: seq<Event>, k: nat)
    requires k < |events|
    requires var before, after := Run(events[..k]), Run(events[..k + 1]);
             after.dispatched != before.dispatched
    ensures var before, after := Run(events[..k]), Run(events[..k + 1]);
            exists d :: after.dispatched == before.dispatched + [d] && Justified(events, d, k)
  {
    var e, before := events[k], Run(events[..k]);
    assert events[..k + 1][..k] == events[..k];
    RegistryStaysSound(events[..k]);
    var d := DispatchFacts(e.world, before, e.message.id, e.message.query);
    assert Justified(events, d, k);
  }

  /** Every dispatch of a run was justified when it was made. */
  lemma {:induction false} EveryDispatchJustified(events: seq<Event>, n: nat, i: nat)
    requires n <= |events| && i < |Run(events[..n]).dispatched|
    ensures exists k: nat :: k < n && Justified(events, Run(events[..n]).dispatched[i], k)
    decreases n
  {
    var k := n - 1;
    var before, after := Run(events[..k]), Run(events[..n]);
    if after.dispatched != before.dispatched {
      NewDispatchJustified(events, k);
      var d :| after.dispatched == before.dispatched + [d] && Justified(events, d, k);
      if i == |before.dispatched| {
        assert Justified(events, after.dispatched[i], k);
        return;
      }
    }
    EveryDispatchJustified(events, k, i);
    assert after.dispatched[i] == before.dispatched[i];
    var j: nat :| j < k && Justified(events, before.dispatched[i], j);
  }

  // ---- the capability that is sent ----

  lemma RequestSendsFirst(w: World, s: State, id: nat, query: string)
    ensures var after := HandleRequest(w, s, id, query).dispatched;
            after == s.dispatched || (after == s.dispatched + [after[|s.dispatched|]]
              && after[|s.dispatched|].sent == FirstCapability(after[|s.dispatched|].agent))
  {
  }

  lemma {:induction false} EveryDispatchSendsFirst(events: seq<Event>, i: nat)
    requires i < |Run(events).dispatched|
    ensures var d := Run(events).dispatched[i]; d.sent == FirstCapability(d.agent)
  {
    var n := |events| - 1;
    var before, e := Run(events[..n]), events[n];
    if i < |before.dispatched| {
      EveryDispatchSendsFirst(events[..n], i);
    }
    if e.message.Request? {
      RequestSendsFirst(e.world, before, e.message.id, e.message.query);
    }
  }

  /** The capability sent is the one the request was resolved to, and the policy asked about, exactly when it is the
      first the agent offers. */
  lemma SentCapabilityExactly(events: seq<Event>, i: nat)
    requires i < |Run(events).dispatched|
    ensures var d := Run(events).dispatched[i];
            && d.agent.capabilities != []
            && (d.sent == d.intent.capability <==> d.agent.capabilities[0] == d.intent.capability)
  {
    assert events[..|events|] == events;
    EveryDispatchJustified(events, |events|, i);
    EveryDispatchSendsFirst(events, i);
  }

  /** A request for the second capability of an agent is sent as one for its first. */
  lemma OtherCapabilitySent(w: World, query: string)
    requires Resolve(w, query) == Some(Intent("close", "")) && w.agentClient && w.policy("desk", "close", "").NoClient?
    ensures var agent := Agent("desk", "1", "/run/desk", ["open", "close"], true, 0);
            HandleRequest(w, State([agent], [], []), 1, query).dispatched
              == [Dispatch(agent, 1, query, "open", Intent("close", ""))]
  {
    var agents := [Agent("desk", "1", "/run/desk", ["open", "close"], true, 0)];
    assert "close" in agents[0].capabilities;
    assert Offers("close")(agents[0]);
  }

  // ---- with the policy engine answering ----

  /** In this world the policy engine, running these rules, answers the question about this agent and intent. */
  ghost predicate EngineAnswers(w: World, rules: seq<Policy.PolicyRule>, fnmatch: Policy.Fnmatch, id: string,
                                agent: Agent, intent: Intent)
  {
    var outcome := w.policy(agent.name, intent.capability, intent.target);
    outcome.Replied? && outcome.text == PolicyWire.EngineReply(rules, fnmatch, QuestionText(agent, intent), id)
  }

  /** The question asked about an agent and an intent. */
  function QuestionText(agent: Agent, intent: Intent): string {
    PolicyRequest.ClientRequest(agent.name, intent.capability, intent.target)
  }

  /** The same world with such an engine in it. */
  function WithEngine(w: World, rules: seq<Policy.PolicyRule>, fnmatch: Policy.Fnmatch, id: string): World {
    w.(policy := (agent: string, capability: string, target: string) =>
      var reply := PolicyWire.EngineReply(rules, fnmatch, PolicyRequest.ClientRequest(agent, capability, target), id);
      if NulFree(reply) then Replied(reply) else Unreachable)
  }

  /** With rules free of NUL it answers every question about an agent that a registration can have brought in. */
  lemma WithEngineAnswers(w: World, rules: seq<Policy.PolicyRule>, fnmatch: Policy.Fnmatch, id: string,
                          agent: Agent, intent: Intent)
    requires PolicyWire.CleanRules(rules) && NulFree(id) && Readable(agent)
    ensures EngineAnswers(WithEngine(w, rules, fnmatch, id), rules, fnmatch, id, agent, intent)
  {
    PolicyWire.RequestClean(agent.name, intent.capability, intent.target);
    PolicyWire.EngineReplyClean(rules, fnmatch, QuestionText(agent, intent), id);
  }

  /** What the policy engine lets through, whatever the target. */
  lemma PermittedExactly(w: World, agent: Agent, intent: Intent, rules: seq<Policy.PolicyRule>,
                         fnmatch: Policy.Fnmatch, id: string)
    requires EngineAnswers(w, rules, fnmatch, id, agent, intent) && QuoteFree(id) && |id| <= 20
    requires Readable(agent) && intent.capability in agent.capabilities
    ensures Permitted(w.policy(agent.name, intent.capability, intent.target)) <==>
              && PolicyRequest.TypeByTarget(intent.target) == PolicyRequest.PolicyCheck
              && Policy.Decision(rules, agent.name, intent.capability, fnmatch).action == Policy.Allow
  {
    PolicyWire.DecisionSurvivesBothMessages(rules, fnmatch, agent.name, intent.capability, intent.target, id);
  }

  /** End to end: with the policy engine answering, nothing is dispatched that its rules do not allow. */
  lemma DispatchNeedsAllow(events: seq<Event>, d: Dispatch, k: nat, rules: seq<Policy.PolicyRule>,
                           fnmatch: Policy.Fnmatch, id: string)
    requires k < |events| && Justified(events, d, k)
    requires EngineAnswers(events[k].world, rules, fnmatch, id, d.agent, d.intent) && QuoteFree(id) && |id| <= 20
    ensures Policy.Decision(rules, d.agent.name, d.intent.capability, fnmatch).action == Policy.Allow
    ensures PolicyRequest.TypeByTarget(d.intent.target) == PolicyRequest.PolicyCheck
  {
    PermittedExactly(events[k].world, d.agent, d.intent, rules, fnmatch, id);
  }

  /** And a resolved request for a reachable agent is dispatched exactly when the engine's rules allow it and the target
      leaves the question a policy check. */
  lemma DispatchedExactly(w: World, s: State, id: nat, query: string, agent: Agent, intent: Intent,
                          rules: seq<Policy.PolicyRule>, fnmatch: Policy.Fnmatch, digits: string)
    requires Sound(s.agents) && AllReadable(s.agents) && w.agentClient && QuoteFree(digits) && |digits| <= 20
    requires Resolve(w, query) == Some(intent) && FindByCapability(s.agents, intent.capability) == Some(agent)
    requires agent.socket != "" && EngineAnswers(w, rules, fnmatch, digits, agent, intent)
    ensures HandleRequest(w, s, id, query).dispatched != s.dispatched <==>
              && PolicyRequest.TypeByTarget(intent.target) == PolicyRequest.PolicyCheck
              && Policy.Decision(rules, agent.name, intent.capability, fnmatch).action == Policy.Allow
  {
    FoundAgentOffers(s.agents, intent.capability);
    assert agent in s.agents;
    PermittedExactly(w, agent, intent, rules, fnmatch, digits);
    assert |s.dispatched + [Dispatch(agent, id, query, FirstCapability(agent), intent)]| > |s.dispatched|;
  }
}
