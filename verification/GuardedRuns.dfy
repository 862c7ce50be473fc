/** The orchestrator and the policy engine running together: each question the orchestrator asks is answered by the
    engine's rules of the moment, and may change them (components/orchestrator/main.c,
    components/policy-engine/main.c). */
module GuardedRuns {
  import opened CStrings
  import opened Policy
  import opened PolicyRequest
  import opened PolicyWire
  import opened Registry
  import AgentMessages
  import Register
  import opened Registration
  import opened Orchestrator

  datatype System = System(orchestrator: State, rules: seq<PolicyRule>)

  /** A message to the orchestrator, or one that somebody else sends to the engine; `files` are the rules a reload
      would find at that time. */
  datatype Input = Inbox(event: Event, files: seq<PolicyRule>) | ToEngine(raw: CString, files: seq<PolicyRule>)

  /** The agent and the intent that handling a message asks the engine about. */
  function Question(w: World, s: State, m: Message): Option<(Agent, Intent)> {
    if !m.Request? then None
    else
      var intent := Resolve(w, m.query);
      if intent.None? then None
      else
        var agent := FindByCapability(s.agents, intent.value.capability);
        if agent.None? then None else Some((agent.value, intent.value))
  }

  function Asked(q: Option<(Agent, Intent)>, rules: seq<PolicyRule>, files: seq<PolicyRule>): seq<PolicyRule> {
    if q.None? then rules else EngineRules(rules, QuestionText(q.value.0, q.value.1), files)
  }

  function Step(fnmatch: Fnmatch, id: string, s: System, input: Input): System {
    match input
    case Inbox(e, files) =>
      var w := WithEngine(e.world, s.rules, fnmatch, id);
      System(Handle(w, s.orchestrator, e.message, e.now, e.text),
             Asked(Question(e.world, s.orchestrator, e.message), s.rules, files))
    case ToEngine(raw, files) => s.(rules := EngineRules(s.rules, raw, files))
  }

  function Start(rules: seq<PolicyRule>): System {
    System(State([], [], []), rules)
  }

  function Run(fnmatch: Fnmatch, id: string, rules: seq<PolicyRule>, inputs: seq<Input>): System {
    if inputs == [] then Start(rules)
    else Step(fnmatch, id, Run(fnmatch, id, rules, inputs[..|inputs| - 1]), inputs[|inputs| - 1])
  }

  /** No rule read from a file holds a NUL, and the question's id is printed digits. */
  ghost predicate ProperRun(id: string, rules: seq<PolicyRule>, inputs: seq<Input>) {
    && NulFree(id) && QuoteFree(id) && |id| <= 20 && CleanRules(rules)
    && forall i :: 0 <= i < |inputs| ==> CleanRules(inputs[i].files)
  }

  ghost predicate Proper(s: System) {
    Sound(s.orchestrator.agents) && AllReadable(s.orchestrator.agents) && CleanRules(s.rules)
  }

  // ---- what every step keeps ----

  lemma AskedKeepsClean(w: World, s: System, m: Message, files: seq<PolicyRule>)
    requires Proper(s) && CleanRules(files)
    ensures CleanRules(Asked(Question(w, s.orchestrator, m), s.rules, files))
  {
    var q := Question(w, s.orchestrator, m);
    if q.Some? {
      QuestionIsReadable(w, s, m);
      RequestClean(q.value.0.name, q.value.1.capability, q.value.1.target);
      EngineRulesClean(s.rules, QuestionText(q.value.0, q.value.1), files);
    }
  }

  lemma QuestionIsReadable(w: World, s: System, m: Message)
    requires Proper(s) && Question(w, s.orchestrator, m).Some?
    ensures var (agent, intent) := Question(w, s.orchestrator, m).value;
            Readable(agent) && intent.capability in agent.capabilities
  {
    var intent := Resolve(w, m.query).value;
    FoundAgentOffers(s.orchestrator.agents, intent.capability);
    assert FindByCapability(s.orchestrator.agents, intent.capability).value in s.orchestrator.agents;
  }

  lemma StepKeepsProper(fnmatch: Fnmatch, id: string, s: System, input: Input)
    requires Proper(s) && CleanRules(input.files)
    ensures Proper(Step(fnmatch, id, s, input))
  {
    match input {
      case Inbox(e, files) =>
        HandleKeepsAgents(e.(world := WithEngine(e.world, s.rules, fnmatch, id)), s.orchestrator);
        AskedKeepsClean(e.world, s, e.message, files);
      case ToEngine(raw, files) => EngineRulesClean(s.rules, raw, files);
    }
  }

  lemma {:induction false} RunIsProper(fnmatch: Fnmatch, id: string, rules: seq<PolicyRule>, inputs: seq<Input>)
    requires ProperRun(id, rules, inputs)
    ensures Proper(Run(fnmatch, id, rules, inputs))
  {
    if inputs != [] {
      RunIsProper(fnmatch, id, rules, inputs[..|inputs| - 1]);
      StepKeepsProper(fnmatch, id, Run(fnmatch, id, rules, inputs[..|inputs| - 1]), inputs[|inputs| - 1]);
    }
  }

  // ---- every dispatch was allowed by the rules of the moment ----

  /** These rules allow this dispatch. */
  ghost predicate AllowedBy(d: Dispatch, rules: seq<PolicyRule>, fnmatch: Fnmatch) {
    Decision(rules, d.agent.name, d.intent.capability, fnmatch).action == Allow
  }

  /** At most one more dispatch, which these rules allow. */
  ghost predicate OneMoreAllowed(before: seq<Dispatch>, after: seq<Dispatch>, rules: seq<PolicyRule>,
                                 fnmatch: Fnmatch)
  {
    after == before || exists d :: after == before + [d] && AllowedBy(d, rules, fnmatch)
  }

  lemma DispatchIsAllowed(fnmatch: Fnmatch, id: string, s: System, input: Input)
    requires Proper(s) && NulFree(id) && QuoteFree(id) && |id| <= 20
    ensures OneMoreAllowed(s.orchestrator.dispatched, Step(fnmatch, id, s, input).orchestrator.dispatched,
                           s.rules, fnmatch)
  {
    if input.Inbox? {
      HandlingIsAllowed(fnmatch, id, s, input.event);
    }
  }

  lemma OthersDispatchNothing(w: World, s: State, m: Message, now: int, text: string)
    requires !m.Request?
    ensures Handle(w, s, m, now, text).dispatched == s.dispatched
  {
  }

  lemma HandlingIsAllowed(fnmatch: Fnmatch, id: string, s: System, e: Event)
    requires Proper(s) && NulFree(id) && QuoteFree(id) && |id| <= 20
    ensures var w := WithEngine(e.world, s.rules, fnmatch, id);
            OneMoreAllowed(s.orchestrator.dispatched, Handle(w, s.orchestrator, e.message, e.now, e.text).dispatched,
                           s.rules, fnmatch)
  {
    var w := WithEngine(e.world, s.rules, fnmatch, id);
    if e.message.Request? {
      RequestIsAllowed(w, e.world, fnmatch, id, s, e.message.id, e.message.query);
    } else {
      OthersDispatchNothing(w, s.orchestrator, e.message, e.now, e.text);
    }
  }

  lemma RequestIsAllowed(w: World, plain: World, fnmatch: Fnmatch, id: string, s: System, number: nat, query: string)
    requires Proper(s) && NulFree(id) && QuoteFree(id) && |id| <= 20 && w == WithEngine(plain, s.rules, fnmatch, id)
    ensures OneMoreAllowed(s.orchestrator.dispatched, HandleRequest(w, s.orchestrator, number, query).dispatched,
                           s.rules, fnmatch)
  {
    if HandleRequest(w, s.orchestrator, number, query).dispatched != s.orchestrator.dispatched {
      var d := DispatchFacts(w, s.orchestrator, number, query);
      WithEngineAnswers(plain, s.rules, fnmatch, id, d.agent, d.intent);
      PermittedExactly(w, d.agent, d.intent, s.rules, fnmatch, id);
      assert AllowedBy(d, s.rules, fnmatch);
    }
  }

  /** Over every run, with the rules changing as they may, each dispatch was allowed by the rules the engine held when
      the request was handled. */
  lemma {:induction false} EveryDispatchAllowed(fnmatch: Fnmatch, id: string, rules: seq<PolicyRule>,
                                                inputs: seq<Input>, i: nat)
    requires ProperRun(id, rules, inputs) && i < |Run(fnmatch, id, rules, inputs).orchestrator.dispatched|
    ensures exists k: nat :: k < |inputs|
              && AllowedBy(Run(fnmatch, id, rules, inputs).orchestrator.dispatched[i],
                           Run(fnmatch, id, rules, inputs[..k]).rules, fnmatch)
  {
    var n := |inputs| - 1;
    var before, after := Run(fnmatch, id, rules, inputs[..n]), Run(fnmatch, id, rules, inputs);
    RunIsProper(fnmatch, id, rules, inputs[..n]);
    DispatchIsAllowed(fnmatch, id, before, inputs[n]);
    if i < |before.orchestrator.dispatched| {
      EveryDispatchAllowed(fnmatch, id, rules, inputs[..n], i);
      var k: nat :| k < n && AllowedBy(before.orchestrator.dispatched[i],
                                       Run(fnmatch, id, rules, inputs[..n][..k]).rules, fnmatch);
      assert inputs[..n][..k] == inputs[..k];
    }
  }

  /** And a request for a reachable agent is dispatched exactly when the rules of the moment allow it and its target
      leaves the question a policy check. */
  lemma DispatchedByRules(fnmatch: Fnmatch, id: string, s: System, e: Event, files: seq<PolicyRule>,
                          agent: Agent, intent: Intent)
    requires Proper(s) && NulFree(id) && QuoteFree(id) && |id| <= 20 && e.message.Request? && e.world.agentClient
    requires Question(e.world, s.orchestrator, e.message) == Some((agent, intent)) && agent.socket != ""
    ensures var after := Step(fnmatch, id, s, Inbox(e, files)).orchestrator.dispatched;
            after != s.orchestrator.dispatched <==>
              && TypeByTarget(intent.target) == PolicyCheck
              && Decision(s.rules, agent.name, intent.capability, fnmatch).action == Allow
  {
    QuestionIsReadable(e.world, s, e.message);
    RequestByRules(fnmatch, id, s, e.world, e.message.id, e.message.query, agent, intent);
  }

  lemma RequestByRules(fnmatch: Fnmatch, id: string, s: System, plain: World, number: nat, query: string,
                       agent: Agent, intent: Intent)
    requires Proper(s) && NulFree(id) && QuoteFree(id) && |id| <= 20 && plain.agentClient
    requires Resolve(plain, query) == Some(intent)
    requires FindByCapability(s.orchestrator.agents, intent.capability) == Some(agent)
    requires agent.socket != "" && Readable(agent)
    ensures var w := WithEngine(plain, s.rules, fnmatch, id);
            HandleRequest(w, s.orchestrator, number, query).dispatched != s.orchestrator.dispatched <==>
              && TypeByTarget(intent.target) == PolicyCheck
              && Decision(s.rules, agent.name, intent.capability, fnmatch).action == Allow
  {
    var w := WithEngine(plain, s.rules, fnmatch, id);
    WithEngineAnswers(plain, s.rules, fnmatch, id, agent, intent);
    DispatchedExactly(w, s.orchestrator, number, query, agent, intent, s.rules, fnmatch, id);
  }

  // ---- a question that grants itself what it asks about ----

  lemma RequestKeepsAgents(fnmatch: Fnmatch, id: string, s: System, e: Event, files: seq<PolicyRule>)
    requires e.message.Request?
    ensures Step(fnmatch, id, s, Inbox(e, files)).orchestrator.agents == s.orchestrator.agents
  {
    AgentsAfter(WithEngine(e.world, s.rules, fnmatch, id), s.orchestrator, e.message, e.now, e.text);
  }

  /** With no rules held nothing is dispatched; but after a request whose target makes the question an added rule, a
      request for the same capability and agent is. */
  lemma AskedThenDispatched(fnmatch: Fnmatch, id: string, s: System, first: Event, second: Event,
                            files: seq<PolicyRule>, agent: Agent, asked: Intent, wanted: Intent, text: string)
    requires Proper(s) && CleanRules(files) && s.rules == [] && NulFree(id) && QuoteFree(id) && |id| <= 20
    requires first.message.Request? && second.message.Request? && first.world.agentClient && second.world.agentClient
    requires Question(first.world, s.orchestrator, first.message) == Some((agent, asked)) && agent.socket != ""
    requires Question(second.world, s.orchestrator, second.message) == Some((agent, wanted))
    requires asked.target == MistakenTarget(text) && QuoteFree(text) && text != "action"
    requires wanted.capability == asked.capability && QuoteFree(wanted.target)
    requires '\\' !in agent.name && '\\' !in asked.capability && agent.name != "action" && asked.capability != "action"
    ensures Step(fnmatch, id, s, Inbox(second, files)).orchestrator.dispatched == s.orchestrator.dispatched
    ensures var after := Step(fnmatch, id, s, Inbox(first, files));
            && after.orchestrator.dispatched == s.orchestrator.dispatched
            && Step(fnmatch, id, after, Inbox(second, files)).orchestrator.dispatched != after.orchestrator.dispatched
  {
    var after := Step(fnmatch, id, s, Inbox(first, files));
    QuestionIsReadable(first.world, s, first.message);
    QuotedTargetMistaken(text);
    PlainTargetIsCheck(wanted.target);
    AskedThenAllowed(agent.name, asked.capability, text, files, fnmatch);
    DispatchedByRules(fnmatch, id, s, first, files, agent, asked);
    DispatchedByRules(fnmatch, id, s, second, files, agent, wanted);
    RequestKeepsAgents(fnmatch, id, s, first, files);
    StepKeepsProper(fnmatch, id, s, Inbox(first, files));
    DispatchedByRules(fnmatch, id, after, second, files, agent, wanted);
  }

  // ---- when the rules never change ----

  /** Every input goes to the orchestrator, and every question it asks is left a policy check by its target. */
  ghost predicate OnlyChecks(fnmatch: Fnmatch, id: string, rules: seq<PolicyRule>, inputs: seq<Input>) {
    forall k :: 0 <= k < |inputs| ==> LeavesCheck(Run(fnmatch, id, rules, inputs[..k]), inputs[k])
  }

  ghost predicate LeavesCheck(s: System, input: Input) {
    && input.Inbox?
    && var q := Question(input.event.world, s.orchestrator, input.event.message);
       q.Some? ==> TypeByTarget(q.value.1.target) == PolicyCheck
  }

  lemma CheckKeepsRules(fnmatch: Fnmatch, id: string, s: System, input: Input)
    requires Proper(s) && LeavesCheck(s, input)
    ensures Step(fnmatch, id, s, input).rules == s.rules
  {
    var q := Question(input.event.world, s.orchestrator, input.event.message);
    if q.Some? {
      QuestionIsReadable(input.event.world, s, input.event.message);
      AskingChangesNothing(s.rules, input.files, q.value.0.name, q.value.1.capability, q.value.1.target);
    }
  }

  /** Then the rules stay as they were. */
  lemma {:induction false} ChecksKeepRules(fnmatch: Fnmatch, id: string, rules: seq<PolicyRule>, inputs: seq<Input>)
    requires ProperRun(id, rules, inputs) && OnlyChecks(fnmatch, id, rules, inputs)
    ensures Run(fnmatch, id, rules, inputs).rules == rules
  {
    if inputs != [] {
      var n := |inputs| - 1;
      ChecksBefore(fnmatch, id, rules, inputs, n);
      ChecksKeepRules(fnmatch, id, rules, inputs[..n]);
      RunIsProper(fnmatch, id, rules, inputs[..n]);
      CheckKeepsRules(fnmatch, id, Run(fnmatch, id, rules, inputs[..n]), inputs[n]);
    }
  }

  lemma ChecksBefore(fnmatch: Fnmatch, id: string, rules: seq<PolicyRule>, inputs: seq<Input>, n: nat)
    requires n <= |inputs| && OnlyChecks(fnmatch, id, rules, inputs)
    ensures OnlyChecks(fnmatch, id, rules, inputs[..n])
  {
    forall k | 0 <= k < n
      ensures LeavesCheck(Run(fnmatch, id, rules, inputs[..n][..k]), inputs[..n][k])
    {
      assert inputs[..n][..k] == inputs[..k];
      assert LeavesCheck(Run(fnmatch, id, rules, inputs[..k]), inputs[k]);
    }
  }

  /** And every dispatch of the run is allowed by the rules it started with. */
  lemma ChecksDispatchAllowed(fnmatch: Fnmatch, id: string, rules: seq<PolicyRule>, inputs: seq<Input>, i: nat)
    requires ProperRun(id, rules, inputs) && OnlyChecks(fnmatch, id, rules, inputs)
    requires i < |Run(fnmatch, id, rules, inputs).orchestrator.dispatched|
    ensures AllowedBy(Run(fnmatch, id, rules, inputs).orchestrator.dispatched[i], rules, fnmatch)
  {
    EveryDispatchAllowed(fnmatch, id, rules, inputs, i);
    var k: nat :| k < |inputs| && AllowedBy(Run(fnmatch, id, rules, inputs).orchestrator.dispatched[i],
                                            Run(fnmatch, id, rules, inputs[..k]).rules, fnmatch);
    ChecksBefore(fnmatch, id, rules, inputs, k);
    ChecksKeepRules(fnmatch, id, rules, inputs[..k]);
  }

  // ---- something is dispatched ----

  lemma TwoInputs(fnmatch: Fnmatch, id: string, rules: seq<PolicyRule>, a: Input, b: Input)
    ensures Run(fnmatch, id, rules, []) == Start(rules)
    ensures Run(fnmatch, id, rules, [a]) == Step(fnmatch, id, Start(rules), a)
    ensures Run(fnmatch, id, rules, [a, b]) == Step(fnmatch, id, Run(fnmatch, id, rules, [a]), b)
  {
    assert [a][..0] == [] && [a, b][..1] == [a];
  }

  lemma OnlyAgentFound(a: Agent, now: int, capability: string)
    requires capability in a.capabilities
    ensures Registered([], a, now) == [Online(a, now)]
    ensures FindByCapability([Online(a, now)], capability) == Some(Online(a, now))
  {
    assert Offers(capability)([Online(a, now)][0]);
  }

  function Registering(w: World, data: CString): Input {
    Inbox(Event(Message.Register(data), w, 0, ""), [])
  }

  function Requesting(w: World, query: string): Input {
    Inbox(Event(Message.Request(1, query), w, 0, ""), [])
  }

  lemma AfterRegistering(fnmatch: Fnmatch, id: string, rules: seq<PolicyRule>, w: World, data: CString,
                         capability: string)
    returns (a: Agent)
    requires AgentOf(data, 0).name != "" && capability in AgentOf(data, 0).capabilities && AgentOf(data, 0).socket != ""
    ensures var s := Step(fnmatch, id, Start(rules), Registering(w, data));
            && s.rules == rules && s.orchestrator.dispatched == []
            && FindByCapability(s.orchestrator.agents, capability) == Some(a) && a.socket != ""
  {
    var read, engine := AgentOf(data, 0), WithEngine(w, rules, fnmatch, id);
    a := Online(read, 0);
    AgentsAfter(engine, State([], [], []), Message.Register(data), 0, "");
    OthersDispatchNothing(engine, State([], [], []), Message.Register(data), 0, "");
    OnlyAgentFound(read, 0, capability);
  }

  /** A request with a quote-free target that the rules allow is dispatched. */
  lemma AllowedIsDispatched(fnmatch: Fnmatch, id: string, s: System, w: World, query: string, agent: Agent,
                            intent: Intent)
    requires Proper(s) && NulFree(id) && QuoteFree(id) && |id| <= 20 && w.agentClient
    requires Resolve(w, query) == Some(intent) && agent.socket != "" && QuoteFree(intent.target)
    requires FindByCapability(s.orchestrator.agents, intent.capability) == Some(agent)
    requires Decision(s.rules, agent.name, intent.capability, fnmatch).action == Allow
    ensures LeavesCheck(s, Requesting(w, query))
    ensures Step(fnmatch, id, s, Requesting(w, query)).orchestrator.dispatched != s.orchestrator.dispatched
  {
    PlainTargetIsCheck(intent.target);
    DispatchedByRules(fnmatch, id, s, Requesting(w, query).event, [], agent, intent);
  }

  /** A run that meets the conditions of these theorems and dispatches something. */
  ghost predicate DispatchingRun(fnmatch: Fnmatch, id: string, rules: seq<PolicyRule>, inputs: seq<Input>) {
    && ProperRun(id, rules, inputs) && OnlyChecks(fnmatch, id, rules, inputs)
    && Run(fnmatch, id, rules, inputs).orchestrator.dispatched != []
  }

  lemma TwoSteps(fnmatch: Fnmatch, id: string, rules: seq<PolicyRule>, a: Input, b: Input) returns (inputs: seq<Input>)
    requires NulFree(id) && QuoteFree(id) && |id| <= 20
    requires CleanRules(rules) && CleanRules(a.files) && CleanRules(b.files)
    requires LeavesCheck(Start(rules), a) && LeavesCheck(Step(fnmatch, id, Start(rules), a), b)
    requires Step(fnmatch, id, Step(fnmatch, id, Start(rules), a), b).orchestrator.dispatched != []
    ensures DispatchingRun(fnmatch, id, rules, inputs)
  {
    TwoInputs(fnmatch, id, rules, a, b);
    inputs := [a, b];
    assert inputs[..0] == [] && inputs[..1] == [a];
    assert OnlyChecks(fnmatch, id, rules, inputs);
  }

  lemma ProperStart(fnmatch: Fnmatch, id: string, rules: seq<PolicyRule>, a: Input)
    requires CleanRules(rules) && CleanRules(a.files)
    ensures Proper(Step(fnmatch, id, Start(rules), a))
  {
    StepKeepsProper(fnmatch, id, Start(rules), a);
  }

  /** There is one, in which an agent registers and a request is dispatched to it. */
  lemma SomethingIsDispatched(fnmatch: Fnmatch, id: string, w: World, query: string, intent: Intent)
    returns (rules: seq<PolicyRule>, inputs: seq<Input>)
    requires NulFree(id) && QuoteFree(id) && |id| <= 20
    requires w.agentClient && Resolve(w, query) == Some(intent) && intent.capability == "open" && intent.target == ""
    ensures DispatchingRun(fnmatch, id, rules, inputs)
  {
    var data := SomeRegistration();
    rules := [PolicyRule("open", "*", Allow, 0, "")];
    var first, second := Registering(w, data), Requesting(w, query);
    var agent := AfterRegistering(fnmatch, id, rules, w, data, "open");
    ProperStart(fnmatch, id, rules, first);
    OpenIsAllowed(rules, agent.name, fnmatch);
    AllowedIsDispatched(fnmatch, id, Step(fnmatch, id, Start(rules), first), w, query, agent, intent);
    inputs := TwoSteps(fnmatch, id, rules, first, second);
  }

  lemma OpenIsAllowed(rules: seq<PolicyRule>, agent: string, fnmatch: Fnmatch)
    requires rules == [PolicyRule("open", "*", Allow, 0, "")]
    ensures Decision(rules, agent, "open", fnmatch).action == Allow
  {
    assert rules[0] in rules && Applies(rules[0], agent, "open", fnmatch);
    DecisionOfWinner(rules, agent, "open", fnmatch);
  }

  lemma SomeRegistration() returns (data: CString)
    ensures var a := AgentOf(data, 0); a.name != "" && "open" in a.capabilities && a.socket != ""
  {
    data := AnnouncementOf("desktop", "1", "/run/desktop", "open");
  }

  lemma AnnouncementOf(name: CString, version: CString, socket: CString, capability: CString) returns (data: CString)
    requires AgentMessages.Announceable(name, version, socket, [capability])
    requires name !in ["socket", "capabilities"] && version != "capabilities"
    ensures var a := AgentOf(data, 0); a.name == name && a.socket == socket && a.capabilities == [capability]
  {
    AnnouncedClean(name, version, socket, capability);
    data := AgentMessages.Announced(name, version, socket, [capability]);
    AgentMessages.AnnouncementArrives(name, version, socket, [capability], 0);
  }

  lemma AnnouncedClean(name: CString, version: CString, socket: CString, capability: CString)
    ensures NulFree(AgentMessages.Announced(name, version, socket, [capability]))
  {
    Register.CapsOne(capability);
    MemberClean("type", "register");
    MemberClean("name", name);
    MemberClean("version", version);
    MemberClean("socket", socket);
    MemberClean("capabilities", "");
    MemberClean(capability, "");
  }
}
