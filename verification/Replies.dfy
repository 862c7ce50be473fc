/** What every message to the orchestrator is answered, by itself and with the policy engine behind it
    (components/orchestrator/main.c). */
module Replies {
  import opened CStrings
  import opened Fields
  import opened Registry
  import opened Registration
  import opened Orchestrator
  import PolicyReply
  import PolicyRequest
  import PolicyWire
  import Policy
  import GuardedRuns

  // ---- over every run of the orchestrator ----

  /** Message k of a run was answered with this reply, and handling it made these dispatches. */
  ghost predicate Gave(events: seq<Event>, k: nat, r: Reply, made: seq<Dispatch>) {
    && k < |events| && |Run(events).sent| == |events| && Run(events).sent[k] == r
    && Run(events[..k + 1]).dispatched == Run(events[..k]).dispatched + made
  }

  /** One more reply, and these dispatches. */
  ghost predicate Adds(before: State, after: State, r: Reply, made: seq<Dispatch>) {
    after.sent == before.sent + [r] && after.dispatched == before.dispatched + made
  }

  lemma SentPush(events: seq<Event>) returns (r: Reply)
    requires events != []
    ensures Run(events).sent == Run(events[..|events| - 1]).sent + [r]
  {
    r := AnswersOnce(events[|events| - 1], Run(events[..|events| - 1]));
  }

  lemma {:induction false} SentStays(events: seq<Event>, k: nat)
    requires k <= |events|
    ensures |Run(events[..k]).sent| == k && |Run(events).sent| == |events|
    ensures Run(events[..k]).sent <= Run(events).sent
  {
    if k == |events| {
      assert events[..k] == events;
      SentCount(events);
    } else {
      SentStays(events[..|events| - 1], k);
      assert events[..|events| - 1][..k] == events[..k];
      var r := SentPush(events);
    }
  }

  lemma {:induction false} SentCount(events: seq<Event>)
    ensures |Run(events).sent| == |events|
  {
    EveryMessageAnsweredOnce(events);
  }

  lemma GaveIfAdds(events: seq<Event>, k: nat, r: Reply, made: seq<Dispatch>)
    requires k < |events|
    requires var e, s := events[k], Run(events[..k]); Adds(s, Handle(e.world, s, e.message, e.now, e.text), r, made)
    ensures Gave(events, k, r, made)
  {
    assert events[..k + 1][..k] == events[..k];
    SentStays(events, k);
    SentStays(events, k + 1);
    assert Run(events[..k + 1]).sent[k] == r;
  }

  /** The first of the three resolvers that knows the query reads it as this intent. */
  ghost predicate ResolvedTo(w: World, query: string, intent: Intent) {
    || w.rules(query) == Some(intent)
    || (w.rules(query).None? && w.router(query) == Some(intent))
    || (w.rules(query).None? && w.router(query).None? && w.classifier(query) == Some(intent))
  }

  lemma UnresolvedAdds(w: World, s: State, id: nat, query: string)
    requires w.rules(query).None? && w.router(query).None? && w.classifier(query).None?
    ensures Adds(s, HandleRequest(w, s, id, query), Response(id, Success, "no intent matched for query"), [])
  {
  }

  lemma UnservedAdds(w: World, s: State, id: nat, query: string, intent: Intent)
    requires ResolvedTo(w, query, intent)
    requires forall a :: a in s.agents && a.alive ==> intent.capability !in a.capabilities
    ensures Adds(s, HandleRequest(w, s, id, query),
                 Response(id, Failure, "no agent for capability '" + intent.capability + "'"), [])
  {
    FirstIsFound(s.agents, intent.capability);
  }

  lemma RefusedAdds(w: World, s: State, id: nat, query: string, intent: Intent, agent: Agent)
    requires ResolvedTo(w, query, intent) && FirstOffering(s.agents, intent.capability, agent)
    requires var outcome := w.policy(agent.name, intent.capability, intent.target);
             outcome.Replied? && !PolicyReply.ClientAllows(outcome.text)
    ensures var reason := PolicyReply.ClientReason(w.policy(agent.name, intent.capability, intent.target).text);
            Adds(s, HandleRequest(w, s, id, query),
                 Response(id, Failure, "policy denied: " + if reason == "" then "action not permitted" else reason), [])
  {
    FirstIsFound(s.agents, intent.capability);
  }

  /** What becomes of a request that nothing refused: without an agent client it is only routed, without a socket it
      fails, and otherwise it is dispatched and answered as the agent answers. */
  ghost predicate Performed(w: World, before: State, after: State, id: nat, query: string, intent: Intent,
                            agent: Agent)
  {
    if !w.agentClient then Adds(before, after, Response(id, Success, "routed to " + agent.name + " (no agent client)"),
                                [])
    else if agent.socket == "" then
      Adds(before, after, Response(id, Failure, "agent " + agent.name + " has no socket path"), [])
    else
      var first := if agent.capabilities == [] then "" else agent.capabilities[0];
      Adds(before, after, Response(id, w.perform(agent, query).0, w.perform(agent, query).1),
           [Dispatch(agent, id, query, first, intent)])
  }

  lemma PermittedAdds(w: World, s: State, id: nat, query: string, intent: Intent, agent: Agent)
    requires ResolvedTo(w, query, intent) && FirstOffering(s.agents, intent.capability, agent)
    requires var outcome := w.policy(agent.name, intent.capability, intent.target);
             outcome.Replied? ==> PolicyReply.ClientAllows(outcome.text)
    ensures Performed(w, s, HandleRequest(w, s, id, query), id, query, intent, agent)
  {
    FirstIsFound(s.agents, intent.capability);
  }

  /** A request that no resolver knows is answered with success, and nothing is dispatched. */
  lemma UnresolvedSucceeds(events: seq<Event>, k: nat)
    requires k < |events| && events[k].message.Request?
    requires var w, query := events[k].world, events[k].message.query;
             w.rules(query).None? && w.router(query).None? && w.classifier(query).None?
    ensures Gave(events, k, Response(events[k].message.id, Success, "no intent matched for query"), [])
  {
    var e := events[k];
    UnresolvedAdds(e.world, Run(events[..k]), e.message.id, e.message.query);
    GaveIfAdds(events, k, Response(e.message.id, Success, "no intent matched for query"), []);
  }

  /** One whose capability no live agent offers fails. */
  lemma UnservedFails(events: seq<Event>, k: nat, intent: Intent)
    requires k < |events| && events[k].message.Request?
    requires ResolvedTo(events[k].world, events[k].message.query, intent)
    requires forall a :: a in Run(events[..k]).agents && a.alive ==> intent.capability !in a.capabilities
    ensures Gave(events, k, Response(events[k].message.id, Failure,
                                     "no agent for capability '" + intent.capability + "'"), [])
  {
    var e := events[k];
    UnservedAdds(e.world, Run(events[..k]), e.message.id, e.message.query, intent);
    GaveIfAdds(events, k, Response(e.message.id, Failure, "no agent for capability '" + intent.capability + "'"), []);
  }

  /** One to which the policy engine answers anything but an allow fails with the reason read, or without one. */
  lemma RefusedFails(events: seq<Event>, k: nat, intent: Intent, agent: Agent)
    requires k < |events| && events[k].message.Request?
    requires ResolvedTo(events[k].world, events[k].message.query, intent)
    requires FirstOffering(Run(events[..k]).agents, intent.capability, agent)
    requires var outcome := events[k].world.policy(agent.name, intent.capability, intent.target);
             outcome.Replied? && !PolicyReply.ClientAllows(outcome.text)
    ensures var outcome := events[k].world.policy(agent.name, intent.capability, intent.target);
            var reason := PolicyReply.ClientReason(outcome.text);
            Gave(events, k, Response(events[k].message.id, Failure,
                                     "policy denied: " + if reason == "" then "action not permitted" else reason), [])
  {
    var e := events[k];
    var reason := PolicyReply.ClientReason(e.world.policy(agent.name, intent.capability, intent.target).text);
    RefusedAdds(e.world, Run(events[..k]), e.message.id, e.message.query, intent, agent);
    GaveIfAdds(events, k, Response(e.message.id, Failure,
                                   "policy denied: " + if reason == "" then "action not permitted" else reason), []);
  }

  /** One that the policy engine allows, or does not answer, is dispatched to the agent and answered as the agent
      answers, if there is an agent client and the agent has a socket. */
  lemma DispatchedIsAnswered(events: seq<Event>, k: nat, intent: Intent, agent: Agent)
    requires k < |events| && events[k].message.Request? && events[k].world.agentClient && agent.socket != ""
    requires ResolvedTo(events[k].world, events[k].message.query, intent)
    requires FirstOffering(Run(events[..k]).agents, intent.capability, agent)
    requires var outcome := events[k].world.policy(agent.name, intent.capability, intent.target);
             outcome.Replied? ==> PolicyReply.ClientAllows(outcome.text)
    ensures var e := events[k];
            var answer := e.world.perform(agent, e.message.query);
            Gave(events, k, Response(e.message.id, answer.0, answer.1),
                 [Dispatch(agent, e.message.id, e.message.query, agent.capabilities[0], intent)])
  {
    var e := events[k];
    var answer := e.world.perform(agent, e.message.query);
    PermittedAdds(e.world, Run(events[..k]), e.message.id, e.message.query, intent, agent);
    GaveIfAdds(events, k, Response(e.message.id, answer.0, answer.1),
               [Dispatch(agent, e.message.id, e.message.query, agent.capabilities[0], intent)]);
  }

  /** Otherwise it is not dispatched: without an agent client it succeeds all the same, without a socket it fails. */
  lemma UndispatchedIsAnswered(events: seq<Event>, k: nat, intent: Intent, agent: Agent)
    requires k < |events| && events[k].message.Request? && !(events[k].world.agentClient && agent.socket != "")
    requires ResolvedTo(events[k].world, events[k].message.query, intent)
    requires FirstOffering(Run(events[..k]).agents, intent.capability, agent)
    requires var outcome := events[k].world.policy(agent.name, intent.capability, intent.target);
             outcome.Replied? ==> PolicyReply.ClientAllows(outcome.text)
    ensures Gave(events, k, Response(events[k].message.id,
                                     if events[k].world.agentClient then Failure else Success,
                                     if events[k].world.agentClient then "agent " + agent.name + " has no socket path"
                                     else "routed to " + agent.name + " (no agent client)"), [])
  {
    var e := events[k];
    PermittedAdds(e.world, Run(events[..k]), e.message.id, e.message.query, intent, agent);
    GaveIfAdds(events, k, Response(e.message.id, if e.world.agentClient then Failure else Success,
                                   if e.world.agentClient then "agent " + agent.name + " has no socket path"
                                   else "routed to " + agent.name + " (no agent client)"), []);
  }

  lemma RegisterAdds(w: World, s: State, data: CString, now: int, text: string)
    ensures AgentOf(data, now).name != "" ==> Adds(s, Handle(w, s, Message.Register(data), now, text),
                                                   Response(0, Success, text), [])
    ensures AgentOf(data, now).name == "" ==> Adds(s, Handle(w, s, Message.Register(data), now, text),
                                                   Response(0, Failure, "invalid registration"), [])
  {
    assert s.dispatched + [] == s.dispatched;
  }

  /** The other messages are never dispatched: a ping is answered, a message of no known kind fails, and a registration
      succeeds exactly when it names an agent. */
  lemma OthersAnswered(events: seq<Event>, k: nat)
    requires k < |events|
    ensures events[k].message.Invalid? ==> Gave(events, k, Response(0, Failure, "invalid message format"), [])
    ensures events[k].message.Ping? ==> Gave(events, k, Alive, [])
    ensures events[k].message.Register? ==>
              var named := AgentOf(events[k].message.data, events[k].now).name != "";
              Gave(events, k, if named then Response(0, Success, events[k].text)
                              else Response(0, Failure, "invalid registration"), [])
  {
    var e, s := events[k], Run(events[..k]);
    match e.message {
      case Invalid => GaveIfAdds(events, k, Response(0, Failure, "invalid message format"), []);
      case Ping => GaveIfAdds(events, k, Alive, []);
      case Register(data) =>
        RegisterAdds(e.world, s, data, e.now, e.text);
        if AgentOf(data, e.now).name != "" {
          GaveIfAdds(events, k, Response(0, Success, e.text), []);
        } else {
          GaveIfAdds(events, k, Response(0, Failure, "invalid registration"), []);
        }
      case Request(_, _) =>
    }
  }

  // ---- over every run with the policy engine ----

  /** Input k of a joint run was a message answered with this reply, and handling it made these dispatches. */
  ghost predicate GaveJointly(fnmatch: Policy.Fnmatch, id: string, rules: seq<Policy.PolicyRule>,
                              inputs: seq<GuardedRuns.Input>, k: nat, r: Reply, made: seq<Dispatch>)
  {
    && k < |inputs|
    && var after := GuardedRuns.Run(fnmatch, id, rules, inputs[..k + 1]).orchestrator;
       && Adds(GuardedRuns.Run(fnmatch, id, rules, inputs[..k]).orchestrator, after, r, made)
       && after.sent <= GuardedRuns.Run(fnmatch, id, rules, inputs).orchestrator.sent
  }

  lemma StepOnlySends(fnmatch: Policy.Fnmatch, id: string, s: GuardedRuns.System, input: GuardedRuns.Input)
    ensures s.orchestrator.sent <= GuardedRuns.Step(fnmatch, id, s, input).orchestrator.sent
  {
    if input.Inbox? {
      var e := input.event;
      var r := AnswersOnce(e.(world := WithEngine(e.world, s.rules, fnmatch, id)), s.orchestrator);
    }
  }

  lemma {:induction false} JointSentStays(fnmatch: Policy.Fnmatch, id: string, rules: seq<Policy.PolicyRule>,
                                          inputs: seq<GuardedRuns.Input>, k: nat)
    requires k <= |inputs|
    ensures GuardedRuns.Run(fnmatch, id, rules, inputs[..k]).orchestrator.sent
         <= GuardedRuns.Run(fnmatch, id, rules, inputs).orchestrator.sent
    decreases |inputs|
  {
    if k == |inputs| {
      assert inputs[..k] == inputs;
    } else {
      var n := |inputs| - 1;
      JointSentStays(fnmatch, id, rules, inputs[..n], k);
      assert inputs[..n][..k] == inputs[..k];
      StepOnlySends(fnmatch, id, GuardedRuns.Run(fnmatch, id, rules, inputs[..n]), inputs[n]);
    }
  }

  /** A request of a joint run, the state it met, and the agent that is asked about. */
  ghost predicate Met(fnmatch: Policy.Fnmatch, id: string, rules: seq<Policy.PolicyRule>,
                      inputs: seq<GuardedRuns.Input>, k: nat, intent: Intent, agent: Agent)
  {
    && k < |inputs| && inputs[k].Inbox? && inputs[k].event.message.Request?
    && ResolvedTo(inputs[k].event.world, inputs[k].event.message.query, intent)
    && FirstOffering(GuardedRuns.Run(fnmatch, id, rules, inputs[..k]).orchestrator.agents, intent.capability, agent)
  }

  /** These rules allow it, and its target leaves the question a policy check. */
  ghost predicate AllowedNow(rules: seq<Policy.PolicyRule>, fnmatch: Policy.Fnmatch, agent: Agent, intent: Intent) {
    && PolicyRequest.TypeByTarget(intent.target) == PolicyRequest.PolicyCheck
    && Policy.Decision(rules, agent.name, intent.capability, fnmatch).action == Policy.Allow
  }

  /** What the engine's answer says of the reason. */
  function ReasonNow(rules: seq<Policy.PolicyRule>, fnmatch: Policy.Fnmatch, agent: Agent, intent: Intent): string {
    if PolicyRequest.TypeByTarget(intent.target) != PolicyRequest.PolicyCheck then ""
    else UpToQuote(Policy.Decision(rules, agent.name, intent.capability, fnmatch).reason + "\"")
  }

  lemma EngineAnswered(w: World, rules: seq<Policy.PolicyRule>, fnmatch: Policy.Fnmatch, id: string, agent: Agent,
                       intent: Intent)
    requires PolicyWire.CleanRules(rules) && NulFree(id) && QuoteFree(id) && |id| <= 20
    requires Readable(agent) && intent.capability in agent.capabilities
    ensures var outcome := WithEngine(w, rules, fnmatch, id).policy(agent.name, intent.capability, intent.target);
            && outcome.Replied?
            && (PolicyReply.ClientAllows(outcome.text) <==> AllowedNow(rules, fnmatch, agent, intent))
            && PolicyReply.ClientReason(outcome.text) == ReasonNow(rules, fnmatch, agent, intent)
  {
    var guarded := WithEngine(w, rules, fnmatch, id);
    WithEngineAnswers(w, rules, fnmatch, id, agent, intent);
    PermittedExactly(guarded, agent, intent, rules, fnmatch, id);
    PolicyWire.ReasonSurvivesBothMessages(rules, fnmatch, agent.name, intent.capability, intent.target, id);
  }

  lemma AgentMet(fnmatch: Policy.Fnmatch, id: string, rules: seq<Policy.PolicyRule>, inputs: seq<GuardedRuns.Input>,
                 k: nat, intent: Intent, agent: Agent)
    requires GuardedRuns.ProperRun(id, rules, inputs) && Met(fnmatch, id, rules, inputs, k, intent, agent)
    ensures PolicyWire.CleanRules(GuardedRuns.Run(fnmatch, id, rules, inputs[..k]).rules)
    ensures Readable(agent) && intent.capability in agent.capabilities
  {
    GuardedRuns.RunIsProper(fnmatch, id, rules, inputs[..k]);
    var s := GuardedRuns.Run(fnmatch, id, rules, inputs[..k]);
    assert agent in s.orchestrator.agents;
  }

  lemma JointlyIfAdds(fnmatch: Policy.Fnmatch, id: string, rules: seq<Policy.PolicyRule>,
                      inputs: seq<GuardedRuns.Input>, k: nat, r: Reply, made: seq<Dispatch>)
    requires k < |inputs| && inputs[k].Inbox? && inputs[k].event.message.Request?
    requires var s, e := GuardedRuns.Run(fnmatch, id, rules, inputs[..k]), inputs[k].event;
             Adds(s.orchestrator,
                  HandleRequest(WithEngine(e.world, s.rules, fnmatch, id), s.orchestrator, e.message.id,
                                e.message.query), r, made)
    ensures GaveJointly(fnmatch, id, rules, inputs, k, r, made)
  {
    assert inputs[..k + 1][..k] == inputs[..k];
    JointSentStays(fnmatch, id, rules, inputs, k + 1);
  }

  /** With the engine behind it, a request that the rules of the moment do not allow, or whose target makes the question
      another message, fails with the reason of the rule that decided, up to its first quote, or without one. */
  lemma RefusedByRules(fnmatch: Policy.Fnmatch, id: string, rules: seq<Policy.PolicyRule>,
                       inputs: seq<GuardedRuns.Input>, k: nat, intent: Intent, agent: Agent)
    requires GuardedRuns.ProperRun(id, rules, inputs) && Met(fnmatch, id, rules, inputs, k, intent, agent)
    requires !AllowedNow(GuardedRuns.Run(fnmatch, id, rules, inputs[..k]).rules, fnmatch, agent, intent)
    ensures var reason := ReasonNow(GuardedRuns.Run(fnmatch, id, rules, inputs[..k]).rules, fnmatch, agent, intent);
            GaveJointly(fnmatch, id, rules, inputs, k,
                        Response(inputs[k].event.message.id, Failure,
                                 "policy denied: " + if reason == "" then "action not permitted" else reason), [])
  {
    var s, e := GuardedRuns.Run(fnmatch, id, rules, inputs[..k]), inputs[k].event;
    var w, reason := WithEngine(e.world, s.rules, fnmatch, id), ReasonNow(s.rules, fnmatch, agent, intent);
    AgentMet(fnmatch, id, rules, inputs, k, intent, agent);
    EngineAnswered(e.world, s.rules, fnmatch, id, agent, intent);
    RefusedAdds(w, s.orchestrator, e.message.id, e.message.query, intent, agent);
    JointlyIfAdds(fnmatch, id, rules, inputs, k,
                  Response(e.message.id, Failure,
                           "policy denied: " + if reason == "" then "action not permitted" else reason), []);
  }

  /** And one that they allow is dispatched, and answered with the status and the payload that the agent returns. */
  lemma AllowedIsAnswered(fnmatch: Policy.Fnmatch, id: string, rules: seq<Policy.PolicyRule>,
                          inputs: seq<GuardedRuns.Input>, k: nat, intent: Intent, agent: Agent)
    requires GuardedRuns.ProperRun(id, rules, inputs) && Met(fnmatch, id, rules, inputs, k, intent, agent)
    requires AllowedNow(GuardedRuns.Run(fnmatch, id, rules, inputs[..k]).rules, fnmatch, agent, intent)
    requires inputs[k].event.world.agentClient && agent.socket != ""
    ensures agent.capabilities != []
    ensures var e := inputs[k].event;
            var answer := e.world.perform(agent, e.message.query);
            GaveJointly(fnmatch, id, rules, inputs, k, Response(e.message.id, answer.0, answer.1),
                        [Dispatch(agent, e.message.id, e.message.query, agent.capabilities[0], intent)])
  {
    var s, e := GuardedRuns.Run(fnmatch, id, rules, inputs[..k]), inputs[k].event;
    var answer := e.world.perform(agent, e.message.query);
    AgentMet(fnmatch, id, rules, inputs, k, intent, agent);
    EngineAnswered(e.world, s.rules, fnmatch, id, agent, intent);
    PermittedAdds(WithEngine(e.world, s.rules, fnmatch, id), s.orchestrator, e.message.id, e.message.query, intent,
                  agent);
    JointlyIfAdds(fnmatch, id, rules, inputs, k, Response(e.message.id, answer.0, answer.1),
                  [Dispatch(agent, e.message.id, e.message.query, agent.capabilities[0], intent)]);
  }

  /** A request of a joint run that no resolver knows is answered with success and not dispatched. */
  lemma UnresolvedJointly(fnmatch: Policy.Fnmatch, id: string, rules: seq<Policy.PolicyRule>,
                          inputs: seq<GuardedRuns.Input>, k: nat)
    requires k < |inputs| && inputs[k].Inbox? && inputs[k].event.message.Request?
    requires var w, query := inputs[k].event.world, inputs[k].event.message.query;
             w.rules(query).None? && w.router(query).None? && w.classifier(query).None?
    ensures GaveJointly(fnmatch, id, rules, inputs, k,
                        Response(inputs[k].event.message.id, Success, "no intent matched for query"), [])
  {
    var s, e := GuardedRuns.Run(fnmatch, id, rules, inputs[..k]), inputs[k].event;
    UnresolvedAdds(WithEngine(e.world, s.rules, fnmatch, id), s.orchestrator, e.message.id, e.message.query);
    JointlyIfAdds(fnmatch, id, rules, inputs, k, Response(e.message.id, Success, "no intent matched for query"), []);
  }

  /** One whose capability no live agent offers fails. */
  lemma UnservedJointly(fnmatch: Policy.Fnmatch, id: string, rules: seq<Policy.PolicyRule>,
                        inputs: seq<GuardedRuns.Input>, k: nat, intent: Intent)
    requires k < |inputs| && inputs[k].Inbox? && inputs[k].event.message.Request?
    requires ResolvedTo(inputs[k].event.world, inputs[k].event.message.query, intent)
    requires forall a :: a in GuardedRuns.Run(fnmatch, id, rules, inputs[..k]).orchestrator.agents && a.alive
               ==> intent.capability !in a.capabilities
    ensures GaveJointly(fnmatch, id, rules, inputs, k,
                        Response(inputs[k].event.message.id, Failure,
                                 "no agent for capability '" + intent.capability + "'"), [])
  {
    var s, e := GuardedRuns.Run(fnmatch, id, rules, inputs[..k]), inputs[k].event;
    UnservedAdds(WithEngine(e.world, s.rules, fnmatch, id), s.orchestrator, e.message.id, e.message.query, intent);
    JointlyIfAdds(fnmatch, id, rules, inputs, k,
                  Response(e.message.id, Failure, "no agent for capability '" + intent.capability + "'"), []);
  }
}
