/** The agent registry (components/orchestrator/registry/registry.c). */
module Registry {
  import opened CStrings
  import opened Scan

  const MAX_AGENTS: nat := 64

  datatype Agent = Agent(name: string, version: string, socket: string, capabilities: seq<string>, alive: bool,
                         heartbeat: int)

  function Named(name: string): Agent -> bool {
    (a: Agent) => a.name == name
  }

  function Offers(capability: string): Agent -> bool {
    (a: Agent) => a.alive && capability in a.capabilities
  }

  function Online(a: Agent, now: int): Agent {
    a.(alive := true, heartbeat := now)
  }

  // ---- what the operations do to the used slots ----

  function Registered(agents: seq<Agent>, a: Agent, now: int): seq<Agent> {
    var at := FirstWhere(agents, Named(a.name), 0);
    if at.Some? then agents[at.value := Online(a, now)]
    else if |agents| < MAX_AGENTS then agents + [Online(a, now)]
    else agents
  }

  /** Removal moves the last agent into the gap. */
  function Unregistered(agents: seq<Agent>, name: string): seq<Agent> {
    var at := FirstWhere(agents, Named(name), 0);
    if at.None? then agents else agents[at.value := agents[|agents| - 1]][..|agents| - 1]
  }

  function FindByCapability(agents: seq<Agent>, capability: string): Option<Agent> {
    var at := FirstWhere(agents, Offers(capability), 0);
    if at.Some? then Some(agents[at.value]) else None
  }

  // ---- the registry is a directory by name ----

  ghost predicate UniqueNames(agents: seq<Agent>) {
    forall i, j :: 0 <= i < j < |agents| ==> agents[i].name != agents[j].name
  }

  ghost predicate Sound(agents: seq<Agent>) {
    UniqueNames(agents) && |agents| <= MAX_AGENTS && forall a :: a in agents ==> a.alive
  }

  function Directory(agents: seq<Agent>): map<string, Agent> {
    if agents == [] then map[] else Directory(agents[..|agents| - 1])[agents[|agents| - 1].name := agents[|agents| - 1]]
  }

  ghost predicate Mirrors(agents: seq<Agent>, m: map<string, Agent>) {
    && (forall i :: 0 <= i < |agents| ==> agents[i].name in m && m[agents[i].name] == agents[i])
    && (forall k :: k in m ==> exists i :: 0 <= i < |agents| && agents[i].name == k)
  }

  lemma MirrorsPush(front: seq<Agent>, m: map<string, Agent>, a: Agent)
    requires Mirrors(front, m) && a.name !in m
    ensures Mirrors(front + [a], m[a.name := a])
  {
    var agents, m' := front + [a], m[a.name := a];
    forall k | k in m'
      ensures exists i :: 0 <= i < |agents| && agents[i].name == k
    {
      if k in m {
        var i :| 0 <= i < |front| && front[i].name == k;
        assert agents[i].name == k;
      } else {
        assert agents[|front|].name == k;
      }
    }
  }

  lemma {:induction false} DirectoryHolds(agents: seq<Agent>)
    requires UniqueNames(agents)
    ensures Mirrors(agents, Directory(agents)) && |Directory(agents)| == |agents|
  {
    if agents != [] {
      var front, a := agents[..|agents| - 1], agents[|agents| - 1];
      DirectoryHolds(front);
      assert agents == front + [a];
      assert a.name !in Directory(front);
      MirrorsPush(front, Directory(front), a);
    }
  }

  /** A directory is known by its entries. */
  lemma SameDirectory(agents: seq<Agent>, m: map<string, Agent>)
    requires UniqueNames(agents)
    requires Mirrors(agents, m)
    ensures Directory(agents) == m
  {
    DirectoryHolds(agents);
  }

  lemma Replace(agents: seq<Agent>, i: nat, a: Agent)
    requires UniqueNames(agents) && i < |agents| && a.name == agents[i].name
    ensures UniqueNames(agents[i := a])
    ensures Directory(agents[i := a]) == Directory(agents)[a.name := a]
  {
    var after, dir := agents[i := a], Directory(agents)[a.name := a];
    DirectoryHolds(agents);
    forall k | k in dir
      ensures exists j :: 0 <= j < |after| && after[j].name == k
    {
      var j :| 0 <= j < |agents| && agents[j].name == k;
      assert after[j].name == k;
    }
    SameDirectory(after, dir);
  }

  lemma Extend(agents: seq<Agent>, a: Agent)
    requires UniqueNames(agents) && forall i :: 0 <= i < |agents| ==> agents[i].name != a.name
    ensures UniqueNames(agents + [a])
    ensures Directory(agents + [a]) == Directory(agents)[a.name := a]
  {
    assert (agents + [a])[..|agents|] == agents;
  }

  lemma Remove(agents: seq<Agent>, i: nat)
    requires UniqueNames(agents) && i < |agents|
    ensures var after := agents[i := agents[|agents| - 1]][..|agents| - 1];
            UniqueNames(after) && Directory(after) == Directory(agents) - {agents[i].name}
  {
    var n, name := |agents| - 1, agents[i].name;
    var after := agents[i := agents[n]][..n];
    DirectoryHolds(agents);
    assert forall j :: 0 <= j < n ==> after[j] == agents[if j == i then n else j];
    forall k | k in Directory(agents) - {name}
      ensures exists j :: 0 <= j < |after| && after[j].name == k
    {
      var j :| 0 <= j < |agents| && agents[j].name == k;
      assert after[if j == n then i else j] == agents[j];
    }
    SameDirectory(after, Directory(agents) - {name});
  }

  lemma KnownName(agents: seq<Agent>, name: string)
    requires UniqueNames(agents)
    ensures FirstWhere(agents, Named(name), 0).Some? <==> name in Directory(agents)
    ensures FirstWhere(agents, Named(name), 0).None? ==> forall i :: 0 <= i < |agents| ==> agents[i].name != name
  {
    DirectoryHolds(agents);
    var at := FirstWhere(agents, Named(name), 0);
    if at.Some? {
      assert Named(name)(agents[at.value]);
    } else {
      assert forall i :: 0 <= i < |agents| ==> !Named(name)(agents[i]);
    }
  }

  lemma RegisterRefines(agents: seq<Agent>, a: Agent, now: int)
    requires Sound(agents)
    ensures Sound(Registered(agents, a, now))
    ensures Directory(Registered(agents, a, now)) ==
              if a.name in Directory(agents) || |agents| < 64
              then Directory(agents)[a.name := a.(alive := true, heartbeat := now)]
              else Directory(agents)
  {
    KnownName(agents, a.name);
    var at := FirstWhere(agents, Named(a.name), 0);
    if at.Some? {
      Replace(agents, at.value, Online(a, now));
    } else if |agents| < MAX_AGENTS {
      Extend(agents, Online(a, now));
    }
  }

  lemma UnregisterRefines(agents: seq<Agent>, name: string)
    requires Sound(agents)
    ensures Sound(Unregistered(agents, name))
    ensures Directory(Unregistered(agents, name)) == Directory(agents) - {name}
    ensures |Unregistered(agents, name)| == if name in Directory(agents) then |agents| - 1 else |agents|
  {
    KnownName(agents, name);
    var at := FirstWhere(agents, Named(name), 0);
    if at.Some? {
      assert agents[at.value].name == name;
      Remove(agents, at.value);
      assert forall a :: a in Unregistered(agents, name) ==> a in agents;
    }
  }

  /** Slot by slot: a known agent is replaced where it stands, a new one comes last while there is room, and no other
      slot changes. */
  lemma RegisteredSlots(agents: seq<Agent>, a: Agent, now: int)
    requires Sound(agents)
    ensures var after := Registered(agents, a, now);
            var known := exists i :: 0 <= i < |agents| && agents[i].name == a.name;
            && |after| == (if known || |agents| >= 64 then |agents| else |agents| + 1)
            && (forall i :: 0 <= i < |agents| && agents[i].name != a.name ==> after[i] == agents[i])
            && (forall i :: 0 <= i < |agents| && agents[i].name == a.name
                  ==> after[i] == a.(alive := true, heartbeat := now))
            && (|after| > |agents| ==> after[|agents|] == a.(alive := true, heartbeat := now))
  {
    KnownName(agents, a.name);
  }

  /** Slot by slot: the last agent takes the slot of the one removed, and every other stays where it is. */
  lemma UnregisteredSlots(agents: seq<Agent>, name: string, at: nat)
    requires UniqueNames(agents) && at < |agents| && agents[at].name == name
    ensures var after, last := Unregistered(agents, name), |agents| - 1;
            && |after| == last && (at < last ==> after[at] == agents[last])
            && forall j :: 0 <= j < last && j != at ==> after[j] == agents[j]
  {
    KnownName(agents, name);
  }

  /** `a` is the first agent that is alive and offers the capability. */
  ghost predicate FirstOffering(agents: seq<Agent>, capability: string, a: Agent) {
    exists i :: 0 <= i < |agents| && agents[i] == a && a.alive && capability in a.capabilities
      && forall j :: 0 <= j < i ==> !(agents[j].alive && capability in agents[j].capabilities)
  }

  /** The agent found is the first live one that offers the capability. */
  lemma FirstIsFound(agents: seq<Agent>, capability: string)
    ensures forall a :: FirstOffering(agents, capability, a) <==> FindByCapability(agents, capability) == Some(a)
    ensures FindByCapability(agents, capability) == None <==>
              forall a :: a in agents && a.alive ==> capability !in a.capabilities
  {
    var at := FirstWhere(agents, Offers(capability), 0);
    assert forall i :: 0 <= i < |agents| ==>
      (Offers(capability)(agents[i]) <==> agents[i].alive && capability in agents[i].capabilities);
    if at.Some? {
      assert FirstOffering(agents, capability, agents[at.value]);
      assert agents[at.value] in agents;
    }
  }

  /** The agent found is held under its name, alive and offers the capability; none is found exactly when
      no live agent offers it. */
  lemma FoundAgentOffers(agents: seq<Agent>, capability: string)
    requires Sound(agents)
    ensures var found := FindByCapability(agents, capability);
            if found.Some? then
              && found.value.name in Directory(agents) && Directory(agents)[found.value.name] == found.value
              && found.value.alive && capability in found.value.capabilities
            else forall a :: a in agents && a.alive ==> capability !in a.capabilities
  {
    DirectoryHolds(agents);
    var at := FirstWhere(agents, Offers(capability), 0);
    if at.None? {
      forall a | a in agents && a.alive
        ensures capability !in a.capabilities
      {
        var i :| 0 <= i < |agents| && agents[i] == a;
        assert !Offers(capability)(agents[i]);
      }
    }
  }

  class AgentRegistry {
    const agents: array<Agent>
    var count: nat

    ghost predicate Valid()
      reads this, agents
    {
      agents.Length == MAX_AGENTS && count <= agents.Length && Sound(agents[..count])
    }

    ghost function Contents(): seq<Agent>
      requires Valid()
      reads this, agents
    {
      agents[..count]
    }

    constructor ()
      ensures Valid() && fresh(agents) && Contents() == []
    {
      agents := new Agent[MAX_AGENTS](_ => Agent("", "", "", [], false, 0));
      count := 0;
    }

    method IndexOf(name: string) returns (at: Option<nat>)
      requires Valid()
      ensures at == FirstWhere(Contents(), Named(name), 0)
    {
      for i := 0 to count
        invariant FirstWhere(Contents(), Named(name), i) == FirstWhere(Contents(), Named(name), 0)
      {
        if agents[i].name == name { return Some(i); }
      }
      return None;
    }

    method Register(a: Agent, now: int) returns (ok: bool)
      requires Valid()
      modifies this, agents
      ensures Valid() && Contents() == Registered(old(Contents()), a, now)
      ensures ok <==> a.name in Directory(old(Contents())) || |old(Contents())| < MAX_AGENTS
    {
      ghost var was := agents[..count];
      RegisterRefines(was, a, now);
      KnownName(was, a.name);
      var at := IndexOf(a.name);
      if at.Some? {
        agents[at.value] := a.(alive := true, heartbeat := now);
        assert agents[..count] == was[at.value := Online(a, now)];
        return true;
      }
      if count >= MAX_AGENTS { return false; }
      agents[count] := a.(alive := true, heartbeat := now);
      count := count + 1;
      assert agents[..count] == was + [Online(a, now)];
      return true;
    }

    method Unregister(name: string) returns (ok: bool)
      requires Valid()
      modifies this, agents
      ensures Valid() && Contents() == Unregistered(old(Contents()), name)
      ensures ok <==> name in Directory(old(Contents()))
    {
      ghost var was := agents[..count];
      UnregisterRefines(was, name);
      KnownName(was, name);
      var at := IndexOf(name);
      if at.None? { return false; }
      count := count - 1;
      agents[at.value] := agents[count];
      assert agents[..count] == Unregistered(was, name);
      return true;
    }

    method Find(capability: string) returns (r: Option<Agent>)
      requires Valid()
      ensures r == FindByCapability(Contents(), capability)
    {
      for i := 0 to count
        invariant FirstWhere(Contents(), Offers(capability), i) == FirstWhere(Contents(), Offers(capability), 0)
      {
        if !agents[i].alive { continue; }
        for j := 0 to |agents[i].capabilities|
          invariant forall k :: 0 <= k < j ==> agents[i].capabilities[k] != capability
        {
          if agents[i].capabilities[j] == capability {
            assert Offers(capability)(agents[i]);
            return Some(agents[i]);
          }
        }
      }
      return None;
    }
  }
}
