/** The policy store and its decision (components/policy-engine/policy/policy.c). */
module Policy {
  import opened CStrings
  import opened Scan
  import opened RuleTables

  const MAX_POLICIES: nat := 512

  datatype Action = Allow | Deny | AskUser

  datatype PolicyRule = PolicyRule(capability: string, agent: string, action: Action, priority: int, message: string)

  datatype Response = Response(action: Action, reason: string, matchedRule: string)

  type Fnmatch = (string, string) -> bool

  predicate MatchAgent(pattern: string, agent: string, fnmatch: Fnmatch) {
    pattern == "*" || pattern == agent || fnmatch(pattern, agent)
  }

  predicate MatchCapability(wanted: string, capability: string) {
    wanted == "*" || wanted == capability
  }

  predicate Applies(r: PolicyRule, agent: string, capability: string, fnmatch: Fnmatch): (applies: bool)
    ensures applies <==> r.capability in ["*", capability] && (r.agent in ["*", agent] || fnmatch(r.agent, agent))
  {
    MatchCapability(r.capability, capability) && MatchAgent(r.agent, agent, fnmatch)
  }

  function Key(r: PolicyRule, agent: string, capability: string, fnmatch: Fnmatch): Option<real> {
    if Applies(r, agent, capability, fnmatch) then Some(r.priority as real) else None
  }

  function Keys(rules: seq<PolicyRule>, agent: string, capability: string, fnmatch: Fnmatch): seq<Option<real>> {
    seq(|rules|, i requires 0 <= i < |rules| => Key(rules[i], agent, capability, fnmatch))
  }

  function RuleResponse(r: PolicyRule): Response {
    Response(r.action, Cut(r.message, 255), Cut("cap=" + r.capability + " agent=" + r.agent, 63))
  }

  function DefaultDeny(): Response {
    Response(Deny, "no matching policy rule", "")
  }

  function Decision(rules: seq<PolicyRule>, agent: string, capability: string, fnmatch: Fnmatch): Response {
    var best := FirstBest(Keys(rules, agent, capability, fnmatch), -1.0);
    if best.Some? then RuleResponse(rules[best.value]) else DefaultDeny()
  }

  // ---- properties ----

  /** `best` is the earliest rule of highest priority among those of non-negative priority that name this capability or
      every one, and this agent, every one, or a pattern of it. */
  ghost predicate Wins(rules: seq<PolicyRule>, agent: string, capability: string, fnmatch: Fnmatch, best: nat) {
    && best < |rules| && rules[best].priority >= 0
    && (rules[best].capability == "*" || rules[best].capability == capability)
    && (rules[best].agent == "*" || rules[best].agent == agent || fnmatch(rules[best].agent, agent))
    && forall j :: 0 <= j < |rules| && (rules[j].capability == "*" || rules[j].capability == capability)
                   && (rules[j].agent == "*" || rules[j].agent == agent || fnmatch(rules[j].agent, agent))
         ==> if j < best then rules[j].priority < rules[best].priority else rules[j].priority <= rules[best].priority
  }

  /** The one winner answers; there is none exactly when no such rule has a non-negative priority, and then the answer
      is deny. */
  lemma DecisionOfWinner(rules: seq<PolicyRule>, agent: string, capability: string, fnmatch: Fnmatch)
    ensures (exists best: nat :: Wins(rules, agent, capability, fnmatch, best)) <==>
              exists r :: r in rules && r.priority >= 0 && r.capability in ["*", capability]
                && (r.agent in ["*", agent] || fnmatch(r.agent, agent))
    ensures (forall best: nat :: !Wins(rules, agent, capability, fnmatch, best))
              ==> Decision(rules, agent, capability, fnmatch) == Response(Deny, "no matching policy rule", "")
    ensures forall best: nat :: Wins(rules, agent, capability, fnmatch, best)
              ==> var r := rules[best];
                  Decision(rules, agent, capability, fnmatch)
                    == Response(r.action, Cut(r.message, 255), Cut("cap=" + r.capability + " agent=" + r.agent, 63))
  {
    var keys := Keys(rules, agent, capability, fnmatch);
    FirstBestIsEarliestMaximum(keys, -1.0);
    assert forall i :: 0 <= i < |rules| ==> keys[i] == Key(rules[i], agent, capability, fnmatch);
    var best := FirstBest(keys, -1.0);
    if best.Some? {
      assert IsEarliestMaximum(keys, -1.0, best.value);
      assert Wins(rules, agent, capability, fnmatch, best.value);
      assert rules[best.value] in rules;
    }
    forall other: nat | Wins(rules, agent, capability, fnmatch, other)
      ensures Decision(rules, agent, capability, fnmatch) == RuleResponse(rules[other])
    {
      assert Applies(rules[other], agent, capability, fnmatch) && keys[other].value > -1.0;
      WinnerIsUnique(rules, agent, capability, fnmatch, best.value, other);
    }
  }

  lemma WinnerIsUnique(rules: seq<PolicyRule>, agent: string, capability: string, fnmatch: Fnmatch, a: nat, b: nat)
    requires Wins(rules, agent, capability, fnmatch, a) && Wins(rules, agent, capability, fnmatch, b)
    ensures a == b
  {
  }

  /** A rule about another capability, or about agents this one is not among, changes no decision wherever it stands. */
  lemma OthersRuleIgnored(before: seq<PolicyRule>, r: PolicyRule, after: seq<PolicyRule>, agent: string,
                          capability: string, fnmatch: Fnmatch)
    requires || (r.capability != "*" && r.capability != capability)
             || (r.agent != "*" && r.agent != agent && !fnmatch(r.agent, agent))
    ensures Decision(before + [r] + after, agent, capability, fnmatch)
         == Decision(before + after, agent, capability, fnmatch)
  {
    var a, b := Keys(before, agent, capability, fnmatch), Keys(after, agent, capability, fnmatch);
    assert Keys(before + [r] + after, agent, capability, fnmatch) == a + [None] + b;
    assert Keys(before + after, agent, capability, fnmatch) == a + b;
    NonCandidateIgnored(a, b, -1.0);
    var best := FirstBest(a + b, -1.0);
    if best.Some? {
      assert (before + [r] + after)[Moved(best, |before|).value] == (before + after)[best.value];
    }
  }

  /** No two different applying rules share a priority. */
  ghost predicate NoTies(rules: seq<PolicyRule>, agent: string, capability: string, fnmatch: Fnmatch) {
    forall i, j :: 0 <= i < |rules| && 0 <= j < |rules| && Applies(rules[i], agent, capability, fnmatch)
                   && Applies(rules[j], agent, capability, fnmatch) && rules[i].priority == rules[j].priority
                   ==> rules[i] == rules[j]
  }

  lemma SameWinner(rules: seq<PolicyRule>, other: seq<PolicyRule>, agent: string, capability: string, fnmatch: Fnmatch,
                   a: nat, b: nat)
    requires Wins(rules, agent, capability, fnmatch, a) && Wins(other, agent, capability, fnmatch, b)
    requires rules[a] in other && other[b] in rules
    requires NoTies(rules, agent, capability, fnmatch)
    ensures rules[a] == other[b]
  {
    var i :| 0 <= i < |other| && other[i] == rules[a];
    var j :| 0 <= j < |rules| && rules[j] == other[b];
    assert rules[a].priority == other[b].priority;
  }

  lemma SameMembers(rules: seq<PolicyRule>, other: seq<PolicyRule>)
    requires multiset(rules) == multiset(other)
    ensures forall r :: r in rules <==> r in other
  {
    assert forall r :: r in rules <==> r in multiset(rules);
    assert forall r :: r in other <==> r in multiset(other);
  }

  /** Without ties the order of the rules does not matter. */
  lemma OrderDoesNotMatter(rules: seq<PolicyRule>, other: seq<PolicyRule>, agent: string, capability: string,
                           fnmatch: Fnmatch)
    requires multiset(rules) == multiset(other)
    requires NoTies(rules, agent, capability, fnmatch)
    ensures Decision(rules, agent, capability, fnmatch) == Decision(other, agent, capability, fnmatch)
  {
    SameMembers(rules, other);
    DecisionOfWinner(rules, agent, capability, fnmatch);
    DecisionOfWinner(other, agent, capability, fnmatch);
    if exists r :: r in rules && Applies(r, agent, capability, fnmatch) && r.priority >= 0 {
      var a: nat :| Wins(rules, agent, capability, fnmatch, a);
      var b: nat :| Wins(other, agent, capability, fnmatch, b);
      assert rules[a] in rules && other[b] in other;
      SameWinner(rules, other, agent, capability, fnmatch, a, b);
    }
  }

  /** A rule appended behind a winner of at least its priority changes nothing; nor does one that does
      not apply, or has a negative priority. */
  lemma WeakerRuleChangesNothing(rules: seq<PolicyRule>, r: PolicyRule, agent: string, capability: string,
                                 fnmatch: Fnmatch)
    requires !Applies(r, agent, capability, fnmatch) || r.priority < 0
             || exists s :: s in rules && Applies(s, agent, capability, fnmatch) && s.priority >= r.priority
    ensures Decision(rules + [r], agent, capability, fnmatch) == Decision(rules, agent, capability, fnmatch)
  {
    var keys := Keys(rules, agent, capability, fnmatch);
    var key := Key(r, agent, capability, fnmatch);
    FirstBestIsEarliestMaximum(keys, -1.0);
    assert Keys(rules + [r], agent, capability, fnmatch) == keys + [key];
    assert forall i :: 0 <= i < |rules| ==> keys[i] == Key(rules[i], agent, capability, fnmatch);
    var best := FirstBest(keys, -1.0);
    if best.Some? {
      assert IsEarliestMaximum(keys, -1.0, best.value);
    }
    if Applies(r, agent, capability, fnmatch) && r.priority >= 0 {
      var s :| s in rules && Applies(s, agent, capability, fnmatch) && s.priority >= r.priority;
      var i :| 0 <= i < |rules| && rules[i] == s;
      assert keys[i] == Some(s.priority as real);
    }
    AppendKeepsBest(keys, -1.0, key);
  }

  /** A rule appended above every applying rule answers from then on. */
  lemma StrongerRuleDecides(rules: seq<PolicyRule>, r: PolicyRule, agent: string, capability: string, fnmatch: Fnmatch)
    requires Applies(r, agent, capability, fnmatch) && r.priority >= 0
    requires forall s :: s in rules && Applies(s, agent, capability, fnmatch) ==> s.priority < r.priority
    ensures Decision(rules + [r], agent, capability, fnmatch) == RuleResponse(r)
  {
    var all := rules + [r];
    assert forall j :: 0 <= j < |rules| ==> all[j] == rules[j] && all[j] in rules;
    assert Wins(all, agent, capability, fnmatch, |rules|);
    DecisionOfWinner(all, agent, capability, fnmatch);
  }

  // ---- the store ----

  class PolicyStore {
    const rules: array<PolicyRule>
    var count: nat

    ghost predicate Valid()
      reads this
    {
      rules.Length == MAX_POLICIES && count <= rules.Length
    }

    ghost function Contents(): seq<PolicyRule>
      requires Valid()
      reads this, rules
    {
      rules[..count]
    }

    constructor ()
      ensures Valid() && fresh(rules) && Contents() == []
    {
      rules := new PolicyRule[MAX_POLICIES](_ => PolicyRule("", "", Deny, 0, ""));
      count := 0;
    }

    method AddRule(rule: PolicyRule) returns (added: bool)
      requires Valid()
      modifies this, rules
      ensures Valid()
      ensures added <==> |old(Contents())| < 512
      ensures Contents() == Append(old(Contents()), rule, MAX_POLICIES)
    {
      if count >= MAX_POLICIES { return false; }
      rules[count] := rule;
      count := count + 1;
      return true;
    }

    /** A reload forgets every rule, those added at run time too, and loads the files' rules up to capacity. */
    method Reload(files: seq<PolicyRule>)
      requires Valid()
      modifies this, rules
      ensures Valid()
      ensures Contents() == AppendAll([], files, MAX_POLICIES)
    {
      count := 0;
      for i := 0 to |files|
        invariant Valid()
        invariant AppendAll(Contents(), files[i..], MAX_POLICIES) == AppendAll([], files, MAX_POLICIES)
      {
        assert files[i..][1..] == files[i + 1..];
        var added := AddRule(files[i]);
      }
      AppendAllTakesWhatFits([], files, MAX_POLICIES);
    }

    method Check(agent: string, capability: string, fnmatch: Fnmatch) returns (resp: Response)
      requires Valid()
      ensures resp == Decision(Contents(), agent, capability, fnmatch)
    {
      resp := Response(Deny, "no matching policy rule", "");
      var best, bestPriority := -1, -1;
      ghost var keys := Keys(Contents(), agent, capability, fnmatch);
      for i := 0 to count
        invariant Scanned(keys, i, -1.0, best, bestPriority as real)
      {
        ScanOne(keys, i, -1.0, best, bestPriority as real);
        var r := rules[i];
        if !MatchCapability(r.capability, capability) && r.capability != "*" { continue; }
        if !MatchAgent(r.agent, agent, fnmatch) { continue; }
        if r.priority > bestPriority {
          best := i;
          bestPriority := r.priority;
        }
      }
      ScanAll(keys, -1.0, best, bestPriority as real);
      if best >= 0 {
        resp := RuleResponse(rules[best]);
      }
    }
  }
}
