/** What the policy engine decides, said without its own steps: the first decisive rule answers, and a rule is decisive when
    it concerns the request and its condition held or failed. */
module PolicyMeaning {
  import opened Wrappers
  import opened Ordering
  import opened Texts
  import opened Conditions
  import opened Values
  import opened PolicyEngine
  import PolicyRuns

  // ---- which rules concern a request ------------------------------------------------

  /** The pattern is the name, a star, or a stem that ends in `.` followed by a star. */
  ghost predicate NamesTool(pattern: string, tool: string) {
    pattern == tool || pattern == "*" || exists stem :: pattern == stem + ".*" && stem + "." <= tool
  }

  ghost predicate MayUse(s: Situation, tool: string) {
    s.agent.Some? && s.agent.value.tools != [] ==> exists pattern <- s.agent.value.tools :: NamesTool(pattern, tool)
  }

  ghost predicate EndsSo(action: string, suffix: string) {
    exists front :: action == front + suffix
  }

  /** As for tools; no pattern at all means every action, and a pattern may begin with its star. */
  ghost predicate NamesAction(pattern: string, action: string) {
    NamesTool(pattern, action) || pattern == "" || exists suffix :: pattern == "*" + suffix && EndsSo(action, suffix)
  }

  ghost predicate Applies(r: Rule, request: Request, s: Situation) {
    && NamesAction(Stripped(r.action), if request.action == "" then request.tool else request.action)
    && (r.environments != [] ==> s.environment in r.environments)
    && (r.agents != [] ==> s.agent.Some? && s.agent.value.id in r.agents)
  }

  lemma StemIff(pattern: string, name: string)
    ensures EndsWith(pattern, ".*") && StartsWith(name, pattern[..|pattern| - 1]) <==> exists stem :: pattern == stem + ".*" && stem + "." <= name
  {
    if EndsWith(pattern, ".*") && StartsWith(name, pattern[..|pattern| - 1]) {
      var stem := pattern[..|pattern| - 2];
      assert pattern == stem + ".*";
      assert pattern[..|pattern| - 1] == stem + ".";
    }
    if stem :| pattern == stem + ".*" && stem + "." <= name {
      assert pattern[|pattern| - 2..] == ".*";
      assert pattern[..|pattern| - 1] == stem + ".";
    }
  }

  lemma SuffixIff(pattern: string, action: string)
    ensures StartsWith(pattern, "*") && EndsWith(action, pattern[1..]) <==> exists suffix :: pattern == "*" + suffix && EndsSo(action, suffix)
  {
    if StartsWith(pattern, "*") && EndsWith(action, pattern[1..]) {
      assert pattern == "*" + pattern[1..];
      assert action == action[..|action| - |pattern[1..]|] + pattern[1..];
      assert EndsSo(action, pattern[1..]);
    }
    if suffix :| pattern == "*" + suffix && EndsSo(action, suffix) {
      var front :| action == front + suffix;
      assert pattern[1..] == suffix && pattern[..1] == "*";
      assert action[|action| - |suffix|..] == suffix;
    }
  }

  /** A rule concerns a request exactly when its pattern names the action, and its environments and agents, if it has any,
      hold the situation's. */
  lemma ConcernsIffApplies(r: Rule, request: Request, s: Situation)
    ensures Concerns(r, request, s) <==> Applies(r, request, s)
  {
    var pattern, action := Stripped(r.action), PolicyAction(request);
    assert Stripped("*") == "*" && Stripped("") == "";
    StemIff(pattern, action);
    SuffixIff(pattern, action);
  }

  lemma AllowsToolIff(agent: Agent, tool: string)
    ensures AllowsTool(agent, tool) <==> agent.tools == [] || exists pattern <- agent.tools :: NamesTool(pattern, tool)
  {
    forall pattern | pattern in agent.tools
      ensures NamesTool(pattern, tool) <==>
        pattern == tool || (EndsWith(pattern, ".*") && StartsWith(tool, pattern[..|pattern| - 1])) || pattern == "*"
    {
      StemIff(pattern, tool);
    }
  }

  // ---- what conditions see -------------------------------------------------------------

  /** What the engine itself knows, by name. */
  ghost predicate Known(request: Request, s: Situation, name: string, v: Option<Value>) {
    if name == "tool" then v == Some(Text(request.tool))
    else if name == "action" then v == Some(Text(if request.action == "" then request.tool else request.action))
    else if name == "environment" then v == Some(Text(s.environment))
    else if name == "agent" then v == Some(if s.agent.Some? then Text(s.agent.value.id) else Null)
    else if name == "risk" then v == Some(Text(s.risk))
    else if name == "task_id" then v == Some(Text(request.task))
    else if name == "external_ai" then v == Some(if name in s.enterprise then s.enterprise[name] else Text("allowed"))
    else if name == "data_residency" then v == Some(if name in s.enterprise then s.enterprise[name] else Text("local"))
    else v == None
  }

  /** The fact by that name: the whole of the arguments; a request's argument, unless the name is reserved; what the
      situation adds; what security says; or what the engine itself knows. */
  ghost predicate SeenAs(request: Request, s: Situation, name: string, v: Option<Value>) {
    if name == "args" then v == Some(Dict(request.args))
    else if name in request.args && name !in {"environment", "agent", "risk", "tool", "action"} then v == Some(request.args[name])
    else if name in s.extra then v == Some(s.extra[name])
    else if name in s.security then v == Some(s.security[name])
    else Known(request, s, name, v)
  }

  function FactNamed(facts: Context, name: string): Option<Value> {
    if name in facts then Some(facts[name]) else None
  }

  lemma EachKnownFact(request: Request, s: Situation, name: string)
    requires name !in s.extra && name !in s.security
    ensures Known(request, s, name, FactNamed(Ground(request, s), name))
  {
  }

  /** Every name means this to a condition. */
  lemma EachFactIsSeen(request: Request, s: Situation, name: string)
    ensures SeenAs(request, s, name, FactNamed(Facts(request, s), name))
  {
    var ground := Ground(request, s);
    if name !in s.extra && name !in s.security { EachKnownFact(request, s, name); }
    assert name in s.extra ==> FactNamed(ground, name) == Some(s.extra[name]);
    assert name !in s.extra && name in s.security ==> FactNamed(ground, name) == Some(s.security[name]);
    FactOverGround(ground, request.args, name);
  }

  lemma FactOverGround(ground: Context, args: map<string, Value>, name: string)
    ensures
      var facts := ground + (args - RESERVED) + map["args" := Dict(args)];
      FactNamed(facts, name) ==
        if name == "args" then Some(Dict(args))
        else if name in args && name !in {"environment", "agent", "risk", "tool", "action"} then Some(args[name])
        else FactNamed(ground, name)
  {
  }

  // ---- decisive rules --------------------------------------------------------------------

  /** The condition's text: nothing is always true. */
  ghost predicate Reads(r: Rule, text: string) {
    if r.condition in {None, Some("")} then text == "true" else text == Stripped(r.condition.value)
  }

  ghost predicate ConditionIs(language: Language, r: Rule, request: Request, s: Situation, outcome: Option<bool>) {
    exists text :: Reads(r, text) &&
      outcome == if language.parse(text).Some? then language.evaluate(language.parse(text).value, Facts(request, s)) else None
  }

  /** The rule applies and its condition held, or could not be read or evaluated. */
  ghost predicate Decisive(language: Language, r: Rule, request: Request, s: Situation) {
    Applies(r, request, s) && !ConditionIs(language, r, request, s, Some(false))
  }

  /** What a decisive rule decides: its own decision when its condition held, a denial when it failed. */
  ghost predicate Gives(language: Language, p: Policy, r: Rule, request: Request, s: Situation, d: Decision) {
    if ConditionIs(language, r, request, s, Some(true)) then d == Decision(r.decision, Some(p.id), Some(r.id), r.role)
    else d == Decision(Deny, Some(p.id), Some(r.id), None)
  }

  lemma ConditionIsRead(language: Language, r: Rule, request: Request, s: Situation, outcome: Option<bool>)
    ensures
      var compiled := Compiled(language, r);
      ConditionIs(language, r, request, s, outcome) <==>
        outcome == if compiled.Some? then language.evaluate(compiled.value, Facts(request, s)) else None
  {
    WordIsStripped("true");
    assert Reads(r, Stripped(Source(r.condition)));
  }

  lemma SaysIffDecisive(language: Language, p: Policy, r: Rule, request: Request, s: Situation)
    ensures RuleSays(language, p, r, request, s).Some? <==> Decisive(language, r, request, s)
    ensures Decisive(language, r, request, s) ==> Gives(language, p, r, request, s, RuleSays(language, p, r, request, s).value)
  {
    ConcernsIffApplies(r, request, s);
    ConditionIsRead(language, r, request, s, Some(true));
    ConditionIsRead(language, r, request, s, Some(false));
  }

  // ---- the first decisive rule --------------------------------------------------------------

  /** Higher priority first, then by id, then by position in the policy. */
  predicate Before(p: Policy, k: nat, q: Policy, l: nat) {
    p.priority > q.priority || (p.priority == q.priority && ((p.id != q.id && TextLe(p.id, q.id)) || (p == q && k < l)))
  }

  ghost predicate DecisiveAt(language: Language, policies: seq<Policy>, p: Policy, k: nat, request: Request, s: Situation) {
    p in policies && p.enabled && k < |p.rules| && Decisive(language, p.rules[k], request, s)
  }

  /** Rule `k` of `p` is decisive and comes before every other that is. */
  ghost predicate First(language: Language, policies: seq<Policy>, p: Policy, k: nat, request: Request, s: Situation) {
    && DecisiveAt(language, policies, p, k, request, s)
    && forall q, l: nat :: DecisiveAt(language, policies, q, l, request, s) ==> (q == p && l == k) || Before(p, k, q, l)
  }

  lemma QuietIffNoneDecisive(language: Language, policies: seq<Policy>, q: Policy, n: nat, request: Request, s: Situation)
    requires q in policies && q.enabled && n <= |q.rules|
    ensures PolicyRuns.Quiet(language, q, n, request, s) <==> forall l: nat :: l < n ==> !DecisiveAt(language, policies, q, l, request, s)
  {
    var said := Sayings(language, q, request, s);
    forall l: nat | l < n ensures said[l] == None <==> !DecisiveAt(language, policies, q, l, request, s) {
      SaysIffDecisive(language, q, q.rules[l], request, s);
    }
  }

  lemma DistinctPoliciesCompare(policies: seq<Policy>, p: Policy, q: Policy)
    requires PolicyRuns.UniqueIds(policies) && p in policies && q in policies && p != q
    ensures p.id != q.id && (PolicyLe(p, q) || PolicyLe(q, p)) && !(PolicyLe(p, q) && PolicyLe(q, p))
  {
    var i :| 0 <= i < |policies| && policies[i] == p;
    var j :| 0 <= j < |policies| && policies[j] == q;
    TextLeIsTotal(p.id, q.id);
    if PolicyLe(p, q) && PolicyLe(q, p) { PolicyRuns.TiedAreSame(policies, p, q); }
  }

  /** Whoever comes first decides, in the terms of the engine. */
  lemma FirstDecides(language: Language, policies: seq<Policy>, p: Policy, k: nat, request: Request, s: Situation)
    requires PolicyRuns.UniqueIds(policies) && First(language, policies, p, k, request, s)
    ensures RuleSays(language, p, p.rules[k], request, s).Some?
    ensures PolicyRuns.Decides(language, policies, p, k, RuleSays(language, p, p.rules[k], request, s).value, request, s)
  {
    SaysIffDecisive(language, p, p.rules[k], request, s);
    QuietIffNoneDecisive(language, policies, p, k, request, s);
    forall q | q in policies && q != p && PolicyLe(q, p) ensures PolicyRuns.Silent(language, q, request, s) {
      DistinctPoliciesCompare(policies, p, q);
      if q.enabled { QuietIffNoneDecisive(language, policies, q, |q.rules|, request, s); }
    }
  }

  /** The first decisive rule decides: its own decision when its condition held, a denial when it failed. */
  lemma FirstDecisiveDecides(language: Language, policies: seq<Policy>, p: Policy, k: nat, request: Request, s: Situation)
    requires PolicyRuns.UniqueIds(policies) && MayUse(s, request.tool) && First(language, policies, p, k, request, s)
    ensures Gives(language, p, p.rules[k], request, s, Decided(language, policies, request, s))
  {
    if s.agent.Some? { AllowsToolIff(s.agent.value, request.tool); }
    FirstDecides(language, policies, p, k, request, s);
    var d := RuleSays(language, p, p.rules[k], request, s).value;
    PolicyRuns.UnforestalledDecides(language, policies, p, k, d, request, s);
    SaysIffDecisive(language, p, p.rules[k], request, s);
  }

  lemma DecidesIsFirst(language: Language, policies: seq<Policy>, p: Policy, k: nat, d: Decision, request: Request, s: Situation)
    requires PolicyRuns.UniqueIds(policies) && PolicyRuns.Decides(language, policies, p, k, d, request, s)
    ensures First(language, policies, p, k, request, s)
  {
    SaysIffDecisive(language, p, p.rules[k], request, s);
    QuietIffNoneDecisive(language, policies, p, k, request, s);
    forall q, l: nat | DecisiveAt(language, policies, q, l, request, s) ensures (q == p && l == k) || Before(p, k, q, l) {
      if q != p {
        DistinctPoliciesCompare(policies, p, q);
        if PolicyLe(q, p) { QuietIffNoneDecisive(language, policies, q, |q.rules|, request, s); }
      }
    }
  }

  /** The default denial is the answer exactly when no rule is decisive; otherwise one comes first. */
  lemma DefaultIffNoneDecisive(language: Language, policies: seq<Policy>, request: Request, s: Situation)
    requires PolicyRuns.UniqueIds(policies) && MayUse(s, request.tool)
    ensures Decided(language, policies, request, s) == Decision(Deny, None, None, None) <==>
      forall p, k: nat :: !DecisiveAt(language, policies, p, k, request, s)
    ensures (exists p, k: nat :: DecisiveAt(language, policies, p, k, request, s)) ==> exists p, k: nat :: First(language, policies, p, k, request, s)
  {
    if s.agent.Some? { AllowsToolIff(s.agent.value, request.tool); }
    PolicyRuns.DecidedByTheFirst(language, policies, request, s);
    var d := Decided(language, policies, request, s);
    if p, k: nat :| PolicyRuns.Decides(language, policies, p, k, d, request, s) {
      DecidesIsFirst(language, policies, p, k, d, request, s);
      FirstDecisiveDecides(language, policies, p, k, request, s);
    } else {
      forall p, k: nat ensures !DecisiveAt(language, policies, p, k, request, s) {
        if p in policies && p.enabled && k < |p.rules| { QuietIffNoneDecisive(language, policies, p, |p.rules|, request, s); }
      }
    }
  }

  /** An agent's allowlist comes before everything. */
  lemma AllowlistDenies(language: Language, policies: seq<Policy>, request: Request, s: Situation)
    requires !MayUse(s, request.tool)
    ensures s.agent.Some? && Decided(language, policies, request, s) == Decision(Deny, Some(s.agent.value.id), Some("agent-allowlist"), None)
  {
    AllowsToolIff(s.agent.value, request.tool);
  }

  // ---- what is installed ---------------------------------------------------------------

  lemma {:induction false} BuiltinAre(policies: seq<Policy>)
    requires PolicyRuns.UniqueIds(policies)
    ensures PolicyRuns.UniqueIds(Builtin(policies)) && forall q :: q in Builtin(policies) <==> q in policies && q.builtin
  {
    if policies != [] {
      var before, last := policies[..|policies| - 1], policies[|policies| - 1];
      BuiltinAre(before);
      assert policies == before + [last];
      forall q | q in before ensures q.id != last.id {
        var j :| 0 <= j < |before| && before[j] == q;
        assert policies[j] == q;
      }
    }
  }

  /** Installing leaves, in the order in which they decide, the last installed policy of each id, and the built-in policies whose
      id is not among them. */
  lemma InstalledAre(policies: seq<Policy>, installed: seq<Policy>)
    requires PolicyRuns.UniqueIds(policies)
    ensures var all := Replaced(policies, installed);
      && PolicyRuns.UniqueIds(all) && Sorted(all, PolicyLe)
      && forall q :: q in all <==> PolicyRuns.LastWithId(installed, q) || (q in policies && q.builtin && forall p <- installed :: p.id != q.id)
  {
    BuiltinAre(policies);
    PolicyRuns.ReplacedIsUnique(policies, installed);
    PolicyLeIsTotalPreorder();
    SortSorts(Merged(Builtin(policies) + installed), PolicyLe);
    forall q ensures PolicyRuns.LastWithId(Builtin(policies) + installed, q) <==>
      PolicyRuns.LastWithId(installed, q) || (q in policies && q.builtin && forall p <- installed :: p.id != q.id)
    {
      LastOfTwo(Builtin(policies), installed, q);
    }
  }

  lemma LastOfTwo(a: seq<Policy>, b: seq<Policy>, q: Policy)
    requires PolicyRuns.UniqueIds(a)
    ensures PolicyRuns.LastWithId(a + b, q) <==> PolicyRuns.LastWithId(b, q) || (q in a && forall p <- b :: p.id != q.id)
  {
    if PolicyRuns.LastWithId(a + b, q) { LastIsInOne(a, b, q); }
    if PolicyRuns.LastWithId(b, q) { LastOfSecond(a, b, q); }
    if q in a && forall p <- b :: p.id != q.id { OnlyInFirst(a, b, q); }
  }

  lemma LastIsInOne(a: seq<Policy>, b: seq<Policy>, q: Policy)
    requires PolicyRuns.LastWithId(a + b, q)
    ensures PolicyRuns.LastWithId(b, q) || (q in a && forall p <- b :: p.id != q.id)
  {
    var all, n := a + b, |a|;
    var i :| 0 <= i < |all| && all[i] == q && forall j :: i < j < |all| ==> all[j].id != q.id;
    if i >= n {
      assert b[i - n] == q && forall j :: i - n < j < |b| ==> b[j] == all[n + j];
    } else {
      forall p | p in b ensures p.id != q.id {
        var j :| 0 <= j < |b| && b[j] == p;
        assert all[n + j] == p;
      }
    }
  }

  lemma LastOfSecond(a: seq<Policy>, b: seq<Policy>, q: Policy)
    requires PolicyRuns.LastWithId(b, q)
    ensures PolicyRuns.LastWithId(a + b, q)
  {
    var all, n := a + b, |a|;
    var i :| 0 <= i < |b| && b[i] == q && forall j :: i < j < |b| ==> b[j].id != q.id;
    assert all[n + i] == q && forall j :: n + i < j < |all| ==> all[j] == b[j - n];
  }

  lemma OnlyInFirst(a: seq<Policy>, b: seq<Policy>, q: Policy)
    requires PolicyRuns.UniqueIds(a) && q in a && forall p <- b :: p.id != q.id
    ensures PolicyRuns.LastWithId(a + b, q)
  {
    var all, n := a + b, |a|;
    var i :| 0 <= i < n && a[i] == q;
    assert all[i] == q;
    forall j | i < j < |all| ensures all[j].id != q.id {
      if j < n { assert all[j] == a[j]; } else { assert all[j] == b[j - n] && b[j - n] in b; }
    }
  }
}
