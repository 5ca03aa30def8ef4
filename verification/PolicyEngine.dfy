/** The policy engine: policies by priority, the first matching rule decides, nothing matching denies, and compiled
    conditions are kept in a table. */
module PolicyEngine {
  import opened Wrappers
  import opened Ordering
  import opened Texts
  import opened Conditions
  import opened Values

  datatype DecisionKind = Allow | Deny | RequireApproval

  datatype Rule = Rule(id: string, action: string, condition: Option<string>, decision: DecisionKind, environments: seq<string>, agents: seq<string>,
                       role: Option<string>)

  datatype Policy = Policy(id: string, enabled: bool, priority: int, rules: seq<Rule>, builtin: bool)

  datatype Agent = Agent(id: string, tools: seq<string>)

  datatype Request = Request(tool: string, action: string, task: string, args: map<string, Value>)

  datatype Situation = Situation(environment: string, agent: Option<Agent>, risk: string, enterprise: map<string, Value>,
                                 security: map<string, Value>, extra: map<string, Value>)

  datatype Decision = Decision(kind: DecisionKind, policy: Option<string>, rule: Option<string>, role: Option<string>)

  /** A condition language: its evaluator, which gives no value on an error, and its parser. */
  datatype Language = Language(evaluate: (Expr, Context) -> Option<bool>, parse: string -> Option<Expr>)

  /** The language of `Conditions` over the host's operations. */
  function ConditionLanguage(lib: Library, parse: string -> Option<Expr>): Language {
    Language((e, ctx) => Evaluate(lib, e, ctx), parse)
  }

  // ---- matching -------------------------------------------------------------------

  function PolicyAction(request: Request): string {
    if request.action == "" then request.tool else request.action
  }

  predicate MatchesAction(rule: Rule, request: Request) {
    var pattern := Stripped(if rule.action == "" then "*" else rule.action);
    var action := PolicyAction(request);
    || pattern == "*" || pattern == "" || pattern == action
    || (EndsWith(pattern, ".*") && StartsWith(action, pattern[..|pattern| - 1]))
    || (StartsWith(pattern, "*") && EndsWith(action, pattern[1..]))
  }

  /** A pattern without a star means that action; one that ends in `.*` every action below it; one that begins with a
      star every action that ends so. */
  lemma PatternMeaning(rule: Rule, request: Request, stem: string)
    requires stem != "" && '*' !in stem
    ensures var pattern, action := Stripped(rule.action), PolicyAction(request);
      && (pattern == stem ==> (MatchesAction(rule, request) <==> action == stem))
      && (pattern == stem + ".*" ==> (MatchesAction(rule, request) <==> StartsWith(action, stem + ".")))
      && (pattern == "*" + stem ==> (MatchesAction(rule, request) <==> EndsWith(action, stem)))
  {
    var pattern, action := Stripped(rule.action), PolicyAction(request);
    assert rule.action == "" ==> pattern == "";
    if pattern == stem {
      NoStarInside(pattern);
    } else if pattern == stem + ".*" {
      assert pattern[..|pattern| - 1] == stem + ".";
      assert pattern[0] == stem[0] && stem[0] in stem;
    } else if pattern == "*" + stem {
      assert pattern[1..] == stem && pattern[|pattern| - 1] == stem[|stem| - 1] && stem[|stem| - 1] in stem;
    }
  }

  lemma NoStarInside(pattern: string)
    requires pattern != "" && '*' !in pattern
    ensures pattern != "*" && !EndsWith(pattern, ".*") && !StartsWith(pattern, "*")
  {
    assert pattern[0] in pattern && pattern[|pattern| - 1] in pattern;
  }

  predicate AllowsTool(agent: Agent, tool: string) {
    || agent.tools == []
    || exists pattern <- agent.tools ::
         pattern == tool || (EndsWith(pattern, ".*") && StartsWith(tool, pattern[..|pattern| - 1])) || pattern == "*"
  }

  predicate Concerns(rule: Rule, request: Request, s: Situation) {
    && MatchesAction(rule, request)
    && (rule.environments == [] || s.environment in rule.environments)
    && (rule.agents == [] || (s.agent.Some? && s.agent.value.id in rule.agents))
  }

  // ---- facts ----------------------------------------------------------------------

  const RESERVED: set<string> := {"environment", "agent", "risk", "tool", "action"}

  function Setting(settings: map<string, Value>, key: string, default: string): Value {
    if key in settings then settings[key] else Text(default)
  }

  function Ground(request: Request, s: Situation): Context {
    map[
      "tool" := Text(request.tool), "action" := Text(PolicyAction(request)), "environment" := Text(s.environment),
      "agent" := if s.agent.Some? then Text(s.agent.value.id) else Null, "risk" := Text(s.risk), "task_id" := Text(request.task),
      "external_ai" := Setting(s.enterprise, "external_ai", "allowed"), "data_residency" := Setting(s.enterprise, "data_residency", "local")]
    + s.security + s.extra
  }

  /** What conditions can see; arguments come last, but never in place of a reserved name. */
  function Facts(request: Request, s: Situation): Context {
    Ground(request, s) + (request.args - RESERVED) + map["args" := Dict(request.args)]
  }

  /** Whatever the arguments say, the reserved facts are the same. */
  lemma ArgumentsCannotForge(request: Request, s: Situation, args: map<string, Value>, key: string)
    requires key in RESERVED
    ensures key in Facts(request, s) && Facts(request.(args := args), s)[key] == Facts(request, s)[key]
  {
    var forged := request.(args := args);
    assert Ground(forged, s) == Ground(request, s);
    assert key in Ground(request, s) && key != "args";
    assert Facts(request, s)[key] == Ground(request, s)[key];
    assert Facts(forged, s)[key] == Ground(forged, s)[key];
  }

  // ---- the decision, without a table ------------------------------------------------

  function Source(condition: Option<string>): string {
    if condition == None || condition == Some("") then "true" else condition.value
  }

  function Compiled(language: Language, rule: Rule): Option<Expr> {
    language.parse(Stripped(Source(rule.condition)))
  }

  function ConditionError(p: Policy, r: Rule): Decision {
    Decision(Deny, Some(p.id), Some(r.id), None)
  }

  /** What a rule says once its condition is compiled: nothing, its decision, or a denial when the condition fails. */
  function Says(language: Language, p: Policy, r: Rule, compiled: Option<Expr>, request: Request, s: Situation): Option<Decision> {
    if !Concerns(r, request, s) then None
    else if compiled == None then Some(ConditionError(p, r))
    else
      match language.evaluate(compiled.value, Facts(request, s))
      case None => Some(ConditionError(p, r))
      case Some(holds) => if holds then Some(Decision(r.decision, Some(p.id), Some(r.id), r.role)) else None
  }

  function RuleSays(language: Language, p: Policy, r: Rule, request: Request, s: Situation): Option<Decision> {
    Says(language, p, r, Compiled(language, r), request, s)
  }

  /** What each rule of the policy says. */
  function Sayings(language: Language, p: Policy, request: Request, s: Situation): (said: seq<Option<Decision>>)
    ensures |said| == |p.rules|
  {
    seq(|p.rules|, i requires 0 <= i < |p.rules| => RuleSays(language, p, p.rules[i], request, s))
  }

  function FirstSaid(said: seq<Option<Decision>>): Option<Decision> {
    if said == [] then None
    else
      var before := FirstSaid(said[..|said| - 1]);
      if before.Some? then before else said[|said| - 1]
  }

  function PolicySays(language: Language, p: Policy, request: Request, s: Situation): Option<Decision> {
    if p.enabled then FirstSaid(Sayings(language, p, request, s)) else None
  }

  function PoliciesSay(language: Language, policies: seq<Policy>, request: Request, s: Situation): Option<Decision> {
    if policies == [] then None
    else
      var before := PoliciesSay(language, policies[..|policies| - 1], request, s);
      if before.Some? then before else PolicySays(language, policies[|policies| - 1], request, s)
  }

  /** Higher priority first, then by id. */
  predicate PolicyLe(a: Policy, b: Policy) {
    a.priority > b.priority || (a.priority == b.priority && TextLe(a.id, b.id))
  }

  const DEFAULT_DENY := Decision(Deny, None, None, None)

  function NotAllowed(agent: Agent): Decision {
    Decision(Deny, Some(agent.id), Some("agent-allowlist"), None)
  }

  function Decided(language: Language, policies: seq<Policy>, request: Request, s: Situation): Decision {
    if s.agent.Some? && !AllowsTool(s.agent.value, request.tool) then NotAllowed(s.agent.value)
    else
      var said := PoliciesSay(language, Sort(policies, PolicyLe), request, s);
      if said.Some? then said.value else DEFAULT_DENY
  }

  // ---- managing policies ------------------------------------------------------------

  function Others(policies: seq<Policy>, id: string): seq<Policy> {
    if policies == [] then []
    else Others(policies[..|policies| - 1], id) + if policies[|policies| - 1].id == id then [] else [policies[|policies| - 1]]
  }

  lemma {:induction false} OthersAreTheOthers(policies: seq<Policy>, id: string)
    ensures |Others(policies, id)| <= |policies| && forall q :: q in Others(policies, id) <==> q in policies && q.id != id
  {
    if policies != [] {
      OthersAreTheOthers(policies[..|policies| - 1], id);
      assert policies == policies[..|policies| - 1] + [policies[|policies| - 1]];
    }
  }

  lemma PolicyLeIsTotalPreorder()
    ensures TotalPreorder(PolicyLe)
  {
    forall x: Policy, y: Policy ensures PolicyLe(x, y) || PolicyLe(y, x) { TextLeIsTotal(x.id, y.id); }
    forall x: Policy, y: Policy, z: Policy | PolicyLe(x, y) && PolicyLe(y, z) ensures PolicyLe(x, z) {
      if x.priority == y.priority == z.priority { TextLeIsTransitive(x.id, y.id, z.id); }
    }
  }

  lemma SortKeepsPolicies(policies: seq<Policy>)
    ensures var sorted := Sort(policies, PolicyLe);
      Sorted(sorted, PolicyLe) && |sorted| == |policies| && forall q :: q in sorted <==> q in policies
  {
    var sorted := Sort(policies, PolicyLe);
    PolicyLeIsTotalPreorder();
    SortSorts(policies, PolicyLe);
    assert |multiset(sorted)| == |sorted| && |multiset(policies)| == |policies|;
    forall q ensures q in sorted <==> q in policies { assert q in multiset(sorted) <==> q in multiset(policies); }
  }

  function Added(policies: seq<Policy>, p: Policy, replace: bool): seq<Policy> {
    Sort((if replace then Others(policies, p.id) else policies) + [p], PolicyLe)
  }

  function Builtin(policies: seq<Policy>): seq<Policy> {
    if policies == [] then []
    else Builtin(policies[..|policies| - 1]) + if policies[|policies| - 1].builtin then [policies[|policies| - 1]] else []
  }

  /** A later policy takes the place of an earlier one with its id. */
  function Put(policies: seq<Policy>, p: Policy): seq<Policy> {
    if policies == [] then [p]
    else if policies[0].id == p.id then [p] + policies[1..]
    else [policies[0]] + Put(policies[1..], p)
  }

  function Merged(policies: seq<Policy>): seq<Policy> {
    if policies == [] then [] else Put(Merged(policies[..|policies| - 1]), policies[|policies| - 1])
  }

  function Replaced(policies: seq<Policy>, installed: seq<Policy>): seq<Policy> {
    Sort(Merged(Builtin(policies) + installed), PolicyLe)
  }

  // ---- the engine ---------------------------------------------------------------------

  function Shown(condition: Option<string>): string {
    if condition == None then "None" else condition.value
  }

  /** Under what a compiled condition is kept. */
  function Key(rule: Rule): string {
    rule.id + ":" + Shown(rule.condition)
  }

  /** What the table gives for the rule, compiled now if it is not there. */
  function Recalled(language: Language, table: map<string, Expr>, rule: Rule): Option<Expr> {
    if Key(rule) in table then Some(table[Key(rule)]) else Compiled(language, rule)
  }

  function Kept(language: Language, table: map<string, Expr>, rule: Rule): map<string, Expr> {
    if Key(rule) in table || Compiled(language, rule) == None then table else table[Key(rule) := Compiled(language, rule).value]
  }

  datatype Answer = Answer(said: Option<Decision>, table: map<string, Expr>)

  /** One rule asked with the table: the table is touched only when the rule concerns the request. */
  function AskRule(language: Language, table: map<string, Expr>, p: Policy, r: Rule, request: Request, s: Situation): Answer {
    if !Concerns(r, request, s) then Answer(None, table)
    else Answer(Says(language, p, r, Recalled(language, table, r), request, s), Kept(language, table, r))
  }

  function AskRules(language: Language, table: map<string, Expr>, p: Policy, n: nat, request: Request, s: Situation): Answer
    requires n <= |p.rules|
  {
    if n == 0 then Answer(None, table)
    else
      var before := AskRules(language, table, p, n - 1, request, s);
      if before.said.Some? then before else AskRule(language, before.table, p, p.rules[n - 1], request, s)
  }

  function AskPolicies(language: Language, table: map<string, Expr>, policies: seq<Policy>, request: Request, s: Situation): Answer {
    if policies == [] then Answer(None, table)
    else
      var before := AskPolicies(language, table, policies[..|policies| - 1], request, s);
      var p := policies[|policies| - 1];
      if before.said.Some? || !p.enabled then before else AskRules(language, before.table, p, |p.rules|, request, s)
  }

  datatype State = State(policies: seq<Policy>, table: map<string, Expr>)

  datatype Asked = Asked(decision: Decision, state: State)

  function AskEngine(language: Language, engine: State, request: Request, s: Situation): Asked {
    if s.agent.Some? && !AllowsTool(s.agent.value, request.tool) then Asked(NotAllowed(s.agent.value), engine)
    else
      var answer := AskPolicies(language, engine.table, Sort(engine.policies, PolicyLe), request, s);
      Asked(if answer.said.Some? then answer.said.value else DEFAULT_DENY, engine.(table := answer.table))
  }

  class Engine {
    const language: Language
    var policies: seq<Policy>
    var table: map<string, Expr>

    function Current(): State
      reads this
    {
      State(policies, table)
    }

    constructor (language: Language, policies: seq<Policy>)
      ensures this.language == language && Current() == State(policies, map[])
    {
      this.language, this.policies, this.table := language, policies, map[];
    }

    /** The new policy, and the old ones except, when replacing, those with its id; in the order in which they decide. */
    method AddPolicy(p: Policy, replace: bool)
      modifies this
      ensures Current() == State(Added(old(policies), p, replace), old(table))
      ensures forall q :: q in policies <==> q == p || (q in old(policies) && (replace ==> q.id != p.id))
      ensures Sorted(policies, PolicyLe) && |policies| <= |old(policies)| + 1 && (!replace ==> |policies| == |old(policies)| + 1)
    {
      if replace {
        var others := [];
        for i := 0 to |policies|
          invariant others == Others(policies[..i], p.id) && Current() == old(Current())
        {
          assert policies[..i + 1][..i] == policies[..i];
          if policies[i].id != p.id { others := others + [policies[i]]; }
        }
        assert policies[..|policies|] == policies;
        policies := others;
      }
      OthersAreTheOthers(old(policies), p.id);
      SortKeepsPolicies(policies + [p]);
      policies := Sort(policies + [p], PolicyLe);
    }

    method SetPolicies(installed: seq<Policy>)
      modifies this
      ensures Current() == State(Replaced(old(policies), installed), old(table))
    {
      var all, merged := Builtin(policies) + installed, [];
      for i := 0 to |all|
        invariant merged == Merged(all[..i])
        invariant Current() == old(Current())
      {
        assert all[..i + 1][..i] == all[..i];
        merged := Put(merged, all[i]);
      }
      assert all[..|all|] == all;
      policies := Sort(merged, PolicyLe);
    }

    method Condition(rule: Rule) returns (compiled: Option<Expr>)
      modifies this
      ensures compiled == Recalled(language, old(table), rule)
      ensures Current() == State(old(policies), Kept(language, old(table), rule))
    {
      var key := Key(rule);
      if key in table { return Some(table[key]); }
      compiled := Compiled(language, rule);
      if compiled.Some? { table := table[key := compiled.value]; }
    }

    method AskOne(p: Policy, request: Request, s: Situation) returns (said: Option<Decision>)
      modifies this
      ensures Answer(said, table) == AskRules(language, old(table), p, |p.rules|, request, s)
      ensures policies == old(policies)
    {
      said := None;
      var i := 0;
      while i < |p.rules| && said == None
        invariant i <= |p.rules| && policies == old(policies)
        invariant Answer(said, table) == AskRules(language, old(table), p, i, request, s)
      {
        if Concerns(p.rules[i], request, s) {
          var compiled := Condition(p.rules[i]);
          said := Says(language, p, p.rules[i], compiled, request, s);
        }
        i := i + 1;
      }
      AskedEnough(language, old(table), p, i, |p.rules|, request, s);
    }

    method Evaluate(request: Request, s: Situation) returns (decision: Decision)
      modifies this
      ensures Asked(decision, Current()) == AskEngine(language, old(Current()), request, s)
    {
      if s.agent.Some? && !AllowsTool(s.agent.value, request.tool) { return NotAllowed(s.agent.value); }
      var sorted := Sort(policies, PolicyLe);
      var said: Option<Decision> := None;
      for i := 0 to |sorted|
        invariant policies == old(policies)
        invariant Answer(said, table) == AskPolicies(language, old(table), sorted[..i], request, s)
      {
        assert sorted[..i + 1][..i] == sorted[..i];
        if said == None && sorted[i].enabled { said := AskOne(sorted[i], request, s); }
      }
      assert sorted[..|sorted|] == sorted;
      decision := if said.Some? then said.value else DEFAULT_DENY;
    }
  }

  /** Once a rule has spoken, the rest are not asked. */
  lemma {:induction false} AskedEnough(language: Language, table: map<string, Expr>, p: Policy, i: nat, n: nat, request: Request, s: Situation)
    requires i <= n <= |p.rules| && (i == n || AskRules(language, table, p, i, request, s).said.Some?)
    ensures AskRules(language, table, p, n, request, s) == AskRules(language, table, p, i, request, s)
    decreases n - i
  {
    if i < n {
      assert AskRules(language, table, p, i + 1, request, s) == AskRules(language, table, p, i, request, s);
      AskedEnough(language, table, p, i + 1, n, request, s);
    }
  }
}
