/** The table of compiled conditions: when answering with it is answering without it. */
module PolicyTable {
  import opened Wrappers
  import opened Ordering
  import opened Texts
  import opened Conditions
  import opened Values
  import opened PolicyEngine
  import opened PolicyRuns

  /** What the table holds for the rule, if anything, is the rule's own condition. */
  predicate Truthful(language: Language, table: map<string, Expr>, rule: Rule) {
    Key(rule) in table ==> Compiled(language, rule) == Some(table[Key(rule)])
  }

  ghost predicate TruthfulFor(language: Language, table: map<string, Expr>, rules: set<Rule>) {
    forall r <- rules :: Truthful(language, table, r)
  }

  /** Rules kept under the same key have the same condition. */
  ghost predicate NoCollision(language: Language, rules: set<Rule>) {
    forall r <- rules, q <- rules :: Key(r) == Key(q) ==> Compiled(language, r) == Compiled(language, q)
  }

  ghost predicate RulesAmong(policies: seq<Policy>, rules: set<Rule>) {
    forall p <- policies :: PolicyRulesAmong(p, rules)
  }

  ghost predicate PolicyRulesAmong(p: Policy, rules: set<Rule>) {
    forall i :: 0 <= i < |p.rules| ==> p.rules[i] in rules
  }

  // ---- asking with a truthful table ---------------------------------------------------

  lemma KeptIsTruthful(language: Language, table: map<string, Expr>, rules: set<Rule>, r: Rule)
    requires NoCollision(language, rules) && TruthfulFor(language, table, rules) && r in rules
    ensures TruthfulFor(language, Kept(language, table, r), rules) && Recalled(language, table, r) == Compiled(language, r)
  {
    assert Truthful(language, table, r);
    forall q | q in rules ensures Truthful(language, Kept(language, table, r), q) {
      assert Truthful(language, table, q);
    }
  }

  lemma AskRuleTruthfully(language: Language, table: map<string, Expr>, rules: set<Rule>, p: Policy, r: Rule, request: Request, s: Situation)
    requires NoCollision(language, rules) && TruthfulFor(language, table, rules) && r in rules
    ensures var answer := AskRule(language, table, p, r, request, s);
      TruthfulFor(language, answer.table, rules) && answer.said == RuleSays(language, p, r, request, s)
  {
    KeptIsTruthful(language, table, rules, r);
  }

  lemma FirstSaidMore(said: seq<Option<Decision>>, n: nat)
    requires 0 < n <= |said|
    ensures FirstSaid(said[..n]) == if FirstSaid(said[..n - 1]).Some? then FirstSaid(said[..n - 1]) else said[n - 1]
  {
    assert said[..n][..n - 1] == said[..n - 1];
  }

  lemma {:induction false} AskRulesTruthfully(language: Language, table: map<string, Expr>, rules: set<Rule>, p: Policy, n: nat, request: Request, s: Situation)
    requires NoCollision(language, rules) && TruthfulFor(language, table, rules) && n <= |p.rules| && PolicyRulesAmong(p, rules)
    ensures var answer := AskRules(language, table, p, n, request, s);
      TruthfulFor(language, answer.table, rules) && answer.said == FirstSaid(Sayings(language, p, request, s)[..n])
  {
    if n > 0 {
      AskRulesTruthfully(language, table, rules, p, n - 1, request, s);
      AskRuleTruthfully(language, AskRules(language, table, p, n - 1, request, s).table, rules, p, p.rules[n - 1], request, s);
      FirstSaidMore(Sayings(language, p, request, s), n);
    }
  }

  lemma {:induction false} AskPoliciesTruthfully(language: Language, table: map<string, Expr>, rules: set<Rule>, policies: seq<Policy>, request: Request, s: Situation)
    requires NoCollision(language, rules) && TruthfulFor(language, table, rules) && RulesAmong(policies, rules)
    ensures var answer := AskPolicies(language, table, policies, request, s);
      TruthfulFor(language, answer.table, rules) && answer.said == PoliciesSay(language, policies, request, s)
  {
    if policies != [] {
      var before, p := policies[..|policies| - 1], policies[|policies| - 1];
      AskPoliciesTruthfully(language, table, rules, before, request, s);
      assert PolicyRulesAmong(p, rules);
      AskRulesTruthfully(language, AskPolicies(language, table, before, request, s).table, rules, p, |p.rules|, request, s);
      var said := Sayings(language, p, request, s);
      assert said[..|p.rules|] == said;
    }
  }

  lemma AskTruthfully(language: Language, engine: State, rules: set<Rule>, request: Request, s: Situation)
    requires NoCollision(language, rules) && TruthfulFor(language, engine.table, rules)
    requires UniqueIds(engine.policies) && RulesAmong(engine.policies, rules)
    ensures var asked := AskEngine(language, engine, request, s);
      TruthfulFor(language, asked.state.table, rules) && asked.decision == Decided(language, engine.policies, request, s)
  {
    SortKeepsUnique(engine.policies);
    AskPoliciesTruthfully(language, engine.table, rules, Sort(engine.policies, PolicyLe), request, s);
  }

  // ---- runs -----------------------------------------------------------------------------

  datatype Op = Add(p: Policy) | Set(installed: seq<Policy>) | Ask(request: Request, s: Situation)

  function Apply(language: Language, engine: State, op: Op): State {
    match op
    case Add(p) => engine.(policies := Added(engine.policies, p, true))
    case Set(installed) => engine.(policies := Replaced(engine.policies, installed))
    case Ask(request, s) => AskEngine(language, engine, request, s).state
  }

  function Run(language: Language, engine: State, ops: seq<Op>): State {
    if ops == [] then engine else Apply(language, Run(language, engine, ops[..|ops| - 1]), ops[|ops| - 1])
  }

  /** Every rule the operation brings in is among the given ones. */
  ghost predicate OpAmong(op: Op, rules: set<Rule>) {
    match op
    case Add(p) => PolicyRulesAmong(p, rules)
    case Set(installed) => RulesAmong(installed, rules)
    case Ask(_, _) => true
  }

  lemma {:induction false} BuiltinAreAmong(policies: seq<Policy>)
    ensures forall q <- Builtin(policies) :: q in policies
  {
    if policies != [] { BuiltinAreAmong(policies[..|policies| - 1]); }
  }

  ghost predicate Sound(language: Language, engine: State, rules: set<Rule>) {
    && UniqueIds(engine.policies) && RulesAmong(engine.policies, rules) && TruthfulFor(language, engine.table, rules)
  }

  lemma OpKeepsSound(language: Language, engine: State, rules: set<Rule>, op: Op)
    requires NoCollision(language, rules) && Sound(language, engine, rules) && OpAmong(op, rules)
    ensures Sound(language, Apply(language, engine, op), rules)
  {
    match op
    case Add(p) => AddedKeepsUnique(engine.policies, p);
    case Set(installed) =>
      ReplacedIsUnique(engine.policies, installed);
      BuiltinAreAmong(engine.policies);
      forall q | q in Replaced(engine.policies, installed) ensures PolicyRulesAmong(q, rules) {
        assert q in Builtin(engine.policies) + installed;
      }
    case Ask(request, s) => AskTruthfully(language, engine, rules, request, s);
  }

  /** The engine's state after the operations keeps ids unique and the table truthful. */
  lemma {:induction false} RunKeepsSound(language: Language, engine: State, rules: set<Rule>, ops: seq<Op>)
    requires NoCollision(language, rules) && Sound(language, engine, rules) && forall op <- ops :: OpAmong(op, rules)
    ensures Sound(language, Run(language, engine, ops), rules)
  {
    if ops != [] {
      RunKeepsSound(language, engine, rules, ops[..|ops| - 1]);
      OpKeepsSound(language, Run(language, engine, ops[..|ops| - 1]), rules, ops[|ops| - 1]);
    }
  }

  /** After any run from an empty table, with no colliding rules, the answer is the one given without a table. */
  lemma AnswersAreTableFree(language: Language, policies: seq<Policy>, rules: set<Rule>, ops: seq<Op>, request: Request, s: Situation)
    requires NoCollision(language, rules) && UniqueIds(policies) && RulesAmong(policies, rules) && forall op <- ops :: OpAmong(op, rules)
    ensures var engine := Run(language, State(policies, map[]), ops);
      UniqueIds(engine.policies) && AskEngine(language, engine, request, s).decision == Decided(language, engine.policies, request, s)
  {
    RunKeepsSound(language, State(policies, map[]), rules, ops);
    AskTruthfully(language, Run(language, State(policies, map[]), ops), rules, request, s);
  }

  // ---- exactly when the table is truthful -----------------------------------------------

  /** A question every rule can be asked: its own pattern as the action, one of its environments, one of its agents. */
  function QuestionFor(r: Rule): Request {
    var pattern := Stripped(if r.action == "" then "*" else r.action);
    Request(pattern, "", "", map[])
  }

  function SituationFor(r: Rule): Situation {
    Situation(if r.environments == [] then "" else r.environments[0], if r.agents == [] then None else Some(Agent(r.agents[0], [])),
              "", map[], map[], map[])
  }

  function Alone(r: Rule): Policy {
    Policy("", true, 0, [r], false)
  }

  lemma InstalledAlone(p: Policy)
    ensures Replaced([], [p]) == [p]
  {
    assert Builtin([]) + [p] == [p] && Merged([p][..0]) == [];
    assert Put([], p) == [p] && Merged([p]) == [p];
    assert Sort([p][1..], PolicyLe) == [];
  }

  lemma RunOfTwo(language: Language, engine: State, first: Op, second: Op)
    ensures Run(language, engine, [first, second]) == Apply(language, Apply(language, engine, first), second)
  {
    assert [first, second][..1] == [first] && [first][..0] == [];
    assert Run(language, engine, [first]) == Apply(language, engine, first);
  }

  /** Installing one rule alone and asking about it fills the table with its condition. */
  lemma AskedAlone(language: Language, r: Rule)
    requires Compiled(language, r).Some?
    ensures Run(language, State([], map[]), [Set([Alone(r)]), Ask(QuestionFor(r), SituationFor(r))]).table == map[Key(r) := Compiled(language, r).value]
  {
    RunOfTwo(language, State([], map[]), Set([Alone(r)]), Ask(QuestionFor(r), SituationFor(r)));
    InstalledAlone(Alone(r));
    AloneIsAsked(language, r);
  }

  lemma AloneIsAsked(language: Language, r: Rule)
    requires Compiled(language, r).Some?
    ensures AskEngine(language, State([Alone(r)], map[]), QuestionFor(r), SituationFor(r)).state.table == map[Key(r) := Compiled(language, r).value]
  {
    var p, request, s := Alone(r), QuestionFor(r), SituationFor(r);
    assert Sort([p][1..], PolicyLe) == [] && Sort([p], PolicyLe) == [p];
    assert AskPolicies(language, map[], [p][..0], request, s) == Answer(None, map[]);
    assert AskRules(language, map[], p, 0, request, s) == Answer(None, map[]);
    assert Concerns(r, request, s);
    assert AskRules(language, map[], p, 1, request, s).table == Kept(language, map[], r);
  }

  ghost predicate AlwaysTruthful(language: Language, rules: set<Rule>) {
    forall ops: seq<Op> :: (forall op <- ops :: OpAmong(op, rules)) ==> TruthfulFor(language, Run(language, State([], map[]), ops).table, rules)
  }

  /** Over all runs that only ever use the given rules, the table never gives one rule another's condition exactly when
      no two of them collide. */
  lemma TableIsTruthfulIff(language: Language, rules: set<Rule>)
    ensures AlwaysTruthful(language, rules) <==> NoCollision(language, rules)
  {
    if NoCollision(language, rules) {
      forall ops: seq<Op> | forall op <- ops :: OpAmong(op, rules)
        ensures TruthfulFor(language, Run(language, State([], map[]), ops).table, rules)
      {
        RunKeepsSound(language, State([], map[]), rules, ops);
      }
    } else {
      var r, q :| r in rules && q in rules && Key(r) == Key(q) && Compiled(language, r) != Compiled(language, q);
      if Compiled(language, r).Some? { CollisionIsServed(language, rules, r, q); } else { CollisionIsServed(language, rules, q, r); }
    }
  }

  lemma AskingAloneIsAmong(rules: set<Rule>, r: Rule)
    requires r in rules
    ensures forall op <- [Set([Alone(r)]), Ask(QuestionFor(r), SituationFor(r))] :: OpAmong(op, rules)
  {
    assert PolicyRulesAmong(Alone(r), rules);
    assert RulesAmong([Alone(r)], rules);
  }

  lemma CollisionIsServed(language: Language, rules: set<Rule>, r: Rule, q: Rule)
    requires r in rules && q in rules && Key(r) == Key(q) && Compiled(language, r).Some? && Compiled(language, r) != Compiled(language, q)
    ensures !AlwaysTruthful(language, rules)
  {
    var ops := [Set([Alone(r)]), Ask(QuestionFor(r), SituationFor(r))];
    AskedAlone(language, r);
    AskingAloneIsAmong(rules, r);
    assert !Truthful(language, map[Key(r) := Compiled(language, r).value], q);
    assert !TruthfulFor(language, Run(language, State([], map[]), ops).table, rules);
  }

  // ---- when keys collide ------------------------------------------------------------------

  /** The longer id is the shorter one, a colon and some text, and that text begins the shorter id's condition. */
  predicate Overlaps(shorter: Rule, longer: Rule) {
    var n := |shorter.id|;
    && n < |longer.id| && longer.id[..n] == shorter.id && longer.id[n] == ':'
    && Shown(shorter.condition) == longer.id[n + 1..] + ":" + Shown(longer.condition)
  }

  /** Two different (id, condition) pairs share a key exactly when the ids are the same and one condition is missing while
      the other is the text None, or one id reaches over the colon into the other rule's condition. */
  lemma KeysCollideIff(r: Rule, q: Rule)
    ensures Key(r) == Key(q) && (r.id != q.id || r.condition != q.condition) <==>
      || (r.id == q.id && ((r.condition == None && q.condition == Some("None")) || (q.condition == None && r.condition == Some("None"))))
      || Overlaps(r, q) || Overlaps(q, r)
  {
    if |r.id| == |q.id| {
      SameLengthIds(r, q);
    } else if |r.id| < |q.id| {
      KeysOverlapIff(r, q);
    } else {
      KeysOverlapIff(q, r);
    }
  }

  lemma SameLengthIds(r: Rule, q: Rule)
    requires |r.id| == |q.id|
    ensures Key(r) == Key(q) <==> r.id == q.id && Shown(r.condition) == Shown(q.condition)
  {
    var n, s, t := |r.id|, Key(r), Key(q);
    assert s[..n] == r.id && t[..n] == q.id;
    assert s[n + 1..] == Shown(r.condition) && t[n + 1..] == Shown(q.condition);
  }

  lemma KeysOverlapIff(r: Rule, q: Rule)
    requires |r.id| < |q.id|
    ensures Key(r) == Key(q) <==> Overlaps(r, q)
  {
    var n, s, t := |r.id|, Key(r), Key(q);
    assert s[..n] == r.id && s[n] == ':' && s[n + 1..] == Shown(r.condition);
    assert t[..n] == q.id[..n] && t[n] == q.id[n];
    assert t[n + 1..] == q.id[n + 1..] + ":" + Shown(q.condition);
    assert s == s[..n] + [s[n]] + s[n + 1..];
    assert t == t[..n] + [t[n]] + t[n + 1..];
  }

  /** With ids free of colons only a missing condition and the text None collide. */
  lemma KeysWithoutColonsCollideIff(r: Rule, q: Rule)
    requires ':' !in r.id && ':' !in q.id
    ensures Key(r) == Key(q) && (r.id != q.id || r.condition != q.condition) <==>
      r.id == q.id && ((r.condition == None && q.condition == Some("None")) || (q.condition == None && r.condition == Some("None")))
  {
    KeysCollideIff(r, q);
    OverlapNeedsAColon(r, q);
    OverlapNeedsAColon(q, r);
  }

  lemma OverlapNeedsAColon(shorter: Rule, longer: Rule)
    ensures Overlaps(shorter, longer) ==> ':' in longer.id
  {
    if Overlaps(shorter, longer) { assert longer.id[|shorter.id|] in longer.id; }
  }

  /** The ids a and a:b, the conditions b:c and c. */
  lemma ColonsCollide(r: Rule, q: Rule)
    requires r.id == "a" && r.condition == Some("b:c") && q.id == "a:b" && q.condition == Some("c")
    ensures Key(r) == Key(q)
  {
    assert Key(r) == "a:b:c" == Key(q);
  }
}
