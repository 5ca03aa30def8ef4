/** What the policy engine answers after any sequence of changes and questions. */
module PolicyRuns {
  import opened Wrappers
  import opened Ordering
  import opened Conditions
  import opened Values
  import opened ConditionFacts
  import opened Texts
  import opened PolicyEngine

  predicate UniqueIds(policies: seq<Policy>) {
    forall i, j :: 0 <= i < j < |policies| ==> policies[i].id != policies[j].id
  }

  // ---- ids stay unique ----------------------------------------------------------------

  lemma {:induction false} InsertKeepsUnique(p: Policy, s: seq<Policy>)
    requires UniqueIds(s) && forall q <- s :: q.id != p.id
    ensures UniqueIds(Insert(p, s, PolicyLe)) && forall q :: q in Insert(p, s, PolicyLe) <==> q == p || q in s
  {
    if s != [] && !PolicyLe(p, s[0]) {
      InsertKeepsUnique(p, s[1..]);
      assert s == [s[0]] + s[1..];
      forall q | q in s[1..] ensures q.id != s[0].id {
        var j :| 0 < j < |s| && s[j] == q;
      }
    }
  }

  /** Sorting keeps exactly the policies there are, under unique ids. */
  lemma {:induction false} SortKeepsUnique(s: seq<Policy>)
    requires UniqueIds(s)
    ensures UniqueIds(Sort(s, PolicyLe)) && forall q :: q in Sort(s, PolicyLe) <==> q in s
  {
    if s != [] {
      SortKeepsUnique(s[1..]);
      assert s == [s[0]] + s[1..];
      forall q | q in s[1..] ensures q.id != s[0].id {
        var j :| 0 < j < |s| && s[j] == q;
      }
      InsertKeepsUnique(s[0], Sort(s[1..], PolicyLe));
    }
  }

  lemma {:induction false} OthersAre(policies: seq<Policy>, id: string)
    requires UniqueIds(policies)
    ensures UniqueIds(Others(policies, id)) && forall q :: q in Others(policies, id) <==> q in policies && q.id != id
  {
    if policies != [] {
      var n := |policies| - 1;
      OthersAre(policies[..n], id);
      assert policies == policies[..n] + [policies[n]];
      forall q | q in policies[..n] ensures q.id != policies[n].id {
        var j :| 0 <= j < n && policies[j] == q;
      }
    }
  }

  /** Adding with replacement leaves unique ids: the new policy, and the others that do not carry its id. */
  lemma AddedKeepsUnique(policies: seq<Policy>, p: Policy)
    requires UniqueIds(policies)
    ensures UniqueIds(Added(policies, p, true))
    ensures forall q :: q in Added(policies, p, true) <==> q == p || (q in policies && q.id != p.id)
  {
    OthersAre(policies, p.id);
    SortKeepsUnique(Others(policies, p.id) + [p]);
  }

  lemma {:induction false} PutKeepsUnique(policies: seq<Policy>, p: Policy)
    requires UniqueIds(policies)
    ensures UniqueIds(Put(policies, p)) && forall q :: q in Put(policies, p) <==> q == p || (q in policies && q.id != p.id)
  {
    if policies != [] {
      assert policies == [policies[0]] + policies[1..];
      forall q | q in policies[1..] ensures q.id != policies[0].id {
        var j :| 0 < j < |policies| && policies[j] == q;
      }
      if policies[0].id != p.id { PutKeepsUnique(policies[1..], p); }
    }
  }

  /** The policy is in the list and none after it carries its id. */
  ghost predicate LastWithId(policies: seq<Policy>, q: Policy) {
    exists i :: 0 <= i < |policies| && policies[i] == q && forall j :: i < j < |policies| ==> policies[j].id != q.id
  }

  lemma LastGrows(policies: seq<Policy>, p: Policy, q: Policy)
    ensures LastWithId(policies + [p], q) <==> q == p || (LastWithId(policies, q) && q.id != p.id)
  {
    var all, n := policies + [p], |policies|;
    if LastWithId(all, q) && q != p {
      var i :| 0 <= i < |all| && all[i] == q && forall j :: i < j < |all| ==> all[j].id != q.id;
      assert all[n].id != q.id;
      assert policies[i] == q && forall j :: i < j < n ==> policies[j] == all[j];
    }
    if q == p { assert all[n] == q; }
    if LastWithId(policies, q) && q.id != p.id {
      var i :| 0 <= i < n && policies[i] == q && forall j :: i < j < n ==> policies[j].id != q.id;
      assert all[i] == q && forall j :: i < j < n ==> all[j] == policies[j];
    }
  }

  /** Merging leaves, for each id, the last policy that carries it, whatever was merged. */
  lemma {:induction false} MergedAreTheLast(policies: seq<Policy>)
    ensures UniqueIds(Merged(policies)) && forall q :: q in Merged(policies) <==> LastWithId(policies, q)
  {
    if policies != [] {
      var before, p := policies[..|policies| - 1], policies[|policies| - 1];
      MergedAreTheLast(before);
      PutKeepsUnique(Merged(before), p);
      assert policies == before + [p];
      forall q ensures q in Merged(policies) <==> LastWithId(policies, q) {
        LastGrows(before, p, q);
      }
    }
  }

  lemma ReplacedIsUnique(policies: seq<Policy>, installed: seq<Policy>)
    ensures UniqueIds(Replaced(policies, installed))
    ensures forall q :: q in Replaced(policies, installed) <==> LastWithId(Builtin(policies) + installed, q)
  {
    MergedAreTheLast(Builtin(policies) + installed);
    SortKeepsUnique(Merged(Builtin(policies) + installed));
  }

  // ---- the first match -----------------------------------------------------------------

  lemma TiedAreSame(policies: seq<Policy>, x: Policy, y: Policy)
    requires UniqueIds(policies) && x in policies && y in policies && PolicyLe(x, y) && PolicyLe(y, x)
    ensures x == y
  {
    TextLeIsAntisymmetric(x.id, y.id);
    var i :| 0 <= i < |policies| && policies[i] == x;
    var j :| 0 <= j < |policies| && policies[j] == y;
  }

  lemma UniqueIdsDoNotTie(policies: seq<Policy>)
    requires UniqueIds(policies)
    ensures NoTies(policies, PolicyLe)
  {
    forall x, y | x in policies && y in policies && PolicyLe(x, y) && PolicyLe(y, x) ensures x == y {
      TiedAreSame(policies, x, y);
    }
  }

  /** The order in which policies were added does not matter. */
  lemma DecisionIgnoresOrder(language: Language, a: seq<Policy>, b: seq<Policy>, request: Request, s: Situation)
    requires UniqueIds(a) && multiset(a) == multiset(b)
    ensures Decided(language, a, request, s) == Decided(language, b, request, s)
  {
    PolicyLeIsTotalPreorder();
    UniqueIdsDoNotTie(a);
    SortOfSame(a, b, PolicyLe);
  }

  /** None of the first `n` rules says anything. */
  predicate Quiet(language: Language, p: Policy, n: nat, request: Request, s: Situation) {
    NoneSaid(Sayings(language, p, request, s), n)
  }

  predicate NoneSaid(said: seq<Option<Decision>>, n: nat) {
    forall i :: 0 <= i < n && i < |said| ==> said[i] == None
  }

  /** No rule of the policy says anything, or the policy is switched off. */
  predicate Silent(language: Language, p: Policy, request: Request, s: Situation) {
    !p.enabled || Quiet(language, p, |p.rules|, request, s)
  }

  /** Rule `k` of `p` says `d`; nothing before it in the policy, and no policy that comes before it, says anything. */
  predicate Decides(language: Language, policies: seq<Policy>, p: Policy, k: nat, d: Decision, request: Request, s: Situation) {
    && p in policies && p.enabled && k < |p.rules| && Sayings(language, p, request, s)[k] == Some(d)
    && Quiet(language, p, k, request, s)
    && forall q <- policies :: q != p && PolicyLe(q, p) ==> Silent(language, q, request, s)
  }

  /** Where the first answer stands; past the end when there is none. */
  lemma {:induction false} FirstSaidAt(said: seq<Option<Decision>>) returns (k: nat)
    ensures k <= |said| && NoneSaid(said, k)
    ensures FirstSaid(said).Some? <==> k < |said|
    ensures k < |said| ==> said[k] == FirstSaid(said)
  {
    if said == [] { return 0; }
    k := FirstSaidAt(said[..|said| - 1]);
    if k == |said| - 1 && said[k].None? { k := |said|; }
  }

  lemma {:induction false} PoliciesSayFirst(language: Language, policies: seq<Policy>, request: Request, s: Situation) returns (i: nat)
    ensures var said := PoliciesSay(language, policies, request, s);
      if said.None? then forall q <- policies :: Silent(language, q, request, s)
      else i < |policies| && PolicySays(language, policies[i], request, s) == said && AllSilent(language, policies[..i], request, s)
  {
    if policies == [] { return 0; }
    var before, p := policies[..|policies| - 1], policies[|policies| - 1];
    i := PoliciesSayFirst(language, before, request, s);
    if PoliciesSay(language, before, request, s).Some? {
      assert before[..i] == policies[..i];
    } else {
      assert policies == before + [p];
      var _ := FirstSaidAt(Sayings(language, p, request, s));
      i := |before|;
    }
  }

  predicate AllSilent(language: Language, policies: seq<Policy>, request: Request, s: Situation) {
    forall q <- policies :: Silent(language, q, request, s)
  }

  /** The answer is the one rule's that no earlier rule, by priority and then id, forestalls. */
  lemma DecidedByTheFirst(language: Language, policies: seq<Policy>, request: Request, s: Situation)
    requires UniqueIds(policies) && (s.agent.Some? ==> AllowsTool(s.agent.value, request.tool))
    ensures
      var d := Decided(language, policies, request, s);
      || (exists p, k :: Decides(language, policies, p, k, d, request, s))
      || (d == DEFAULT_DENY && forall q <- policies :: Silent(language, q, request, s))
  {
    var sorted := Sort(policies, PolicyLe);
    SortKeepsUnique(policies);
    PolicyLeIsTotalPreorder();
    SortSorts(policies, PolicyLe);
    var i := PoliciesSayFirst(language, sorted, request, s);
    if PoliciesSay(language, sorted, request, s).Some? {
      var d, p := PoliciesSay(language, sorted, request, s).value, sorted[i];
      var k := FirstSaidAt(Sayings(language, p, request, s));
      forall q | q in policies && q != p && PolicyLe(q, p) ensures Silent(language, q, request, s) {
        EarlierInOrder(policies, sorted, i, q);
      }
      assert Decides(language, policies, p, k, d, request, s);
    }
  }

  lemma EarlierInOrder(policies: seq<Policy>, sorted: seq<Policy>, i: nat, q: Policy)
    requires Sorted(sorted, PolicyLe) && UniqueIds(policies) && forall x :: x in sorted <==> x in policies
    requires i < |sorted| && q in policies && q != sorted[i] && PolicyLe(q, sorted[i])
    ensures q in sorted[..i]
  {
    var j :| 0 <= j < |sorted| && sorted[j] == q;
    if i < j {
      assert sorted[i] in sorted;
      TiedAreSame(policies, sorted[i], q);
    }
  }

  /** At most one rule's decision can be the first. */
  lemma OnlyOneDecides(language: Language, policies: seq<Policy>, p: Policy, k: nat, d: Decision, q: Policy, l: nat, e: Decision, request: Request, s: Situation)
    requires Decides(language, policies, p, k, d, request, s) && Decides(language, policies, q, l, e, request, s)
    ensures p == q && k == l && d == e
  {
    PolicyLeIsTotalPreorder();
    assert PolicyLe(p, q) || PolicyLe(q, p);
    var said, other := Sayings(language, p, request, s), Sayings(language, q, request, s);
    assert said[k] != None && other[l] != None;
  }

  lemma DecidingIsNotSilent(language: Language, policies: seq<Policy>, p: Policy, k: nat, d: Decision, request: Request, s: Situation)
    requires Decides(language, policies, p, k, d, request, s)
    ensures p in policies && !Silent(language, p, request, s)
  {
    var said := Sayings(language, p, request, s);
    assert said[k] != None;
  }

  /** A rule that nothing forestalls gives the answer. */
  lemma UnforestalledDecides(language: Language, policies: seq<Policy>, p: Policy, k: nat, d: Decision, request: Request, s: Situation)
    requires UniqueIds(policies) && (s.agent.Some? ==> AllowsTool(s.agent.value, request.tool))
    requires Decides(language, policies, p, k, d, request, s)
    ensures Decided(language, policies, request, s) == d
  {
    DecidedByTheFirst(language, policies, request, s);
    var answer := Decided(language, policies, request, s);
    DecidingIsNotSilent(language, policies, p, k, d, request, s);
    var q, l :| Decides(language, policies, q, l, answer, request, s);
    OnlyOneDecides(language, policies, p, k, d, q, l, answer, request, s);
  }

  /** The rule concerns the request, its condition compiles and holds, and it allows. */
  predicate Permits(language: Language, r: Rule, request: Request, s: Situation) {
    && r.decision == Allow && Concerns(r, request, s) && Compiled(language, r).Some?
    && language.evaluate(Compiled(language, r).value, Facts(request, s)) == Some(true)
  }

  /** Fail closed: nothing is allowed unless the agent may use the tool and an allowing rule of an enabled policy
      concerns the request and its condition held; an error never allows. */
  lemma AllowedOnlyByAHoldingRule(language: Language, policies: seq<Policy>, request: Request, s: Situation)
    requires UniqueIds(policies) && Decided(language, policies, request, s).kind == Allow
    ensures s.agent.Some? ==> AllowsTool(s.agent.value, request.tool)
    ensures exists p, k :: p in policies && p.enabled && 0 <= k < |p.rules| && Permits(language, p.rules[k], request, s)
  {
    var d := Decided(language, policies, request, s);
    DecidedByTheFirst(language, policies, request, s);
    var p, k: nat :| Decides(language, policies, p, k, d, request, s);
    SayingAllowPermits(language, p, k, d, request, s);
  }

  lemma SayingAllowPermits(language: Language, p: Policy, k: nat, d: Decision, request: Request, s: Situation)
    requires k < |p.rules| && Sayings(language, p, request, s)[k] == Some(d) && d.kind == Allow
    ensures Permits(language, p.rules[k], request, s)
  {
    assert RuleSays(language, p, p.rules[k], request, s) == Some(d);
  }

  /** Over the condition language itself: whenever something is allowed, an allowing rule concerns the request whose
      condition evaluated to a true value, and nothing unsupported stands in it where it is always reached. */
  lemma AllowedOnlyByASoundCondition(lib: Library, parse: string -> Option<Expr>, policies: seq<Policy>, request: Request, s: Situation)
    requires UniqueIds(policies) && Decided(ConditionLanguage(lib, parse), policies, request, s).kind == Allow
    ensures exists p, k :: p in policies && p.enabled && 0 <= k < |p.rules| && SoundlyAllows(lib, parse, p.rules[k], request, s)
  {
    AllowedOnlyByAHoldingRule(ConditionLanguage(lib, parse), policies, request, s);
    var p, k: nat :| p in policies && p.enabled && k < |p.rules| && Permits(ConditionLanguage(lib, parse), p.rules[k], request, s);
    PermittedSoundly(lib, parse, p.rules[k], request, s);
  }

  ghost predicate SoundlyAllows(lib: Library, parse: string -> Option<Expr>, r: Rule, request: Request, s: Situation) {
    var compiled := parse(Stripped(Source(r.condition)));
    && r.decision == Allow && Concerns(r, request, s) && compiled.Some? && !Tainted(compiled.value)
    && Holds(Eval(lib, compiled.value, Facts(request, s)))
  }

  lemma PermittedSoundly(lib: Library, parse: string -> Option<Expr>, r: Rule, request: Request, s: Situation)
    requires Permits(ConditionLanguage(lib, parse), r, request, s)
    ensures SoundlyAllows(lib, parse, r, request, s)
  {
    var e := parse(Stripped(Source(r.condition))).value;
    if Tainted(e) { TaintedNeverEvaluates(lib, e, Facts(request, s)); }
  }
}
