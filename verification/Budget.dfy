/** Spending limits with several callers at once: the check and the record are separate steps, and others run between. */
module Budget {
  import opened Wrappers
  import opened Gateway

  /** What is recorded, the calls that passed the check and have not ended, and the day. */
  datatype State = State(usage: seq<Entry>, flying: seq<Option<string>>, today: int)

  /** A caller is checked and takes off; an attempt fails and costs nothing; a call ends with a cost, or without any;
      midnight passes. Calls are named by their position. */
  datatype Step = Begin(task: Option<string>) | Fail(call: nat) | Succeed(call: nat, cost: nat) | GiveUp(call: nat) | Midnight

  function Landed(flying: seq<Option<string>>, call: nat): seq<Option<string>>
    requires call < |flying|
  {
    flying[..call] + flying[call + 1..]
  }

  function Record(s: State, call: nat, cost: nat): seq<Entry>
    requires call < |s.flying|
  {
    s.usage + [Entry(s.flying[call], s.today, cost)]
  }

  /** At most `callers` at once, each costing at most `most`; a step that is not possible changes nothing. */
  datatype Bounds = Bounds(limits: Limits, callers: nat, most: nat)

  function Next(b: Bounds, s: State, step: Step): State {
    match step
    case Begin(task) =>
      if |s.flying| < b.callers && Blocked(b.limits, s.usage, task, s.today).None? then s.(flying := s.flying + [task]) else s
    case Fail(call) => if call < |s.flying| then s.(usage := Record(s, call, 0)) else s
    case Succeed(call, cost) =>
      if call < |s.flying| && cost <= b.most then State(Record(s, call, cost), Landed(s.flying, call), s.today) else s
    case GiveUp(call) => if call < |s.flying| then s.(flying := Landed(s.flying, call)) else s
    case Midnight => s.(today := s.today + 1)
  }

  function Run(b: Bounds, s: State, steps: seq<Step>): State {
    if steps == [] then s else Next(b, Run(b, s, steps[..|steps| - 1]), steps[|steps| - 1])
  }

  // ---- the bound ------------------------------------------------------------------

  predicate Concerns(task: Option<string>, scope: Scope) {
    match scope
    case OnTask(t) => task == Some(t)
    case OnDay => true
  }

  /** The calls in flight whose cost will count. */
  function Aloft(flying: seq<Option<string>>, scope: Scope): (n: nat)
    ensures n <= |flying|
  {
    if flying == [] then 0
    else Aloft(flying[..|flying| - 1], scope) + if Concerns(flying[|flying| - 1], scope) then 1 else 0
  }

  function Limit(limits: Limits, scope: Scope): Option<nat> {
    match scope
    case OnTask(_) => limits.perTask
    case OnDay => limits.perDay
  }

  /** What is spent and what the calls in flight may still cost stay below the limit and one cost for every caller. */
  ghost predicate Bounded(b: Bounds, s: State, scope: Scope, limit: nat) {
    var spent, aloft := Spent(s.usage, scope, s.today), Aloft(s.flying, scope);
    || (spent == 0 && aloft == 0)
    || (limit > 0 && spent + aloft * b.most < limit + b.callers * b.most)
  }

  ghost predicate Sane(b: Bounds, s: State) {
    |s.flying| <= b.callers && forall e <- s.usage :: e.day <= s.today
  }

  lemma AloftOfConcat(a: seq<Option<string>>, b: seq<Option<string>>, scope: Scope)
    ensures Aloft(a + b, scope) == Aloft(a, scope) + Aloft(b, scope)
    decreases |b|
  {
    if b == [] {
      assert a + b == a;
    } else {
      assert (a + b)[..|a + b| - 1] == a + b[..|b| - 1];
      AloftOfConcat(a, b[..|b| - 1], scope);
    }
  }

  lemma AloftOfOne(task: Option<string>, scope: Scope)
    ensures Aloft([task], scope) == if Concerns(task, scope) then 1 else 0
  {
    assert [task][..0] == [];
  }

  /** One landing takes one off the count, if it counted. */
  lemma AloftLanding(flying: seq<Option<string>>, call: nat, scope: Scope)
    requires call < |flying|
    ensures Aloft(flying, scope) == Aloft(Landed(flying, call), scope) + if Concerns(flying[call], scope) then 1 else 0
  {
    assert flying == flying[..call] + [flying[call]] + flying[call + 1..];
    AloftOfConcat(flying[..call], [flying[call]], scope);
    AloftOfConcat(flying[..call] + [flying[call]], flying[call + 1..], scope);
    AloftOfConcat(flying[..call], flying[call + 1..], scope);
    AloftOfOne(flying[call], scope);
  }

  lemma SpentAfter(usage: seq<Entry>, e: Entry, scope: Scope, today: int)
    ensures Spent(usage + [e], scope, today) == Spent(usage, scope, today) + if Counts(e, scope, today) then e.cost else 0
  {
    assert (usage + [e])[..|usage|] == usage;
  }

  lemma {:induction false} NothingSpentTomorrow(usage: seq<Entry>, today: int)
    requires forall e <- usage :: e.day <= today
    ensures Spent(usage, OnDay, today + 1) == 0
  {
    if usage != [] {
      assert usage[|usage| - 1] in usage;
      NothingSpentTomorrow(usage[..|usage| - 1], today);
    }
  }

  /** A task's spending does not depend on the day. */
  lemma {:induction false} TaskSpendingStays(usage: seq<Entry>, task: string, today: int, later: int)
    ensures Spent(usage, OnTask(task), later) == Spent(usage, OnTask(task), today)
  {
    if usage != [] { TaskSpendingStays(usage[..|usage| - 1], task, today, later); }
  }

  /** Whoever passes the check while the scope counts has found less than the limit spent. */
  lemma PassedMeansBelow(limits: Limits, usage: seq<Entry>, task: Option<string>, today: int, scope: Scope, limit: nat)
    requires limits.deny && Limit(limits, scope) == Some(limit) && Concerns(task, scope)
    requires Blocked(limits, usage, task, today).None?
    ensures Spent(usage, scope, today) < limit
  {
  }

  lemma RoomForOneMore(spent: nat, aloft: nat, limit: nat, callers: nat, most: nat)
    requires spent < limit && aloft < callers
    ensures spent + (aloft + 1) * most < limit + callers * most
  {
    assert (aloft + 1) * most <= callers * most by {
      assert (callers - aloft - 1) * most >= 0;
    }
  }

  lemma BeginKeepsBounded(b: Bounds, s: State, task: Option<string>, scope: Scope, limit: nat)
    requires b.limits.deny && Limit(b.limits, scope) == Some(limit) && Sane(b, s) && Bounded(b, s, scope, limit)
    ensures Bounded(b, Next(b, s, Begin(task)), scope, limit)
  {
    AloftOfConcat(s.flying, [task], scope);
    AloftOfOne(task, scope);
    if Next(b, s, Begin(task)) != s && Concerns(task, scope) {
      PassedMeansBelow(b.limits, s.usage, task, s.today, scope, limit);
      RoomForOneMore(Spent(s.usage, scope, s.today), Aloft(s.flying, scope), limit, b.callers, b.most);
    }
  }

  lemma LandingKeepsBounded(b: Bounds, s: State, call: nat, cost: nat, scope: Scope, limit: nat)
    requires Sane(b, s) && Bounded(b, s, scope, limit) && call < |s.flying| && cost <= b.most
    ensures Bounded(b, State(Record(s, call, cost), Landed(s.flying, call), s.today), scope, limit)
    ensures Bounded(b, State(s.usage, Landed(s.flying, call), s.today), scope, limit)
  {
    AloftLanding(s.flying, call, scope);
    SpentAfter(s.usage, Entry(s.flying[call], s.today, cost), scope, s.today);
    if Concerns(s.flying[call], scope) {
      OneLessAloft(Aloft(s.flying, scope), b.most);
    }
  }

  lemma OneLessAloft(aloft: nat, most: nat)
    requires aloft > 0
    ensures aloft * most == (aloft - 1) * most + most
  {
  }

  lemma MidnightKeepsBounded(b: Bounds, s: State, scope: Scope, limit: nat)
    requires Sane(b, s) && Bounded(b, s, scope, limit)
    ensures Bounded(b, Next(b, s, Midnight), scope, limit)
  {
    match scope
    case OnTask(t) => TaskSpendingStays(s.usage, t, s.today, s.today + 1);
    case OnDay =>
      NothingSpentTomorrow(s.usage, s.today);
      assert (b.callers - Aloft(s.flying, OnDay)) * b.most >= 0;
  }

  lemma FailingKeepsBounded(b: Bounds, s: State, call: nat, scope: Scope, limit: nat)
    requires Sane(b, s) && Bounded(b, s, scope, limit) && call < |s.flying|
    ensures Bounded(b, Next(b, s, Fail(call)), scope, limit)
  {
    SpentAfter(s.usage, Entry(s.flying[call], s.today, 0), scope, s.today);
  }

  lemma StepKeepsSane(b: Bounds, s: State, step: Step)
    requires Sane(b, s)
    ensures Sane(b, Next(b, s, step))
  {
  }

  lemma StepKeepsBounded(b: Bounds, s: State, step: Step, scope: Scope, limit: nat)
    requires b.limits.deny && Limit(b.limits, scope) == Some(limit) && Sane(b, s) && Bounded(b, s, scope, limit)
    ensures Sane(b, Next(b, s, step)) && Bounded(b, Next(b, s, step), scope, limit)
  {
    StepKeepsSane(b, s, step);
    match step
    case Begin(task) => BeginKeepsBounded(b, s, task, scope, limit);
    case Fail(call) => if call < |s.flying| { FailingKeepsBounded(b, s, call, scope, limit); }
    case Succeed(call, cost) => if call < |s.flying| && cost <= b.most { LandingKeepsBounded(b, s, call, cost, scope, limit); }
    case GiveUp(call) => if call < |s.flying| { LandingKeepsBounded(b, s, call, 0, scope, limit); }
    case Midnight => MidnightKeepsBounded(b, s, scope, limit);
  }

  const START := State([], [], 0)

  lemma {:induction false} RunKeepsBounded(b: Bounds, steps: seq<Step>, scope: Scope, limit: nat)
    requires b.limits.deny && Limit(b.limits, scope) == Some(limit)
    ensures Sane(b, Run(b, START, steps)) && Bounded(b, Run(b, START, steps), scope, limit)
  {
    if steps != [] {
      RunKeepsBounded(b, steps[..|steps| - 1], scope, limit);
      StepKeepsBounded(b, Run(b, START, steps[..|steps| - 1]), steps[|steps| - 1], scope, limit);
    }
  }

  /** However the callers interleave, and over any number of days: what a scope has recorded stays below its limit plus
      one cost for every caller. */
  lemma SpendingIsBounded(b: Bounds, steps: seq<Step>, scope: Scope, limit: nat)
    requires b.limits.deny && Limit(b.limits, scope) == Some(limit)
    ensures var s := Run(b, START, steps);
      Spent(s.usage, scope, s.today) == 0 || Spent(s.usage, scope, s.today) < limit + b.callers * b.most
  {
    RunKeepsBounded(b, steps, scope, limit);
    var s := Run(b, START, steps);
    assert Aloft(s.flying, scope) * b.most >= 0;
  }

  // ---- the bound is met -----------------------------------------------------------

  function Repeat<T>(x: T, n: nat): (s: seq<T>)
    ensures |s| == n && forall i :: 0 <= i < n ==> s[i] == x
  {
    seq(n, i requires 0 <= i < n => x)
  }

  lemma RepeatMore<T>(x: T, n: nat)
    ensures Repeat(x, n + 1) == Repeat(x, n) + [x]
  {
  }

  lemma {:induction false} RunOfConcat(b: Bounds, s: State, first: seq<Step>, second: seq<Step>)
    ensures Run(b, s, first + second) == Run(b, Run(b, s, first), second)
  {
    if second == [] {
      assert first + second == first;
    } else {
      assert (first + second)[..|first + second| - 1] == first + second[..|second| - 1];
      RunOfConcat(b, s, first, second[..|second| - 1]);
    }
  }

  /** One call of cost one after another. */
  function OneByOne(task: string, n: nat): seq<Step> {
    if n == 0 then [] else OneByOne(task, n - 1) + [Begin(Some(task)), Succeed(0, 1)]
  }

  lemma {:induction false} SpentOfRepeat(e: Entry, n: nat, scope: Scope, today: int)
    requires Counts(e, scope, today)
    ensures Spent(Repeat(e, n), scope, today) == n * e.cost
  {
    if n > 0 {
      SpentOfRepeat(e, n - 1, scope, today);
      assert Repeat(e, n)[..n - 1] == Repeat(e, n - 1);
      assert n * e.cost == (n - 1) * e.cost + e.cost;
    }
  }

  predicate TaskOnly(b: Bounds, limit: nat) {
    b.limits == Limits(Some(limit), None, true) && b.callers > 0 && b.most > 0
  }

  lemma RunOfTwo(b: Bounds, s: State, first: Step, second: Step)
    ensures Run(b, s, [first, second]) == Next(b, Next(b, s, first), second)
  {
    assert [first, second][..1] == [first] && [first][..0] == [];
    assert Run(b, s, [first]) == Next(b, s, first);
  }

  lemma {:induction false} UpToTheLimit(b: Bounds, limit: nat, task: string, n: nat)
    requires TaskOnly(b, limit) && n < limit
    ensures Run(b, START, OneByOne(task, n)) == State(Repeat(Entry(Some(task), 0, 1), n), [], 0)
  {
    if n > 0 {
      UpToTheLimit(b, limit, task, n - 1);
      var before := Run(b, START, OneByOne(task, n - 1));
      RunOfConcat(b, START, OneByOne(task, n - 1), [Begin(Some(task)), Succeed(0, 1)]);
      RunOfTwo(b, before, Begin(Some(task)), Succeed(0, 1));
      SpentOfRepeat(Entry(Some(task), 0, 1), n - 1, OnTask(task), 0);
      RepeatMore(Entry(Some(task), 0, 1), n - 1);
    }
  }

  lemma {:induction false} AllTakeOff(b: Bounds, s: State, limit: nat, task: string, n: nat)
    requires TaskOnly(b, limit) && n <= b.callers && s.flying == [] && Spent(s.usage, OnTask(task), s.today) < limit
    ensures Run(b, s, Repeat(Begin(Some(task)), n)) == s.(flying := Repeat(Some(task), n))
  {
    if n > 0 {
      AllTakeOff(b, s, limit, task, n - 1);
      assert Repeat(Begin(Some(task)), n)[..n - 1] == Repeat(Begin(Some(task)), n - 1);
      RepeatMore(Some(task), n - 1);
    } else {
      assert Repeat(Some(task), 0) == s.flying;
    }
  }

  lemma {:induction false} AllLand(b: Bounds, s: State, task: string, n: nat)
    requires n <= |s.flying| && s.flying == Repeat(Some(task), |s.flying|)
    ensures Run(b, s, Repeat(Succeed(0, b.most), n))
      == State(s.usage + Repeat(Entry(Some(task), s.today, b.most), n), Repeat(Some(task), |s.flying| - n), s.today)
  {
    var step := Succeed(0, b.most);
    if n > 0 {
      AllLand(b, s, task, n - 1);
      assert Repeat(step, n)[..n - 1] == Repeat(step, n - 1);
      var left := |s.flying| - n;
      assert Landed(Repeat(Some(task), left + 1), 0) == Repeat(Some(task), left);
      RepeatMore(Entry(Some(task), s.today, b.most), n - 1);
    } else {
      assert s.usage + Repeat(Entry(Some(task), s.today, b.most), 0) == s.usage;
    }
  }

  lemma {:induction false} SpentOfConcat(a: seq<Entry>, b: seq<Entry>, scope: Scope, today: int)
    ensures Spent(a + b, scope, today) == Spent(a, scope, today) + Spent(b, scope, today)
  {
    if b == [] {
      assert a + b == a;
    } else {
      assert (a + b)[..|a + b| - 1] == a + b[..|b| - 1];
      SpentOfConcat(a, b[..|b| - 1], scope, today);
    }
  }

  /** Small calls up to just below the limit, then everyone at once. */
  function Rush(b: Bounds, limit: nat, task: string): seq<Step>
    requires limit > 0
  {
    OneByOne(task, limit - 1) + Repeat(Begin(Some(task)), b.callers) + Repeat(Succeed(0, b.most), b.callers)
  }

  /** The bound cannot be lowered: this run spends one less than it. */
  lemma BoundIsMet(b: Bounds, limit: nat, task: string)
    requires TaskOnly(b, limit) && limit > 0
    ensures var s := Run(b, START, Rush(b, limit, task));
      Spent(s.usage, OnTask(task), s.today) == limit - 1 + b.callers * b.most
  {
    var small, large := Entry(Some(task), 0, 1), Entry(Some(task), 0, b.most);
    var first, second, third := OneByOne(task, limit - 1), Repeat(Begin(Some(task)), b.callers), Repeat(Succeed(0, b.most), b.callers);
    UpToTheLimit(b, limit, task, limit - 1);
    SpentOfRepeat(small, limit - 1, OnTask(task), 0);
    var s1 := State(Repeat(small, limit - 1), [], 0);
    AllTakeOff(b, s1, limit, task, b.callers);
    AllLand(b, s1.(flying := Repeat(Some(task), b.callers)), task, b.callers);
    RunOfConcat(b, START, first, second);
    RunOfConcat(b, START, first + second, third);
    SpentOfConcat(Repeat(small, limit - 1), Repeat(large, b.callers), OnTask(task), 0);
    SpentOfRepeat(large, b.callers, OnTask(task), 0);
  }

  // ---- one call at a time -----------------------------------------------------------

  /** The steps of one call: failures, then at most one success. */
  function CallSteps(task: Option<string>, costs: seq<nat>, answered: bool): seq<Step> {
    [Begin(task)] +
    if answered && costs != [] then Repeat(Fail(0), |costs| - 1) + [Succeed(0, costs[|costs| - 1])]
    else Repeat(Fail(0), |costs|) + [GiveUp(0)]
  }

  lemma {:induction false} AllFail(b: Bounds, s: State, n: nat)
    requires |s.flying| == 1
    ensures Run(b, s, Repeat(Fail(0), n)) == s.(usage := s.usage + Repeat(Entry(s.flying[0], s.today, 0), n))
  {
    if n > 0 {
      AllFail(b, s, n - 1);
      assert Repeat(Fail(0), n)[..n - 1] == Repeat(Fail(0), n - 1);
      RepeatMore(Entry(s.flying[0], s.today, 0), n - 1);
    } else {
      assert s.usage + Repeat(Entry(s.flying[0], s.today, 0), 0) == s.usage;
    }
  }

  lemma RunOfOne(b: Bounds, s: State, step: Step)
    ensures Run(b, s, [step]) == Next(b, s, step)
  {
    assert [step][..0] == [];
  }

  lemma {:induction false} AnswerCosts(overflow: Overflow, order: seq<Provider>, request: Truncation.Request, replies: Provider -> Reply, most: nat)
    requires forall p :: replies(p).Answered? ==> replies(p).cost <= most
    ensures var tried := TryAll(overflow, order, request, replies);
      && (tried.result.Some? && tried.result.value.Ok? ==> tried.costs != [] && tried.costs[|tried.costs| - 1] <= most)
  {
    if order != [] { AnswerCosts(overflow, order[..|order| - 1], request, replies, most); }
  }

  /** Costs of one call: all zero, but for the last of an answered call. */
  predicate CallCosts(costs: seq<nat>, answered: bool, most: nat) {
    && (forall i :: 0 <= i < |costs| - 1 ==> costs[i] == 0)
    && if answered then costs != [] && costs[|costs| - 1] <= most else forall i :: 0 <= i < |costs| ==> costs[i] == 0
  }

  lemma CompletedCosts(setup: Setup, usage: seq<Entry>, ask: Ask, today: int, replies: Provider -> Reply, most: nat)
    requires forall p :: replies(p).Answered? ==> replies(p).cost <= most
    ensures var done := Complete(setup, usage, ask, today, replies); CallCosts(done.costs, done.result.Ok?, most)
  {
    var order := Routed(setup.overflow, Choice(setup, ask), ask.request);
    AttemptsAreProper(setup.overflow, order, ask.request, replies);
    AnswerCosts(setup.overflow, order, ask.request, replies, most);
  }

  function Zeros(s: State, task: Option<string>, n: nat): seq<Entry> {
    Repeat(Entry(task, s.today, 0), n)
  }

  lemma FailuresThen(b: Bounds, s: State, task: Option<string>, n: nat, last: Step)
    requires s.flying == [] && b.callers > 0 && Blocked(b.limits, s.usage, task, s.today).None?
    ensures Run(b, s, [Begin(task)] + (Repeat(Fail(0), n) + [last])) == Next(b, State(s.usage + Zeros(s, task, n), [task], s.today), last)
  {
    var up := s.(flying := [task]);
    assert s.flying + [task] == [task];
    RunOfOne(b, s, Begin(task));
    AllFail(b, up, n);
    RunOfOne(b, Run(b, up, Repeat(Fail(0), n)), last);
    RunOfConcat(b, up, Repeat(Fail(0), n), [last]);
    RunOfConcat(b, s, [Begin(task)], Repeat(Fail(0), n) + [last]);
  }

  lemma AnsweredCall(b: Bounds, s: State, task: Option<string>, costs: seq<nat>)
    requires s.flying == [] && b.callers > 0 && Blocked(b.limits, s.usage, task, s.today).None? && CallCosts(costs, true, b.most)
    ensures Run(b, s, CallSteps(task, costs, true)) == s.(usage := s.usage + Entries(task, s.today, costs))
  {
    var n := |costs| - 1;
    FailuresThen(b, s, task, n, Succeed(0, costs[n]));
    assert Landed([task], 0) == [];
    assert Entries(task, s.today, costs) == Zeros(s, task, n) + [Entry(task, s.today, costs[n])];
    assert s.usage + Zeros(s, task, n) + [Entry(task, s.today, costs[n])] == s.usage + Entries(task, s.today, costs);
  }

  lemma UnansweredCall(b: Bounds, s: State, task: Option<string>, costs: seq<nat>)
    requires s.flying == [] && b.callers > 0 && Blocked(b.limits, s.usage, task, s.today).None? && CallCosts(costs, false, b.most)
    ensures Run(b, s, CallSteps(task, costs, false)) == s.(usage := s.usage + Entries(task, s.today, costs))
  {
    FailuresThen(b, s, task, |costs|, GiveUp(0));
    assert Landed([task], 0) == [];
    assert Entries(task, s.today, costs) == Zeros(s, task, |costs|);
  }

  lemma GroundedCall(b: Bounds, s: State, task: Option<string>)
    requires s.flying == [] && Blocked(b.limits, s.usage, task, s.today).Some?
    ensures Run(b, s, CallSteps(task, [], false)) == s
  {
    assert Repeat(Fail(0), 0) + [GiveUp(0)] == [GiveUp(0)];
    assert CallSteps(task, [], false) == [Begin(task)] + [GiveUp(0)];
    RunOfTwo(b, s, Begin(task), GiveUp(0));
    assert [Begin(task)] + [GiveUp(0)] == [Begin(task), GiveUp(0)];
  }

  /** What a call of the gateway records is what one caller's steps record. */
  lemma CompleteIsARun(setup: Setup, s: State, ask: Ask, replies: Provider -> Reply, b: Bounds)
    requires s.flying == [] && b.limits == setup.limits && b.callers > 0
    requires forall p :: replies(p).Answered? ==> replies(p).cost <= b.most
    ensures var done := Complete(setup, s.usage, ask, s.today, replies);
      Run(b, s, CallSteps(ask.task, done.costs, done.result.Ok?)) == s.(usage := s.usage + Entries(ask.task, s.today, done.costs))
  {
    var done := Complete(setup, s.usage, ask, s.today, replies);
    CompletedCosts(setup, s.usage, ask, s.today, replies, b.most);
    if Blocked(b.limits, s.usage, ask.task, s.today).Some? {
      GroundedCall(b, s, ask.task);
      assert s.usage + Entries(ask.task, s.today, []) == s.usage;
    } else {
      if done.result.Ok? { AnsweredCall(b, s, ask.task, done.costs); } else { UnansweredCall(b, s, ask.task, done.costs); }
    }
  }
}
