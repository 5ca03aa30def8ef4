/** The model gateway: candidates in order, the spending check, the context window, one provider after another. */
module Gateway {
  import opened Wrappers
  import opened Ordering
  import opened Truncation

  datatype Provider = Provider(name: string, external: bool, priority: int, unitCost: int, capabilities: set<string>, window: nat)

  datatype Strategy = ByPriority | ByCost | LocalFirst

  datatype Overflow = Cut | Escalate | Refuse

  // ---- candidates -----------------------------------------------------------------

  predicate Supports(p: Provider, capability: string) {
    var capabilities := if p.capabilities == {} then {"reasoning"} else p.capabilities;
    capability in capabilities || "*" in capabilities
  }

  predicate Allowed(p: Provider, allowExternal: bool) {
    allowExternal || !p.external
  }

  /** The allowed providers that do, or do not, support the capability. */
  function Supporting(providers: seq<Provider>, capability: string, allowExternal: bool, supports: bool): seq<Provider> {
    if providers == [] then []
    else
      var p := providers[|providers| - 1];
      Supporting(providers[..|providers| - 1], capability, allowExternal, supports)
      + if Allowed(p, allowExternal) && Supports(p, capability) == supports then [p] else []
  }

  predicate CheaperFirst(a: Provider, b: Provider) {
    a.unitCost < b.unitCost || (a.unitCost == b.unitCost && PreferredFirst(a, b))
  }

  predicate LocalsFirst(a: Provider, b: Provider) {
    (!a.external && b.external) || (a.external == b.external && PreferredFirst(a, b))
  }

  predicate PreferredFirst(a: Provider, b: Provider) {
    a.priority > b.priority || (a.priority == b.priority && TextLe(a.name, b.name))
  }

  function Ranking(strategy: Strategy): (Provider, Provider) -> bool {
    match strategy
    case ByCost => CheaperFirst
    case LocalFirst => LocalsFirst
    case ByPriority => PreferredFirst
  }

  /** Those that support the capability, then the others, all sorted together. */
  function Candidates(providers: seq<Provider>, strategy: Strategy, capability: string, allowExternal: bool): seq<Provider> {
    Sort(Supporting(providers, capability, allowExternal, true) + Supporting(providers, capability, allowExternal, false), Ranking(strategy))
  }

  /** Every allowed provider is a candidate, once for each time it is configured, and none comes before one that ranks higher. */
  lemma CandidatesAreTheAllowed(providers: seq<Provider>, strategy: Strategy, capability: string, allowExternal: bool)
    ensures var candidates := Candidates(providers, strategy, capability, allowExternal);
      multiset(candidates) == multiset(AllowedOnes(providers, allowExternal)) && Sorted(candidates, Ranking(strategy))
  {
    RankingIsTotal(strategy);
    SupportSplitsTheAllowed(providers, capability, allowExternal);
    SortSorts(Supporting(providers, capability, allowExternal, true) + Supporting(providers, capability, allowExternal, false), Ranking(strategy));
  }

  predicate DistinctNames(providers: seq<Provider>) {
    forall i, j :: 0 <= i < j < |providers| ==> providers[i].name != providers[j].name
  }

  lemma PreferredIsTotal()
    ensures TotalPreorder(PreferredFirst)
  {
    forall x: Provider, y: Provider ensures PreferredFirst(x, y) || PreferredFirst(y, x) { TextLeIsTotal(x.name, y.name); }
    forall x: Provider, y: Provider, z: Provider | PreferredFirst(x, y) && PreferredFirst(y, z) ensures PreferredFirst(x, z) {
      if x.priority == y.priority == z.priority { TextLeIsTransitive(x.name, y.name, z.name); }
    }
  }

  lemma RankingIsTotal(strategy: Strategy)
    ensures TotalPreorder(Ranking(strategy))
  {
    PreferredIsTotal();
    match strategy
    case ByCost => assert TotalPreorder(CheaperFirst);
    case LocalFirst => assert TotalPreorder(LocalsFirst);
    case ByPriority =>
  }

  function AllowedOnes(providers: seq<Provider>, allowExternal: bool): seq<Provider> {
    if providers == [] then []
    else
      var p := providers[|providers| - 1];
      AllowedOnes(providers[..|providers| - 1], allowExternal) + if Allowed(p, allowExternal) then [p] else []
  }

  /** Supporting or not, together they are the allowed providers. */
  lemma {:induction false} SupportSplitsTheAllowed(providers: seq<Provider>, capability: string, allowExternal: bool)
    ensures multiset(Supporting(providers, capability, allowExternal, true)) + multiset(Supporting(providers, capability, allowExternal, false))
         == multiset(AllowedOnes(providers, allowExternal))
  {
    if providers != [] {
      SupportSplitsTheAllowed(providers[..|providers| - 1], capability, allowExternal);
    }
  }

  lemma {:induction false} SupportingAreAmong(providers: seq<Provider>, capability: string, allowExternal: bool, supports: bool)
    ensures forall p <- Supporting(providers, capability, allowExternal, supports) :: p in providers
  {
    if providers != [] { SupportingAreAmong(providers[..|providers| - 1], capability, allowExternal, supports); }
  }

  lemma TiedProvidersAreSame(providers: seq<Provider>, strategy: Strategy, x: Provider, y: Provider)
    requires DistinctNames(providers) && x in providers && y in providers && Ranking(strategy)(x, y) && Ranking(strategy)(y, x)
    ensures x == y
  {
    TextLeIsAntisymmetric(x.name, y.name);
    var i :| 0 <= i < |providers| && providers[i] == x;
    var j :| 0 <= j < |providers| && providers[j] == y;
  }

  /** With distinct names, what is asked for does not change who is tried or in which order. */
  lemma CapabilityDoesNotMatter(providers: seq<Provider>, strategy: Strategy, first: string, second: string, allowExternal: bool)
    requires DistinctNames(providers)
    ensures Candidates(providers, strategy, first, allowExternal) == Candidates(providers, strategy, second, allowExternal)
  {
    var a := Supporting(providers, first, allowExternal, true) + Supporting(providers, first, allowExternal, false);
    var b := Supporting(providers, second, allowExternal, true) + Supporting(providers, second, allowExternal, false);
    SupportSplitsTheAllowed(providers, first, allowExternal);
    SupportSplitsTheAllowed(providers, second, allowExternal);
    SupportingAreAmong(providers, first, allowExternal, true);
    SupportingAreAmong(providers, first, allowExternal, false);
    RankingIsTotal(strategy);
    forall x, y | x in a && y in a && Ranking(strategy)(x, y) && Ranking(strategy)(y, x) ensures x == y {
      TiedProvidersAreSame(providers, strategy, x, y);
    }
    SortOfSame(a, b, Ranking(strategy));
  }

  // ---- the context window -----------------------------------------------------------

  /** The candidates whose window the request fits. */
  function Fitting(candidates: seq<Provider>, request: Request): (fitting: seq<Provider>)
    ensures forall p :: p in fitting <==> p in candidates && Fits(request, p.window)
  {
    if candidates == [] then []
    else
      var p := candidates[|candidates| - 1];
      Fitting(candidates[..|candidates| - 1], request) + if Fits(request, p.window) then [p] else []
  }

  /** Escalation tries only providers that fit, if there are any. */
  function Routed(overflow: Overflow, candidates: seq<Provider>, request: Request): seq<Provider> {
    if overflow != Escalate || Fitting(candidates, request) == [] then candidates else Fitting(candidates, request)
  }

  /** What is sent to the provider; nothing when an oversized request is to be refused. */
  function Prepared(overflow: Overflow, p: Provider, request: Request): Option<Request> {
    if p.window == 0 || Fits(request, p.window) then Some(request)
    else if overflow == Refuse then None
    else Some(Truncate(request, p.window).request)
  }

  // ---- spending ---------------------------------------------------------------------

  datatype Entry = Entry(task: Option<string>, day: int, cost: nat)

  datatype Scope = OnTask(task: string) | OnDay

  predicate Counts(e: Entry, scope: Scope, today: int) {
    match scope
    case OnTask(t) => e.task == Some(t)
    case OnDay => e.day >= today
  }

  function Spent(usage: seq<Entry>, scope: Scope, today: int): nat {
    if usage == [] then 0
    else
      var e := usage[|usage| - 1];
      Spent(usage[..|usage| - 1], scope, today) + if Counts(e, scope, today) then e.cost else 0
  }

  datatype Limits = Limits(perTask: Option<nat>, perDay: Option<nat>, deny: bool)

  predicate Reached(limit: Option<nat>, spent: nat) {
    limit.Some? && spent >= limit.value
  }

  /** The scope whose limit stops the call: the task's is looked at first. A warning stops nothing. */
  function Blocked(limits: Limits, usage: seq<Entry>, task: Option<string>, today: int): Option<Scope> {
    if !limits.deny then None
    else if task.Some? && Reached(limits.perTask, Spent(usage, OnTask(task.value), today)) then Some(OnTask(task.value))
    else if Reached(limits.perDay, Spent(usage, OnDay, today)) then Some(OnDay)
    else None
  }

  method Totals(usage: seq<Entry>, scope: Scope, today: int) returns (spent: nat)
    ensures spent == Spent(usage, scope, today)
  {
    spent := 0;
    for i := 0 to |usage|
      invariant spent == Spent(usage[..i], scope, today)
    {
      assert usage[..i + 1][..i] == usage[..i];
      if Counts(usage[i], scope, today) { spent := spent + usage[i].cost; }
    }
    assert usage[..|usage|] == usage;
  }

  // ---- completion -------------------------------------------------------------------

  /** How a provider meets a prepared request: data may not leave, no service, another exception, or an answer and its
      cost. */
  datatype Reply = Withheld | Unavailable | Crashed | Answered(cost: nat)

  datatype Error = BudgetExceeded(scope: Scope) | ExternalBlocked | NoProvider | Denied | ContextOverflow | ProviderFailed

  datatype Call = Call(provider: Provider, request: Request)

  /** Who is asked what, so far; no result while the next provider is still to be tried. */
  datatype Progress = Progress(result: Option<Result<string, Error>>, sent: seq<Call>, costs: seq<nat>)

  /** An attempt that finds no service costs nothing but is recorded; another exception ends the call unrecorded. */
  function TryOne(overflow: Overflow, so: Progress, p: Provider, request: Request, replies: Provider -> Reply): Progress {
    if so.result.Some? then so
    else if replies(p) == Withheld then so.(result := Some(Err(Denied)))
    else if Prepared(overflow, p, request).None? then so.(result := Some(Err(ContextOverflow)))
    else
      var sent := so.sent + [Call(p, Prepared(overflow, p, request).value)];
      if replies(p) == Crashed then Progress(Some(Err(ProviderFailed)), sent, so.costs)
      else if replies(p).Answered? then Progress(Some(Ok(p.name)), sent, so.costs + [replies(p).cost])
      else Progress(None, sent, so.costs + [0])
  }

  function TryAll(overflow: Overflow, order: seq<Provider>, request: Request, replies: Provider -> Reply): Progress {
    if order == [] then Progress(None, [], [])
    else TryOne(overflow, TryAll(overflow, order[..|order| - 1], request, replies), order[|order| - 1], request, replies)
  }

  function Named(candidates: seq<Provider>, name: string): seq<Provider> {
    if candidates == [] then []
    else Named(candidates[..|candidates| - 1], name) + if candidates[|candidates| - 1].name == name then [candidates[|candidates| - 1]] else []
  }

  function Entries(task: Option<string>, today: int, costs: seq<nat>): seq<Entry> {
    seq(|costs|, i requires 0 <= i < |costs| => Entry(task, today, costs[i]))
  }

  datatype Setup = Setup(providers: seq<Provider>, strategy: Strategy, overflow: Overflow, limits: Limits)

  datatype Ask = Ask(request: Request, capability: string, allowExternal: bool, task: Option<string>, pinned: Option<string>)

  datatype Completed = Completed(result: Result<string, Error>, sent: seq<Call>, costs: seq<nat>)

  function Choice(setup: Setup, ask: Ask): seq<Provider> {
    var candidates := Candidates(setup.providers, setup.strategy, ask.capability, ask.allowExternal);
    if ask.pinned.Some? then Named(candidates, ask.pinned.value) else candidates
  }

  predicate AnyExternal(providers: seq<Provider>) {
    exists p <- providers :: p.external
  }

  function Complete(setup: Setup, usage: seq<Entry>, ask: Ask, today: int, replies: Provider -> Reply): Completed {
    var blocked := Blocked(setup.limits, usage, ask.task, today);
    var choice := Choice(setup, ask);
    if blocked.Some? then Completed(Err(BudgetExceeded(blocked.value)), [], [])
    else if choice == [] then
      Completed(Err(if ask.pinned == None && AnyExternal(Candidates(setup.providers, setup.strategy, ask.capability, true))
                      then ExternalBlocked else NoProvider), [], [])
    else
      var tried := TryAll(setup.overflow, Routed(setup.overflow, choice, ask.request), ask.request, replies);
      Completed(if tried.result.Some? then tried.result.value else Err(NoProvider), tried.sent, tried.costs)
  }

  class ModelGateway {
    const setup: Setup
    var usage: seq<Entry>
    var sent: seq<Call>

    constructor (setup: Setup)
      ensures this.setup == setup && usage == [] && sent == []
    {
      this.setup, usage, sent := setup, [], [];
    }

    /** The scope that stops the call, if any. */
    method EnforceBudget(task: Option<string>, today: int) returns (blocked: Option<Scope>)
      ensures blocked == Blocked(setup.limits, usage, task, today)
    {
      blocked := None;
      if !setup.limits.deny { return; }
      if task.Some? && setup.limits.perTask.Some? {
        var spent := Totals(usage, OnTask(task.value), today);
        if spent >= setup.limits.perTask.value { return Some(OnTask(task.value)); }
      }
      if setup.limits.perDay.Some? {
        var spent := Totals(usage, OnDay, today);
        if spent >= setup.limits.perDay.value { return Some(OnDay); }
      }
    }

    method TryProviders(order: seq<Provider>, ask: Ask, today: int, replies: Provider -> Reply) returns (result: Option<Result<string, Error>>)
      modifies this
      ensures var tried := TryAll(setup.overflow, order, ask.request, replies);
        result == tried.result && sent == old(sent) + tried.sent && usage == old(usage) + Entries(ask.task, today, tried.costs)
    {
      result := None;
      ghost var so := Progress(None, [], []);
      for i := 0 to |order|
        invariant so == TryAll(setup.overflow, order[..i], ask.request, replies)
        invariant result == so.result && sent == old(sent) + so.sent && usage == old(usage) + Entries(ask.task, today, so.costs)
      {
        assert order[..i + 1][..i] == order[..i];
        var p := order[i];
        so := TryOne(setup.overflow, so, p, ask.request, replies);
        if result == None {
          if replies(p) == Withheld {
            result := Some(Err(Denied));
          } else if Prepared(setup.overflow, p, ask.request).None? {
            result := Some(Err(ContextOverflow));
          } else {
            sent := sent + [Call(p, Prepared(setup.overflow, p, ask.request).value)];
            if replies(p) == Crashed {
              result := Some(Err(ProviderFailed));
            } else {
              if replies(p).Answered? { result := Some(Ok(p.name)); }
              usage := usage + [Entry(ask.task, today, if replies(p).Answered? then replies(p).cost else 0)];
            }
          }
        }
      }
      assert order[..|order|] == order;
    }

    method CompleteAsk(ask: Ask, today: int, replies: Provider -> Reply) returns (result: Result<string, Error>)
      modifies this
      ensures var done := Complete(setup, old(usage), ask, today, replies);
        result == done.result && sent == old(sent) + done.sent && usage == old(usage) + Entries(ask.task, today, done.costs)
    {
      var blocked := EnforceBudget(ask.task, today);
      if blocked.Some? { return Err(BudgetExceeded(blocked.value)); }
      var choice := Choice(setup, ask);
      if choice == [] {
        var external := AnyExternal(Candidates(setup.providers, setup.strategy, ask.capability, true));
        return Err(if ask.pinned == None && external then ExternalBlocked else NoProvider);
      }
      var tried := TryProviders(Routed(setup.overflow, choice, ask.request), ask, today, replies);
      result := if tried.Some? then tried.value else Err(NoProvider);
    }
  }

  // ---- what providers are sent ------------------------------------------------------

  /** The provider gets the request whole and it fits, or, only when cutting is allowed, the truncated one. */
  predicate SentProperly(overflow: Overflow, request: Request, call: Call) {
    || (call.request == request && Fits(request, call.provider.window))
    || (overflow != Refuse && !Fits(request, call.provider.window) && call.request == Truncate(request, call.provider.window).request)
  }

  /** One attempt after another: each provider is sent the request properly, every attempt is recorded but the one that
      ended the call with an exception of its own, and only the last attempt can cost. */
  lemma {:induction false} AttemptsAreProper(overflow: Overflow, order: seq<Provider>, request: Request, replies: Provider -> Reply)
    ensures
      var tried := TryAll(overflow, order, request, replies);
      && |tried.sent| == |tried.costs| + (if tried.result == Some(Err(ProviderFailed)) then 1 else 0)
      && (forall call <- tried.sent :: call.provider in order && SentProperly(overflow, request, call))
      && (forall i :: 0 <= i < |tried.costs| - 1 ==> tried.costs[i] == 0)
      && (tried.result.None? || tried.result.value.Err? ==> forall i :: 0 <= i < |tried.costs| ==> tried.costs[i] == 0)
  {
    if order != [] { AttemptsAreProper(overflow, order[..|order| - 1], request, replies); }
  }

  /** Under escalation, if some candidate fits, those that fit are tried and each gets the request whole. */
  lemma EscalationDoesNotCut(candidates: seq<Provider>, request: Request, replies: Provider -> Reply, call: Call)
    requires exists p <- candidates :: Fits(request, p.window)
    ensures forall p :: p in Routed(Escalate, candidates, request) <==> p in candidates && Fits(request, p.window)
    ensures call in TryAll(Escalate, Routed(Escalate, candidates, request), request, replies).sent ==>
      call.request == request && Fits(request, call.provider.window) && call.provider in candidates
  {
    var p :| p in candidates && Fits(request, p.window);
    assert p in Fitting(candidates, request);
    AttemptsAreProper(Escalate, Routed(Escalate, candidates, request), request, replies);
  }

  // ---- who answers ------------------------------------------------------------------

  /** Something can be sent: the request fits the window, or may be cut. */
  predicate CanBeSent(overflow: Overflow, p: Provider, request: Request) {
    overflow != Refuse || p.window == 0 || EstimateTokens(JoinedLength(request.messages)) + request.maxTokens <= p.window
  }

  /** The provider was asked and found no service, so the next one's turn comes. */
  predicate PassedOver(overflow: Overflow, p: Provider, request: Request, replies: Provider -> Reply) {
    replies(p) == Unavailable && CanBeSent(overflow, p, request)
  }

  /** How a call ends at a provider that is not passed over, and whether that provider was asked. */
  ghost predicate EndsAt(overflow: Overflow, p: Provider, request: Request, replies: Provider -> Reply, result: Result<string, Error>, asked: bool) {
    if replies(p) == Withheld then result == Err(Denied) && !asked
    else if !CanBeSent(overflow, p, request) then result == Err(ContextOverflow) && !asked
    else asked && result == if replies(p).Answered? then Ok(p.name) else Err(ProviderFailed)
  }

  /** The first `k` providers were passed over, the next one, if there is one, ended the call; what was passed over is
      recorded at no cost, and an answer at its own. */
  ghost predicate EndedAt(overflow: Overflow, order: seq<Provider>, request: Request, replies: Provider -> Reply, so: Progress, k: nat, asked: bool) {
    && k <= |order| && (forall i :: 0 <= i < k ==> PassedOver(overflow, order[i], request, replies))
    && (if k == |order| then so.result == None && !asked
        else !PassedOver(overflow, order[k], request, replies) && so.result.Some? && EndsAt(overflow, order[k], request, replies, so.result.value, asked))
    && |so.sent| == k + (if asked then 1 else 0) && (forall i :: 0 <= i < |so.sent| ==> so.sent[i].provider == order[i])
    && |so.costs| == k + (if asked && replies(order[k]).Answered? then 1 else 0)
    && (forall i :: 0 <= i < k ==> so.costs[i] == 0)
    && (k < |so.costs| ==> so.costs[k] == replies(order[k]).cost)
  }

  lemma StillEnded(overflow: Overflow, order: seq<Provider>, p: Provider, request: Request, replies: Provider -> Reply, so: Progress, k: nat, asked: bool)
    requires EndedAt(overflow, order, request, replies, so, k, asked) && k < |order|
    ensures EndedAt(overflow, order + [p], request, replies, so, k, asked) && TryOne(overflow, so, p, request, replies) == so
  {
  }

  lemma EndsNow(overflow: Overflow, order: seq<Provider>, p: Provider, request: Request, replies: Provider -> Reply, so: Progress) returns (asked: bool)
    requires EndedAt(overflow, order, request, replies, so, |order|, false) && !PassedOver(overflow, p, request, replies)
    ensures EndedAt(overflow, order + [p], request, replies, TryOne(overflow, so, p, request, replies), |order|, asked)
  {
    asked := replies(p) != Withheld && CanBeSent(overflow, p, request);
  }

  lemma PassesOver(overflow: Overflow, order: seq<Provider>, p: Provider, request: Request, replies: Provider -> Reply, so: Progress)
    requires EndedAt(overflow, order, request, replies, so, |order|, false) && PassedOver(overflow, p, request, replies)
    ensures EndedAt(overflow, order + [p], request, replies, TryOne(overflow, so, p, request, replies), |order| + 1, false)
  {
  }

  /** Providers are asked in order until one is not passed over, which ends the call; none is skipped and none after it is
      asked. */
  lemma {:induction false} FirstNotPassedOverEnds(overflow: Overflow, order: seq<Provider>, request: Request, replies: Provider -> Reply)
    returns (k: nat, asked: bool)
    ensures EndedAt(overflow, order, request, replies, TryAll(overflow, order, request, replies), k, asked)
  {
    if order == [] { return 0, false; }
    var before, p := order[..|order| - 1], order[|order| - 1];
    assert order == before + [p];
    k, asked := FirstNotPassedOverEnds(overflow, before, request, replies);
    var so := TryAll(overflow, before, request, replies);
    if k < |before| {
      StillEnded(overflow, before, p, request, replies, so, k, asked);
    } else if PassedOver(overflow, p, request, replies) {
      PassesOver(overflow, before, p, request, replies, so);
      k := k + 1;
    } else {
      asked := EndsNow(overflow, before, p, request, replies, so);
    }
  }
}
