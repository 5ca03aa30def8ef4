/** What a call of the gateway comes to, from who may be asked to what stops it. */
module GatewayMeaning {
  import opened Wrappers
  import opened Ordering
  import opened Truncation
  import opened Gateway

  // ---- who may be asked -------------------------------------------------------------

  /** An external provider is asked only where that is allowed. */
  predicate MayBeAsked(p: Provider, allowExternal: bool) {
    p.external ==> allowExternal
  }

  /** By priority, higher first, then by name. */
  ghost predicate ByRank(a: Provider, b: Provider) {
    a.priority > b.priority || (a.priority == b.priority && TextLe(a.name, b.name))
  }

  /** By unit cost, lower first, or local before external, and in either case then by rank. */
  ghost predicate InOrder(strategy: Strategy, a: Provider, b: Provider) {
    match strategy
    case ByPriority => ByRank(a, b)
    case ByCost => a.unitCost < b.unitCost || (a.unitCost == b.unitCost && ByRank(a, b))
    case LocalFirst => (!a.external && b.external) || (a.external == b.external && ByRank(a, b))
  }

  lemma {:induction false} AllowedOnesAre(providers: seq<Provider>, allowExternal: bool, p: Provider)
    ensures multiset(AllowedOnes(providers, allowExternal))[p] == if MayBeAsked(p, allowExternal) then multiset(providers)[p] else 0
  {
    if providers != [] {
      AllowedOnesAre(providers[..|providers| - 1], allowExternal, p);
      assert providers == providers[..|providers| - 1] + [providers[|providers| - 1]];
    }
  }

  /** The candidates are the providers that may be asked, each as often as it is configured, in the strategy's order. */
  lemma CandidatesMean(providers: seq<Provider>, strategy: Strategy, capability: string, allowExternal: bool)
    ensures var candidates := Candidates(providers, strategy, capability, allowExternal);
      && (forall p :: multiset(candidates)[p] == if MayBeAsked(p, allowExternal) then multiset(providers)[p] else 0)
      && (forall i, j :: 0 <= i < j < |candidates| ==> InOrder(strategy, candidates[i], candidates[j]))
  {
    var candidates := Candidates(providers, strategy, capability, allowExternal);
    CandidatesAreTheAllowed(providers, strategy, capability, allowExternal);
    forall p ensures multiset(candidates)[p] == if MayBeAsked(p, allowExternal) then multiset(providers)[p] else 0 {
      AllowedOnesAre(providers, allowExternal, p);
    }
    forall i, j | 0 <= i < j < |candidates| ensures InOrder(strategy, candidates[i], candidates[j]) {
      assert Ranking(strategy)(candidates[i], candidates[j]);
    }
  }

  /** The provider lists the capability, or everything; listing nothing is listing reasoning. */
  ghost predicate Lists(p: Provider, capability: string) {
    capability in p.capabilities || "*" in p.capabilities || (p.capabilities == {} && capability == "reasoning")
  }

  lemma {:induction false} TiesOfConcat(a: seq<Provider>, b: seq<Provider>, x: Provider, le: (Provider, Provider) -> bool)
    ensures Ties(a + b, x, le) == Ties(a, x, le) + Ties(b, x, le)
  {
    if a == [] {
      assert a + b == b;
    } else {
      assert (a + b)[1..] == a[1..] + b;
      TiesOfConcat(a[1..], b, x, le);
    }
  }

  lemma {:induction false} TiesAreAmong(s: seq<Provider>, x: Provider, le: (Provider, Provider) -> bool)
    ensures forall p <- Ties(s, x, le) :: p in s
  {
    if s != [] { TiesAreAmong(s[1..], x, le); }
  }

  /** Two elements that tie with `x` stand in the same order among those that do. */
  lemma {:induction false} TiesInOrder(s: seq<Provider>, x: Provider, le: (Provider, Provider) -> bool, i: nat, j: nat) returns (p: nat, q: nat)
    requires i < j < |s| && le(s[i], x) && le(x, s[i]) && le(s[j], x) && le(x, s[j])
    ensures p < q < |Ties(s, x, le)| && Ties(s, x, le)[p] == s[i] && Ties(s, x, le)[q] == s[j]
  {
    if i > 0 {
      p, q := TiesInOrder(s[1..], x, le, i - 1, j - 1);
      if le(s[0], x) && le(x, s[0]) { p, q := p + 1, q + 1; }
    } else {
      q := TieAt(s[1..], x, le, j - 1);
      p, q := 0, q + 1;
    }
  }

  lemma {:induction false} TieAt(s: seq<Provider>, x: Provider, le: (Provider, Provider) -> bool, j: nat) returns (q: nat)
    requires j < |s| && le(s[j], x) && le(x, s[j])
    ensures q < |Ties(s, x, le)| && Ties(s, x, le)[q] == s[j]
  {
    if j == 0 { return 0; }
    q := TieAt(s[1..], x, le, j - 1);
    if le(s[0], x) && le(x, s[0]) { q := q + 1; }
  }

  lemma {:induction false} SupportingList(providers: seq<Provider>, capability: string, allowExternal: bool, supports: bool)
    ensures forall p <- Supporting(providers, capability, allowExternal, supports) :: Lists(p, capability) <==> supports
  {
    if providers != [] { SupportingList(providers[..|providers| - 1], capability, allowExternal, supports); }
  }

  /** All the capability decides: of candidates that tie, which only happens under one name, those that list it come first. */
  lemma ListingComesFirst(providers: seq<Provider>, strategy: Strategy, capability: string, allowExternal: bool, i: nat, j: nat)
    requires i < j < |Candidates(providers, strategy, capability, allowExternal)|
    requires var candidates := Candidates(providers, strategy, capability, allowExternal);
      InOrder(strategy, candidates[j], candidates[i]) && Lists(candidates[j], capability)
    ensures var candidates := Candidates(providers, strategy, capability, allowExternal);
      Lists(candidates[i], capability) && candidates[i].name == candidates[j].name
  {
    var candidates, le := Candidates(providers, strategy, capability, allowExternal), Ranking(strategy);
    var yes, no := Supporting(providers, capability, allowExternal, true), Supporting(providers, capability, allowExternal, false);
    var x := candidates[i];
    CandidatesMean(providers, strategy, capability, allowExternal);
    RankingIsTotal(strategy);
    assert le(x, candidates[j]) && le(candidates[j], x) && le(x, x);
    TextLeIsAntisymmetric(x.name, candidates[j].name);
    SortIsStable(yes + no, x, le);
    TiesOfConcat(yes, no, x, le);
    var p, q := TiesInOrder(candidates, x, le, i, j);
    TiedListers(yes, no, x, le, capability, providers, allowExternal, p, q);
  }

  lemma TiedListers(yes: seq<Provider>, no: seq<Provider>, x: Provider, le: (Provider, Provider) -> bool, capability: string,
                    providers: seq<Provider>, allowExternal: bool, p: nat, q: nat)
    requires yes == Supporting(providers, capability, allowExternal, true) && no == Supporting(providers, capability, allowExternal, false)
    requires p < q < |Ties(yes, x, le) + Ties(no, x, le)| && Lists((Ties(yes, x, le) + Ties(no, x, le))[q], capability)
    ensures Lists((Ties(yes, x, le) + Ties(no, x, le))[p], capability)
  {
    SupportingList(providers, capability, allowExternal, true);
    SupportingList(providers, capability, allowExternal, false);
    TiesAreAmong(yes, x, le);
    TiesAreAmong(no, x, le);
    var first, second := Ties(yes, x, le), Ties(no, x, le);
    forall k | |first| <= k < |first + second| ensures !Lists((first + second)[k], capability) {
      assert (first + second)[k] == second[k - |first|] && second[k - |first|] in second;
    }
    assert (first + second)[p] == first[p] && first[p] in first;
  }

  ghost predicate CouldBeAsked(setup: Setup, ask: Ask, p: Provider) {
    p in setup.providers && MayBeAsked(p, ask.allowExternal) && (ask.pinned.Some? ==> p.name == ask.pinned.value)
  }

  lemma CandidatesHold(providers: seq<Provider>, strategy: Strategy, capability: string, allowExternal: bool, p: Provider)
    ensures p in Candidates(providers, strategy, capability, allowExternal) <==> p in providers && MayBeAsked(p, allowExternal)
  {
    CandidatesMean(providers, strategy, capability, allowExternal);
    assert p in Candidates(providers, strategy, capability, allowExternal) <==>
      multiset(Candidates(providers, strategy, capability, allowExternal))[p] > 0;
    assert p in providers <==> multiset(providers)[p] > 0;
  }

  lemma {:induction false} NamedAre(candidates: seq<Provider>, name: string)
    ensures forall p :: p in Named(candidates, name) <==> p in candidates && p.name == name
  {
    if candidates != [] {
      NamedAre(candidates[..|candidates| - 1], name);
      assert candidates == candidates[..|candidates| - 1] + [candidates[|candidates| - 1]];
    }
  }

  /** Chosen from are exactly the providers that could be asked: a pinned one, if the caller pins one. */
  lemma ChoiceHolds(setup: Setup, ask: Ask, p: Provider)
    ensures p in Choice(setup, ask) <==> CouldBeAsked(setup, ask, p)
  {
    var candidates := Candidates(setup.providers, setup.strategy, ask.capability, ask.allowExternal);
    CandidatesHold(setup.providers, setup.strategy, ask.capability, ask.allowExternal, p);
    if ask.pinned.Some? { NamedAre(candidates, ask.pinned.value); }
  }

  // ---- spending -----------------------------------------------------------------------

  /** Spending is summed entry by entry: on a task over all days, on a day from that day on. */
  lemma SpentIsTheSum(usage: seq<Entry>, e: Entry, scope: Scope, today: int)
    ensures Spent([], scope, today) == 0
    ensures Spent(usage + [e], scope, today) == Spent(usage, scope, today) +
      match scope case OnTask(t) => (if e.task == Some(t) then e.cost else 0) case OnDay => (if e.day < today then 0 else e.cost)
  {
    assert (usage + [e])[..|usage|] == usage;
  }

  /** The call would be over this limit. */
  ghost predicate Over(limits: Limits, usage: seq<Entry>, task: Option<string>, today: int, scope: Scope) {
    match scope
    case OnTask(t) => task == Some(t) && limits.perTask.Some? && Spent(usage, scope, today) >= limits.perTask.value
    case OnDay => limits.perDay.Some? && Spent(usage, scope, today) >= limits.perDay.value
  }

  /** A call is stopped exactly where exceeding denies and a limit has been reached; the task's limit comes first. */
  lemma BlockedIff(limits: Limits, usage: seq<Entry>, task: Option<string>, today: int, scope: Scope)
    ensures Blocked(limits, usage, task, today) == Some(scope) <==>
      && limits.deny && Over(limits, usage, task, today, scope)
      && (scope.OnDay? ==> forall t :: !Over(limits, usage, task, today, OnTask(t)))
  {
  }

  // ---- the whole call -----------------------------------------------------------------

  /** Who is tried: under escalation those the request fits, if there are any, and otherwise all. */
  lemma TriedAre(overflow: Overflow, candidates: seq<Provider>, request: Request, p: Provider)
    ensures p in Routed(overflow, candidates, request) <==>
      && p in candidates
      && (overflow == Escalate && (exists q <- candidates :: FitsWindow(request, q.window)) ==> FitsWindow(request, p.window))
  {
    forall q | q in candidates ensures Fits(request, q.window) <==> FitsWindow(request, q.window) {}
    if q :| q in candidates && FitsWindow(request, q.window) { assert q in Fitting(candidates, request); }
    assert Fitting(candidates, request) == [] || Fitting(candidates, request)[0] in Fitting(candidates, request);
  }

  /** The prompt, a token for every four characters and one at least, and what is set aside for the answer fit. */
  ghost predicate FitsWindow(request: Request, window: nat) {
    window > 0 ==> (if JoinedLength(request.messages) < 8 then 1 else JoinedLength(request.messages) / 4) + request.maxTokens <= window
  }

  /** A call ends without asking anyone, and without recording anything, when a limit stops it or nobody could be asked; the
      second is blamed on external providers when no provider was pinned and there are some. */
  lemma EndsUnaskedIff(setup: Setup, usage: seq<Entry>, ask: Ask, today: int, replies: Provider -> Reply)
    ensures
      var done, blocked := Complete(setup, usage, ask, today, replies), Blocked(setup.limits, usage, ask.task, today);
      && (blocked.Some? ==> done == Completed(Err(BudgetExceeded(blocked.value)), [], []))
      && (blocked.None? && (forall p :: !CouldBeAsked(setup, ask, p)) ==>
            && done.sent == [] && done.costs == []
            && done.result == Err(if ask.pinned == None && exists p <- setup.providers :: p.external then ExternalBlocked else NoProvider))
  {
    var choice := Choice(setup, ask);
    var all := Candidates(setup.providers, setup.strategy, ask.capability, true);
    forall p ensures p in choice <==> CouldBeAsked(setup, ask, p) { ChoiceHolds(setup, ask, p); }
    forall p ensures p in all <==> p in setup.providers { CandidatesHold(setup.providers, setup.strategy, ask.capability, true, p); }
    EmptyIffNoneIn(choice);
  }

  lemma EmptyIffNoneIn(s: seq<Provider>)
    ensures s == [] <==> forall p :: p !in s
  {
    if s != [] { assert s[0] in s; }
  }

  /** Otherwise those tried are asked in order until one is not passed over, and a call that gets past all of them finds no
      provider. */
  lemma EndsAtTheFirst(setup: Setup, usage: seq<Entry>, ask: Ask, today: int, replies: Provider -> Reply) returns (k: nat, asked: bool)
    requires Blocked(setup.limits, usage, ask.task, today).None? && exists p :: CouldBeAsked(setup, ask, p)
    ensures
      var done, order := Complete(setup, usage, ask, today, replies), Routed(setup.overflow, Choice(setup, ask), ask.request);
      if k == |order| then done.result == Err(NoProvider) && EndedAt(setup.overflow, order, ask.request, replies, Progress(None, done.sent, done.costs), k, asked)
      else EndedAt(setup.overflow, order, ask.request, replies, Progress(Some(done.result), done.sent, done.costs), k, asked)
  {
    var p :| CouldBeAsked(setup, ask, p);
    ChoiceHolds(setup, ask, p);
    var order := Routed(setup.overflow, Choice(setup, ask), ask.request);
    k, asked := FirstNotPassedOverEnds(setup.overflow, order, ask.request, replies);
  }
}
