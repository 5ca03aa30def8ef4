/** Fitting a conversation into a context window: system messages stay, the oldest of the others go. */
module Truncation {

  datatype Message = Message(role: string, content: string)

  /** A request; `maxTokens` is what is set aside for the answer. */
  datatype Request = Request(messages: seq<Message>, maxTokens: nat)

  datatype Info = Info(droppedChars: int, kept: nat, total: nat)

  datatype Truncated = Truncated(request: Request, info: Info)

  function Max(a: int, b: int): int {
    if a >= b then a else b
  }

  /** About four characters to a token, and never none. */
  function EstimateTokens(length: nat): (tokens: nat)
    ensures tokens >= 1
  {
    if length / 4 > 1 then length / 4 else 1
  }

  function Cost(messages: seq<Message>): (cost: nat)
    ensures cost >= |messages|
  {
    if messages == [] then 0
    else Cost(messages[..|messages| - 1]) + EstimateTokens(|messages[|messages| - 1].content|)
  }

  function Chars(messages: seq<Message>): nat {
    if messages == [] then 0 else Chars(messages[..|messages| - 1]) + |messages[|messages| - 1].content|
  }

  /** The messages of one role, or of all others, in order. */
  function System(messages: seq<Message>, system: bool): (chosen: seq<Message>)
    ensures forall m <- chosen :: (m.role == "system") == system
  {
    if messages == [] then []
    else
      var n := |messages| - 1;
      System(messages[..n], system) + if (messages[n].role == "system") == system then [messages[n]] else []
  }

  function Budget(request: Request, window: int): int {
    Max(256, window - (request.maxTokens + 64))
  }

  /** Where the kept tail begins, going back from the end while the running sum stays within the budget. */
  function TailStart(rest: seq<Message>, used: nat, budget: int): (start: nat)
    ensures start <= |rest|
  {
    if rest == [] then 0
    else
      var n := |rest| - 1;
      var cost := EstimateTokens(|rest[n].content|);
      if used + cost > budget then |rest| else TailStart(rest[..n], used + cost, budget)
  }

  function KeptMessages(request: Request, window: int): seq<Message> {
    var system, rest := System(request.messages, true), System(request.messages, false);
    system + rest[TailStart(rest, Cost(system), Budget(request, window))..]
  }

  function Truncate(request: Request, window: int): Truncated {
    var kept := KeptMessages(request, window);
    if kept == [] then Truncated(request, Info(0, 0, 0))
    else Truncated(request.(messages := kept), Info(Chars(request.messages) - Chars(kept), |kept|, |request.messages|))
  }

  lemma {:induction false} CostOfConcat(a: seq<Message>, b: seq<Message>)
    ensures Cost(a + b) == Cost(a) + Cost(b) && Chars(a + b) == Chars(a) + Chars(b)
  {
    if b == [] {
      assert a + b == a;
    } else {
      assert (a + b)[..|a + b| - 1] == a + b[..|b| - 1];
      CostOfConcat(a, b[..|b| - 1]);
    }
  }

  method Select(messages: seq<Message>, system: bool) returns (chosen: seq<Message>)
    ensures chosen == System(messages, system)
  {
    chosen := [];
    for i := 0 to |messages|
      invariant chosen == System(messages[..i], system)
    {
      assert messages[..i + 1][..i] == messages[..i];
      if (messages[i].role == "system") == system { chosen := chosen + [messages[i]]; }
    }
    assert messages[..|messages|] == messages;
  }

  method Total(messages: seq<Message>) returns (cost: nat, chars: nat)
    ensures cost == Cost(messages) && chars == Chars(messages)
  {
    cost, chars := 0, 0;
    for i := 0 to |messages|
      invariant cost == Cost(messages[..i]) && chars == Chars(messages[..i])
    {
      assert messages[..i + 1][..i] == messages[..i];
      cost, chars := cost + EstimateTokens(|messages[i].content|), chars + |messages[i].content|;
    }
    assert messages[..|messages|] == messages;
  }

  /** Going back from the last message until one does not fit, then putting what was kept in order again. */
  method KeepTail(rest: seq<Message>, systemCost: nat, budget: int) returns (tail: seq<Message>)
    ensures tail == rest[TailStart(rest, systemCost, budget)..]
  {
    var reversed: seq<Message> := [];
    var used: nat, left: nat, stop := systemCost, |rest|, false;
    assert rest[..|rest|] == rest;
    while left > 0 && !stop
      invariant left <= |rest| && |reversed| == |rest| - left
      invariant forall i :: 0 <= i < |reversed| ==> reversed[i] == rest[|rest| - 1 - i]
      invariant stop ==> TailStart(rest, systemCost, budget) == left
      invariant !stop ==> TailStart(rest, systemCost, budget) == TailStart(rest[..left], used, budget)
      decreases left + if stop then 0 else 1
    {
      assert rest[..left][..left - 1] == rest[..left - 1];
      var cost := EstimateTokens(|rest[left - 1].content|);
      if used + cost > budget {
        stop := true;
      } else {
        reversed, used, left := reversed + [rest[left - 1]], used + cost, left - 1;
      }
    }
    tail := seq(|reversed|, i requires 0 <= i < |reversed| => reversed[|reversed| - 1 - i]);
    assert tail == rest[left..];
  }

  method TruncateToFit(request: Request, window: int) returns (truncated: Truncated)
    ensures truncated == Truncate(request, window)
  {
    var budget := Max(256, window - (request.maxTokens + 64));
    var system := Select(request.messages, true);
    var rest := Select(request.messages, false);
    var used: nat, systemChars: nat := Total(system);
    var tail := KeepTail(rest, used, budget);
    var kept := system + tail;
    assert kept == KeptMessages(request, window);
    if kept == [] { return Truncated(request, Info(0, 0, 0)); }
    var allCost: nat, allChars: int := Total(request.messages);
    var keptCost: nat, keptChars: int := Total(kept);
    truncated := Truncated(request.(messages := kept), Info(allChars - keptChars, |kept|, |request.messages|));
  }

  // ---- what is kept ---------------------------------------------------------------

  /** The tail from `j` fits beside what is already used. */
  predicate TailFits(rest: seq<Message>, used: nat, budget: int, j: nat)
    requires j <= |rest|
  {
    used + Cost(rest[j..]) <= budget
  }

  /** The kept tail is the longest that fits: nothing shorter fails, nothing longer fits. */
  lemma {:induction false} TailIsLongest(rest: seq<Message>, used: nat, budget: int, j: nat)
    requires used <= budget && j <= |rest|
    ensures TailFits(rest, used, budget, j) <==> j >= TailStart(rest, used, budget)
    decreases |rest|
  {
    if j == |rest| {
      assert rest[j..] == [];
    } else {
      var n := |rest| - 1;
      assert rest[j..] == rest[..n][j..] + [rest[n]];
      CostOfConcat(rest[..n][j..], [rest[n]]);
      CostOfOne(rest[n]);
      var cost := EstimateTokens(|rest[n].content|);
      if used + cost <= budget { TailIsLongest(rest[..n], used + cost, budget, j); }
    }
  }

  lemma CostOfOne(m: Message)
    ensures Cost([m]) == EstimateTokens(|m.content|)
  {
    assert [m][..0] == [];
  }

  /** If the system part alone is over the budget, nothing else is kept. */
  lemma NoTailOverBudget(rest: seq<Message>, used: nat, budget: int)
    requires used > budget
    ensures TailStart(rest, used, budget) == |rest|
  {
  }

  /** What is kept is within the budget whenever the system part is. */
  lemma KeptIsWithinBudget(request: Request, window: int)
    requires Cost(System(request.messages, true)) <= Budget(request, window)
    ensures Cost(KeptMessages(request, window)) <= Budget(request, window)
  {
    var system, rest := System(request.messages, true), System(request.messages, false);
    var start := TailStart(rest, Cost(system), Budget(request, window));
    TailIsLongest(rest, Cost(system), Budget(request, window), start);
    CostOfConcat(system, rest[start..]);
  }

  /** Nothing is kept exactly when there is no system message and either no message or a last one larger than the whole
      budget; the request then comes back unchanged, so no system message is ever cut short. */
  lemma NothingKeptIff(request: Request, window: int)
    ensures
      var rest := System(request.messages, false);
      KeptMessages(request, window) == [] <==>
        System(request.messages, true) == [] && (rest == [] || EstimateTokens(|rest[|rest| - 1].content|) > Budget(request, window))
    ensures KeptMessages(request, window) == [] ==> Truncate(request, window).request == request
  {
  }

  // ---- truncating twice -------------------------------------------------------------

  lemma {:induction false} SystemOfConcat(a: seq<Message>, b: seq<Message>, system: bool)
    ensures System(a + b, system) == System(a, system) + System(b, system)
  {
    if b == [] {
      assert a + b == a;
    } else {
      assert (a + b)[..|a + b| - 1] == a + b[..|b| - 1];
      SystemOfConcat(a, b[..|b| - 1], system);
    }
  }

  lemma {:induction false} SystemOfOneKind(messages: seq<Message>, kind: bool, system: bool)
    requires forall m <- messages :: (m.role == "system") == kind
    ensures System(messages, system) == if kind == system then messages else []
  {
    if messages != [] {
      SystemOfOneKind(messages[..|messages| - 1], kind, system);
      assert messages[|messages| - 1] in messages;
    }
  }

  lemma SplittingAgain(system: seq<Message>, tail: seq<Message>)
    requires (forall m <- system :: m.role == "system") && forall m <- tail :: m.role != "system"
    ensures System(system + tail, true) == system && System(system + tail, false) == tail
  {
    SystemOfConcat(system, tail, true);
    SystemOfConcat(system, tail, false);
    SystemOfOneKind(system, true, true);
    SystemOfOneKind(system, true, false);
    SystemOfOneKind(tail, false, true);
    SystemOfOneKind(tail, false, false);
  }

  /** Truncating what was already truncated changes nothing. */
  lemma TruncatingAgainChangesNothing(request: Request, window: int)
    ensures var once := Truncate(request, window).request; Truncate(once, window).request == once
  {
    var system, rest := System(request.messages, true), System(request.messages, false);
    var budget := Budget(request, window);
    var tail := rest[TailStart(rest, Cost(system), budget)..];
    if system + tail != [] {
      forall m | m in tail ensures m.role != "system" { assert m in rest; }
      SplittingAgain(system, tail);
      TailOfTail(rest, Cost(system), budget);
      KeptWhenAllFits(request.(messages := system + tail), window, system, tail);
    }
  }

  lemma KeptWhenAllFits(request: Request, window: int, system: seq<Message>, tail: seq<Message>)
    requires System(request.messages, true) == system && System(request.messages, false) == tail
    requires TailStart(tail, Cost(system), Budget(request, window)) == 0
    ensures KeptMessages(request, window) == system + tail
  {
    assert tail[0..] == tail;
  }

  lemma TailOfTail(rest: seq<Message>, used: nat, budget: int)
    ensures var tail := rest[TailStart(rest, used, budget)..]; TailStart(tail, used, budget) == 0
  {
    var start := TailStart(rest, used, budget);
    var tail := rest[start..];
    if used <= budget {
      TailIsLongest(rest, used, budget, start);
      assert tail[0..] == tail;
      TailIsLongest(tail, used, budget, 0);
    } else {
      NoTailOverBudget(rest, used, budget);
    }
  }

  // ---- does the result fit? -----------------------------------------------------------

  /** The length of the messages joined by newlines. */
  function JoinedLength(messages: seq<Message>): nat {
    Chars(messages) + if messages == [] then 0 else |messages| - 1
  }

  /** The joined prompt and the answer fit the window; a window of zero is no limit. */
  predicate Fits(request: Request, window: nat) {
    window == 0 || EstimateTokens(JoinedLength(request.messages)) + request.maxTokens <= window
  }

  lemma {:induction false} CharsFromCost(messages: seq<Message>)
    ensures Chars(messages) <= 4 * Cost(messages) + 3 * |messages|
  {
    if messages != [] { CharsFromCost(messages[..|messages| - 1]); }
  }

  /** Joining costs at most one token per message more than the messages one by one, save one. */
  lemma JoiningCosts(messages: seq<Message>)
    requires messages != []
    ensures EstimateTokens(JoinedLength(messages)) <= Cost(messages) + |messages| - 1
  {
    CharsFromCost(messages);
  }

  /** The window leaves room for the smallest budget and the system part is within the budget. */
  predicate Roomy(request: Request, window: nat) {
    window - request.maxTokens - 64 >= 256 && Cost(System(request.messages, true)) <= Budget(request, window)
  }

  /** Up to 65 kept messages, the truncated prompt fits. */
  lemma UpTo65Fits(request: Request, window: nat)
    requires Roomy(request, window) && 1 <= |KeptMessages(request, window)| <= 65
    ensures Fits(Truncate(request, window).request, window)
  {
    KeptIsWithinBudget(request, window);
    JoiningCosts(KeptMessages(request, window));
  }

  /** The same message, `k` times over. */
  function Repeated(m: Message, k: nat): (messages: seq<Message>)
    ensures |messages| == k && forall x <- messages :: x == m
  {
    if k == 0 then [] else Repeated(m, k - 1) + [m]
  }

  lemma {:induction false} CostOfRepeated(m: Message, k: nat)
    requires |m.content| == 19
    ensures Cost(Repeated(m, k)) == 4 * k && Chars(Repeated(m, k)) == 19 * k
  {
    if k > 0 {
      CostOfRepeated(m, k - 1);
      assert Repeated(m, k)[..k - 1] == Repeated(m, k - 1);
    }
  }

  function Filler(n: nat): (s: string)
    ensures |s| == n
  {
    if n == 0 then "" else Filler(n - 1) + "."
  }

  /** `k` messages of 19 characters, four tokens each with three characters to spare. */
  function Spilling(k: nat): Request {
    Request(Repeated(Message("user", Filler(19)), k), 0)
  }

  lemma SpillingIsKept(k: nat)
    requires k >= 64
    ensures KeptMessages(Spilling(k), 4 * k + 64) == Spilling(k).messages
  {
    var m := Message("user", Filler(19));
    var messages := Repeated(m, k);
    CostOfRepeated(m, k);
    SystemOfOneKind(messages, false, true);
    SystemOfOneKind(messages, false, false);
    assert messages[0..] == messages;
    TailIsLongest(messages, 0, 4 * k, 0);
  }

  /** From 66 on, there are requests whose truncated prompt does not fit. */
  lemma SpillingDoesNotFit(k: nat)
    requires k >= 66
    ensures Roomy(Spilling(k), 4 * k + 64) && |KeptMessages(Spilling(k), 4 * k + 64)| == k
    ensures !Fits(Truncate(Spilling(k), 4 * k + 64).request, 4 * k + 64)
  {
    SpillingIsKept(k);
    var m := Message("user", Filler(19));
    CostOfRepeated(m, k);
    SystemOfOneKind(Repeated(m, k), false, true);
    assert JoinedLength(Spilling(k).messages) == 20 * k - 1;
  }

  ghost predicate AlwaysFits(k: nat) {
    forall request: Request, window: nat :: Roomy(request, window) && |KeptMessages(request, window)| == k ==>
      Fits(Truncate(request, window).request, window)
  }

  /** Keeping `k` messages always gives a prompt that fits exactly when `k` is at most 65. */
  lemma AlwaysFitsIff(k: nat)
    requires k >= 1
    ensures AlwaysFits(k) <==> k <= 65
  {
    if k <= 65 {
      forall request: Request, window: nat | Roomy(request, window) && |KeptMessages(request, window)| == k
        ensures Fits(Truncate(request, window).request, window)
      {
        UpTo65Fits(request, window);
      }
    } else {
      SpillingDoesNotFit(k);
    }
  }
}
