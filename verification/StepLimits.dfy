/** Where the step machine stops keeping its promises, and exactly when. `approve` and `deny` test neither the
    status of the task nor the status and the step of the request they are given. */
module StepLimits {
  import opened Wrappers
  import opened StepMachine
  import opened StepRuns

  // ---- the log is the decided prefix of the plan --------------------------

  lemma TurnKeepsLogEquivalent(t: Task, w: World)
    requires t.plan.Some? && t.cursor < |t.plan.value|
    ensures LogIsPrefix(Turn(t, w)) <==> LogIsPrefix(t)
  {
    var u := Turn(t, w);
    if LogIsPrefix(u) && u.cursor > t.cursor {
      assert u.log[..t.cursor] == t.log;
      forall i | 0 <= i < t.cursor ensures t.log[i].id == Steps(t)[i].id && t.log[i].tool == Steps(t)[i].tool {
        assert u.log[i] == t.log[i];
      }
    }
  }

  /** The loop neither repairs a log that strayed from its plan nor makes a good one stray. */
  lemma {:induction false} LoopKeepsLogEquivalent(t: Task, w: World)
    requires t.plan.Some?
    ensures LogIsPrefix(Loop(t, w)) <==> LogIsPrefix(t)
    decreases |t.plan.value| - t.cursor
  {
    if t.cursor < |t.plan.value| {
      TurnKeepsLogEquivalent(t, w);
      var u := Turn(t, w);
      if u.cursor > t.cursor { LoopKeepsLogEquivalent(u, w); }
    }
  }

  lemma RunKeepsLogEquivalent(t: Task, w: World)
    requires t.plan.Some?
    ensures LogIsPrefix(Run(t, w)) <==> LogIsPrefix(t)
  {
    LoopKeepsLogEquivalent(t.(status := Running), w);
  }

  /** Granting a request keeps the log a prefix of the plan exactly when the task waits, or has no pending step
      left over from an earlier wait. */
  lemma ApproveKeepsLogIff(t: Task, approval: nat, w: World)
    requires Inv(t, w) && approval < |t.approvals|
    ensures LogIsPrefix(Approve(t, approval, w)) <==> t.status == RequiresApproval || t.pendingStep.None?
  {
    if t.status == RequiresApproval {
      ApproveOfWaitingKeepsLog(t, approval, w);
    } else if t.pendingStep.None? {
      RunKeepsLogEquivalent(Decide(t, approval, Granted), w);
    } else {
      ApproveOfStaleStrays(t, approval, w);
    }
  }

  lemma OneDecided(t: Task, u: Task, rec: StepRecord)
    requires LogIsPrefix(t) && t.cursor < |Steps(t)| && u.plan == t.plan && u.cursor == t.cursor + 1 && u.log == t.log + [rec]
    requires rec.id == Steps(t)[t.cursor].id && rec.tool == Steps(t)[t.cursor].tool
    ensures LogIsPrefix(u)
  {
  }

  lemma ApproveOfWaitingKeepsLog(t: Task, approval: nat, w: World)
    requires Inv(t, w) && approval < |t.approvals| && t.status == RequiresApproval
    ensures LogIsPrefix(Approve(t, approval, w))
  {
    var granted, step := Decide(t, approval, Granted), Steps(t)[t.cursor];
    var asked := Ask(granted, step, w);
    ApproveOfWaiting(t, approval, w);
    if w.authorize(granted.trail, step) == Deny {
      var u := Refuse(asked, step);
      OneDecided(t, u, u.log[t.cursor]);
      RunKeepsLogEquivalent(u, w);
    } else {
      var u := RunGranted(asked, step, approval, w);
      OneDecided(t, u, u.log[t.cursor]);
      RunKeepsLogEquivalent(u, w);
    }
  }

  lemma ApproveOfStaleStrays(t: Task, approval: nat, w: World)
    requires Inv(t, w) && approval < |t.approvals| && t.status != RequiresApproval && t.pendingStep.Some?
    ensures !LogIsPrefix(Approve(t, approval, w))
  {
    StaleStepIsFound(t);
    var step := Steps(t)[FindStep(Steps(t), t.pendingStep.value, 0)];
    var asked := Ask(Decide(t, approval, Granted), step, w);
    RunKeepsLogEquivalent(Refuse(asked, step), w);
    RunKeepsLogEquivalent(RunGranted(asked, step, approval, w), w);
  }

  lemma StaleStepIsFound(t: Task)
    requires t.pendingStep.Some? && Seen(Steps(t), t.cursor, t.pendingStep.value)
    ensures FindStep(Steps(t), t.pendingStep.value, 0) < |Steps(t)|
  {
    var j :| 0 <= j <= t.cursor && j < |Steps(t)| && Steps(t)[j].id == t.pendingStep.value;
    assert FindStep(Steps(t), t.pendingStep.value, 0) <= j;
  }

  /** Refusing a request keeps the log a prefix of the plan exactly when the task waits and the request is
      about the tool it waits for. */
  lemma RejectKeepsLogIff(t: Task, approval: nat, w: World)
    requires Inv(t, w) && approval < |t.approvals|
    ensures
      LogIsPrefix(Reject(t, approval, w)) <==>
        t.status == RequiresApproval && t.approvals[approval].tool == t.approvals[t.pendingApproval.value].tool
  {
    var refused := Decide(t, approval, Refused);
    if t.status == RequiresApproval {
      var step := Steps(t)[t.cursor];
      assert step in Steps(t);
      var rec := StepRecord(step.id, t.approvals[approval].tool, DeniedByHuman, Some(approval), false, 0);
      var logged := refused.(log := refused.log + [rec], cursor := t.cursor + 1, pendingApproval := None,
                             pendingStep := None, status := Running);
      assert logged.log[t.cursor] == rec;
      RunKeepsLogEquivalent(logged, w);
    } else {
      var logged := if t.pendingStep.Some? && t.pendingStep.value != "" then
          refused.(log := refused.log + [StepRecord(t.pendingStep.value, t.approvals[approval].tool, DeniedByHuman, Some(approval), false, 0)])
        else refused;
      RunKeepsLogEquivalent(logged.(cursor := t.cursor + 1, pendingApproval := None, pendingStep := None, status := Running), w);
    }
  }

  /** Granting any request of a waiting task, whatever step it is about and however it was decided before,
      decides the step waited for. */
  lemma AnyGrantReleasesTheWait(t: Task, approval: nat, w: World)
    requires Inv(t, w) && t.status == RequiresApproval && approval < |t.approvals|
    requires w.authorize(Decide(t, approval, Granted).trail, Steps(t)[t.cursor]) != Deny
    ensures
      var u := Approve(t, approval, w);
      && t.cursor < |u.log|
      && u.log[t.cursor].id == Steps(t)[t.cursor].id && u.log[t.cursor].verdict == Approved
      && u.log[t.cursor].approval == Some(approval)
  {
    ApproveOfWaiting(t, approval, w);
    var granted, step := Decide(t, approval, Granted), Steps(t)[t.cursor];
    var ran := RunGranted(Ask(granted, step, w), step, approval, w);
    LoopOnlyAppends(ran, w);
    assert ran.log[t.cursor] == Run(ran, w).log[t.cursor];
  }

  /** Granting a request of a waiting task keeps every execution governed exactly when it is the request waited for, or
      policy, asked again, denies. */
  lemma GrantIsGovernedIff(t: Task, approval: nat, w: World)
    requires Inv(t, w) && PlansWell(w) && t.status == RequiresApproval && approval < |t.approvals|
    ensures
      Governed(Approve(t, approval, w).trail, w) <==>
        t.pendingApproval == Some(approval) || w.authorize(Decide(t, approval, Granted).trail, Steps(t)[t.cursor]) == Deny
  {
    if t.pendingApproval == Some(approval) {
      ApproveKeeps(t, approval, w);
    } else if w.authorize(Decide(t, approval, Granted).trail, Steps(t)[t.cursor]) == Deny {
      DeniedGrantIsGoverned(t, approval, w);
    } else {
      OtherGrantIsUngoverned(t, approval, w);
    }
  }

  lemma DeniedGrantIsGoverned(t: Task, approval: nat, w: World)
    requires Inv(t, w) && PlansWell(w) && t.status == RequiresApproval && approval < |t.approvals|
    requires w.authorize(Decide(t, approval, Granted).trail, Steps(t)[t.cursor]) == Deny
    ensures Governed(Approve(t, approval, w).trail, w)
  {
    var granted, step := Decide(t, approval, Granted), Steps(t)[t.cursor];
    ApproveOfWaiting(t, approval, w);
    DecideKeeps(t, approval, Granted, w);
    AskKeeps(granted, step, w);
    RefuseKeeps(Ask(granted, step, w), w);
    RunKeeps(Refuse(Ask(granted, step, w), step), w);
  }

  /** What is recorded up to the granted step's execution stays in the trail. */
  lemma GrantedTrailStays(t: Task, approval: nat, w: World)
    requires WaitsForCursor(t) && DistinctIds(Steps(t)) && approval < |t.approvals|
    requires w.authorize(Decide(t, approval, Granted).trail, Steps(t)[t.cursor]) != Deny
    ensures var step := Steps(t)[t.cursor];
      RunGranted(Ask(Decide(t, approval, Granted), step, w), step, approval, w).trail <= Approve(t, approval, w).trail
  {
    var step := Steps(t)[t.cursor];
    ApproveOfWaiting(t, approval, w);
    LoopOnlyAppends(RunGranted(Ask(Decide(t, approval, Granted), step, w), step, approval, w), w);
  }

  lemma OtherGrantIsUngoverned(t: Task, approval: nat, w: World)
    requires WaitsForCursor(t) && DistinctIds(Steps(t)) && approval < |t.approvals| && t.pendingApproval != Some(approval)
    requires w.authorize(Decide(t, approval, Granted).trail, Steps(t)[t.cursor]) != Deny
    ensures !Governed(Approve(t, approval, w).trail, w)
  {
    var step := Steps(t)[t.cursor];
    GrantedTrailStays(t, approval, w);
    UnjustifiedPrefix(RunGranted(Ask(Decide(t, approval, Granted), step, w), step, approval, w).trail, Approve(t, approval, w).trail, |t.trail|, w);
  }

  /** A human's execution right after a grant of another request than the one that waited stays unjustified. */
  lemma UnjustifiedPrefix(short: seq<Event>, trail: seq<Event>, n: nat, w: World)
    requires short <= trail && |short| == n + 3 && n >= 1 && short[n + 2].Executed? && short[n + 2].byHuman
    requires short[n - 1].Waiting? && short[n].HumanApproved? && short[n - 1].approval != short[n].approval
    ensures !Governed(trail, w)
  {
    assert trail[n - 1] == short[n - 1] && trail[n] == short[n] && trail[n + 2] == short[n + 2];
    assert !Justified(trail, n + 2, w);
  }

  const READ_MAIL := PlanStep("s1", "mail.read")
  const SEND_MAIL := PlanStep("s2", "mail.send")

  /** Two steps, and policy wants a human for each. */
  function CautiousWorld(): World {
    World(trail => Proposed([READ_MAIL, SEND_MAIL]), (trail, step) => RequireApproval, (trail, step) => ToolResult(true, 0), 8, false, false)
  }

  /** The first step's request was refused and the task waits for the second: granting the refused request runs the
      second step, which no human granted. */
  lemma RefusedRequestReleasesTheNextStep()
    ensures
      var w := CautiousWorld();
      var waiting := Reject(Run(NewTask(), w), 0, w);
      var done := Approve(waiting, 0, w);
      && waiting.status == RequiresApproval && waiting.pendingApproval == Some(1) && waiting.approvals[0].status == Refused
      && done.approvals[1].status == Pending && RanByTrail(done.trail) == ["s2"] && !Governed(done.trail, w)
  {
    var w := CautiousWorld();
    CautiousSecondWait(w);
    CautiousInvariant(w);
    GrantIsGovernedIff(SecondWait(), 0, w);
    CautiousGrant(w);
  }

  lemma CautiousFirstWait(w: World)
    requires w == CautiousWorld()
    ensures Run(NewTask(), w) ==
      Task(RequiresApproval, Some([READ_MAIL, SEND_MAIL]), 0, Some(0), Some("s1"), [], 0, [Approval("s1", "mail.read", Pending)],
           [Authorized(READ_MAIL, RequireApproval), Waiting(READ_MAIL, 0)])
  {
    var planned := NewTask().(status := Running, plan := Some([READ_MAIL, SEND_MAIL]));
    assert Run(NewTask(), w) == Loop(planned, w);
    assert Turn(planned, w).trail == [Authorized(READ_MAIL, RequireApproval)] + [Waiting(READ_MAIL, 0)];
  }

  function CautiousTrail(): seq<Event> {
    [Authorized(READ_MAIL, RequireApproval), Waiting(READ_MAIL, 0), HumanDenied(0), Authorized(SEND_MAIL, RequireApproval), Waiting(SEND_MAIL, 1)]
  }

  function SecondWait(): Task {
    Task(RequiresApproval, Some([READ_MAIL, SEND_MAIL]), 1, Some(1), Some("s2"), [StepRecord("s1", "mail.read", DeniedByHuman, Some(0), false, 0)], 0,
         [Approval("s1", "mail.read", Refused), Approval("s2", "mail.send", Pending)], CautiousTrail())
  }

  lemma CautiousSecondWait(w: World)
    requires w == CautiousWorld()
    ensures Reject(Run(NewTask(), w), 0, w) == SecondWait()
  {
    CautiousFirstWait(w);
    var first := Run(NewTask(), w);
    var refused := LogRefusal(Decide(first, 0, Refused), READ_MAIL, 0);
    assert Reject(first, 0, w) == Run(refused, w) == Loop(refused, w);
    var second := Turn(refused, w);
    assert FindPending(refused.approvals, "s2", 0) == 1;
    assert second.trail == CautiousTrail();
    assert second.approvals == [Approval("s1", "mail.read", Refused), Approval("s2", "mail.send", Pending)];
  }

  lemma CautiousInvariant(w: World)
    requires w == CautiousWorld()
    ensures PlansWell(w) && Inv(Reject(Run(NewTask(), w), 0, w), w)
  {
    NewTaskIsConsistent(w);
    RunKeeps(NewTask(), w);
    CautiousFirstWait(w);
    RejectKeeps(Run(NewTask(), w), 0, w);
  }

  lemma CautiousGrant(w: World)
    requires w == CautiousWorld()
    ensures Approve(SecondWait(), 0, w).approvals[1].status == Pending && RanByTrail(Approve(SecondWait(), 0, w).trail) == ["s2"]
  {
    ApproveOfWaiting(SecondWait(), 0, w);
    var asked := Ask(Decide(SecondWait(), 0, Granted), SEND_MAIL, w);
    var ran := RunGranted(asked, SEND_MAIL, 0, w);
    assert Approve(SecondWait(), 0, w) == Run(ran, w);
    assert Run(ran, w).trail == ran.trail && Run(ran, w).approvals == ran.approvals;
    OnlyTheLastRan(asked.trail, Executed(SEND_MAIL, true, 0, true));
  }

  lemma {:induction false} LoopOnlyAppends(t: Task, w: World)
    requires t.plan.Some?
    ensures Extends(t, Loop(t, w))
    decreases |t.plan.value| - t.cursor
  {
    if t.cursor < |t.plan.value| {
      TurnExtends(t, w);
      var u := Turn(t, w);
      if u.cursor > t.cursor { LoopOnlyAppends(u, w); }
    }
  }

  // ---- what the tool cost leaves out --------------------------------------

  function ReportedCost(trail: seq<Event>): nat {
    if trail == [] then 0
    else
      var last := trail[|trail| - 1];
      ReportedCost(trail[..|trail| - 1]) + if last.Executed? then last.cost else 0
  }

  function ApprovedCost(trail: seq<Event>): nat {
    if trail == [] then 0
    else
      var last := trail[|trail| - 1];
      ApprovedCost(trail[..|trail| - 1]) + if last.Executed? && last.byHuman then last.cost else 0
  }

  ghost predicate CostAddsUp(t: Task) {
    t.toolCost + ApprovedCost(t.trail) == ReportedCost(t.trail)
  }

  lemma CostOfOneMore(trail: seq<Event>, e: Event)
    ensures ReportedCost(trail + [e]) == ReportedCost(trail) + if e.Executed? then e.cost else 0
    ensures ApprovedCost(trail + [e]) == ApprovedCost(trail) + if e.Executed? && e.byHuman then e.cost else 0
  {
    assert (trail + [e])[..|trail + [e]| - 1] == trail;
  }

  lemma TurnKeepsCost(t: Task, w: World)
    requires t.plan.Some? && t.cursor < |t.plan.value| && CostAddsUp(t)
    ensures CostAddsUp(Turn(t, w))
  {
    var step := t.plan.value[t.cursor];
    var asked := Ask(t, step, w);
    CostOfOneMore(t.trail, asked.trail[|t.trail|]);
    match w.authorize(t.trail, step)
    case RequireApproval =>
      if w.AutoApproves() {
        var auto := asked.(trail := asked.trail + [AutoApproved(step)]);
        CostOfOneMore(asked.trail, AutoApproved(step));
        CostOfOneMore(auto.trail, Execute(auto, step, w).trail[|auto.trail|]);
      } else {
        CostOfOneMore(asked.trail, Pause(asked, step).trail[|asked.trail|]);
      }
    case Deny =>
    case Allow => CostOfOneMore(asked.trail, Execute(asked, step, w).trail[|asked.trail|]);
  }

  lemma {:induction false} LoopKeepsCost(t: Task, w: World)
    requires t.plan.Some? && CostAddsUp(t)
    ensures CostAddsUp(Loop(t, w))
    decreases |t.plan.value| - t.cursor
  {
    if t.cursor < |t.plan.value| {
      TurnKeepsCost(t, w);
      var u := Turn(t, w);
      if u.cursor > t.cursor { LoopKeepsCost(u, w); }
    }
  }

  lemma RunKeepsCost(t: Task, w: World)
    requires CostAddsUp(t)
    ensures CostAddsUp(Run(t, w))
  {
    var started := t.(status := Running);
    if t.plan.Some? { LoopKeepsCost(started, w); }
    else if Adopt(w, t.trail).Some? { LoopKeepsCost(started.(plan := Adopt(w, t.trail)), w); }
  }

  lemma DecisionKeepsCost(t: Task, op: Op, w: World)
    requires CostAddsUp(t) && !op.Start?
    ensures CostAddsUp(Apply(t, op, w))
  {
    if op.approval < |t.approvals| {
      var decided := Decide(t, op.approval, if op.Grant? then Granted else Refused);
      CostOfOneMore(t.trail, decided.trail[|t.trail|]);
      if op.TurnDown? {
        var logged := if t.pendingStep.Some? && t.pendingStep.value != "" then
            decided.(log := decided.log + [StepRecord(t.pendingStep.value, t.approvals[op.approval].tool, DeniedByHuman, Some(op.approval), false, 0)])
          else decided;
        RunKeepsCost(logged.(cursor := t.cursor + 1, pendingApproval := None, pendingStep := None, status := Running), w);
      } else {
        ResumeKeepsCost(decided, op.approval, w);
      }
    }
  }

  lemma ResumeKeepsCost(t: Task, approval: nat, w: World)
    requires CostAddsUp(t)
    ensures CostAddsUp(Resume(t, approval, w))
  {
    var at := if t.pendingStep.Some? then FindStep(Steps(t), t.pendingStep.value, 0) else |Steps(t)|;
    if at == |Steps(t)| {
      RunKeepsCost(t, w);
    } else {
      var step := Steps(t)[at];
      var asked := Ask(t, step, w);
      CostOfOneMore(t.trail, asked.trail[|t.trail|]);
      RunKeepsCost(Refuse(asked, step), w);
      var ran := RunGranted(asked, step, approval, w);
      CostOfOneMore(asked.trail, ran.trail[|asked.trail|]);
      RunKeepsCost(ran, w);
    }
  }

  /** In every run, guarded or not, the tool cost is what the tools reported less what approved steps reported. */
  lemma {:induction false} ToolCostLeavesOutApprovedSteps(t: Task, ops: seq<Op>, w: World)
    requires CostAddsUp(t)
    ensures CostAddsUp(Exec(t, ops, w))
    decreases |ops|
  {
    if ops != [] {
      if ops[0].Start? { RunKeepsCost(t, w); } else { DecisionKeepsCost(t, ops[0], w); }
      ToolCostLeavesOutApprovedSteps(Apply(t, ops[0], w), ops[1..], w);
    }
  }

  /** The loop runs nothing on a human's word. */
  lemma {:induction false} LoopKeepsApprovedCost(t: Task, w: World)
    requires t.plan.Some?
    ensures ApprovedCost(Loop(t, w).trail) == ApprovedCost(t.trail)
    decreases |t.plan.value| - t.cursor
  {
    if t.cursor < |t.plan.value| {
      TurnKeepsApprovedCost(t, w);
      var u := Turn(t, w);
      if u.cursor > t.cursor { LoopKeepsApprovedCost(u, w); }
    }
  }

  lemma TurnKeepsApprovedCost(t: Task, w: World)
    requires t.plan.Some? && t.cursor < |t.plan.value|
    ensures ApprovedCost(Turn(t, w).trail) == ApprovedCost(t.trail)
  {
    var step := t.plan.value[t.cursor];
    var asked := Ask(t, step, w);
    CostOfOneMore(t.trail, asked.trail[|t.trail|]);
    match w.authorize(t.trail, step)
    case RequireApproval =>
      if w.AutoApproves() {
        var auto := asked.(trail := asked.trail + [AutoApproved(step)]);
        CostOfOneMore(asked.trail, AutoApproved(step));
        CostOfOneMore(auto.trail, Execute(auto, step, w).trail[|auto.trail|]);
      } else {
        CostOfOneMore(asked.trail, Pause(asked, step).trail[|asked.trail|]);
      }
    case Deny =>
    case Allow => CostOfOneMore(asked.trail, Execute(asked, step, w).trail[|asked.trail|]);
  }

  /** Nothing is missing from the tool cost so far. */
  ghost predicate CostIsWhole(t: Task) {
    t.toolCost == ReportedCost(t.trail)
  }

  /** Granting keeps the tool cost whole exactly when policy, asked again, denies, or the granted tool is free: whatever
      runs after it is counted. */
  lemma GrantKeepsCostWholeIff(t: Task, approval: nat, w: World)
    requires Inv(t, w) && t.status == RequiresApproval && approval < |t.approvals| && CostAddsUp(t) && CostIsWhole(t)
    ensures
      var granted, step := Decide(t, approval, Granted), Steps(t)[t.cursor];
      CostIsWhole(Approve(t, approval, w)) <==>
        w.authorize(granted.trail, step) == Deny || w.execute(Ask(granted, step, w).trail, step).cost == 0
  {
    var granted, step := Decide(t, approval, Granted), Steps(t)[t.cursor];
    ApproveOfWaiting(t, approval, w);
    DecisionKeepsCost(t, Grant(approval), w);
    GrantedApprovedCost(t, approval, step, w);
    var asked := Ask(granted, step, w);
    if w.authorize(granted.trail, step) == Deny {
      LoopKeepsApprovedCost(Refuse(asked, step).(status := Running), w);
    } else {
      LoopKeepsApprovedCost(RunGranted(asked, step, approval, w).(status := Running), w);
    }
  }

  lemma GrantedApprovedCost(t: Task, approval: nat, step: PlanStep, w: World)
    requires approval < |t.approvals|
    ensures
      var asked := Ask(Decide(t, approval, Granted), step, w);
      && ApprovedCost(asked.trail) == ApprovedCost(t.trail)
      && ApprovedCost(RunGranted(asked, step, approval, w).trail) == ApprovedCost(t.trail) + w.execute(asked.trail, step).cost
  {
    var granted := Decide(t, approval, Granted);
    var asked := Ask(granted, step, w);
    var ran := RunGranted(asked, step, approval, w);
    CostOfOneMore(t.trail, granted.trail[|t.trail|]);
    CostOfOneMore(granted.trail, asked.trail[|granted.trail|]);
    CostOfOneMore(asked.trail, ran.trail[|asked.trail|]);
  }

  // ---- a decision taken twice, and ids that repeat ------------------------

  const SEND := PlanStep("s1", "mail.send")

  /** Policy wants a human at first, denies when asked again after the grant, and allows later. */
  function ChangingWorld(): World {
    World(trail => Proposed([SEND]),
          (trail, step) => if |trail| == 0 then RequireApproval else if |trail| == 3 then Deny else Allow,
          (trail, step) => ToolResult(true, 1), 8, false, false)
  }

  /** Granting the same request a second time runs the tool of a step that was already logged as denied. */
  lemma SecondGrantRunsADeniedStep()
    ensures
      var w := ChangingWorld();
      var waiting := Run(NewTask(), w);
      var once := Approve(waiting, 0, w);
      var twice := Approve(once, 0, w);
      && Waits(waiting, 0)
      && once.status == Failed && once.log == [StepRecord("s1", "mail.send", Denied, None, false, 0)]
      && twice.log == once.log + [StepRecord("s1", "mail.send", Approved, Some(0), true, 0)]
      && twice.cursor == 2 && !LogIsPrefix(twice) && RanByTrail(twice.trail) == ["s1"]
      && twice.toolCost == 0 && ReportedCost(twice.trail) == 1
  {
    var w := ChangingWorld();
    var waiting := Run(NewTask(), w);
    assert waiting == Task(RequiresApproval, Some([SEND]), 0, Some(0), Some("s1"), [], 0, [Approval("s1", "mail.send", Pending)],
                           [Authorized(SEND, RequireApproval), Waiting(SEND, 0)]) by {
      FirstRunWaits(w);
    }
    var once := Approve(waiting, 0, w);
    var denied := [StepRecord("s1", "mail.send", Denied, None, false, 0)];
    assert once == Task(Failed, Some([SEND]), 1, Some(0), Some("s1"), denied, 0, [Approval("s1", "mail.send", Granted)],
                        waiting.trail + [HumanApproved(0)] + [Authorized(SEND, Deny)]);
    var twice := Approve(once, 0, w);
    var ran := once.trail + [HumanApproved(0)] + [Authorized(SEND, Allow)] + [Executed(SEND, true, 1, true)];
    assert twice == Task(Completed, Some([SEND]), 2, None, None, denied + [StepRecord("s1", "mail.send", Approved, Some(0), true, 0)],
                         0, [Approval("s1", "mail.send", Granted)], ran);
    OnlyTheLastRan(once.trail + [HumanApproved(0)] + [Authorized(SEND, Allow)], Executed(SEND, true, 1, true));
    OnlyTheLastCost(once.trail + [HumanApproved(0)] + [Authorized(SEND, Allow)], Executed(SEND, true, 1, true));
  }

  lemma {:induction false} OnlyTheLastCost(trail: seq<Event>, e: Event)
    requires forall i :: 0 <= i < |trail| ==> !trail[i].Executed?
    ensures ReportedCost(trail + [e]) == if e.Executed? then e.cost else 0
  {
    CostOfOneMore(trail, e);
    if trail != [] {
      assert trail == trail[..|trail| - 1] + [trail[|trail| - 1]];
      OnlyTheLastCost(trail[..|trail| - 1], trail[|trail| - 1]);
    }
  }

  lemma FirstRunWaits(w: World)
    requires w == ChangingWorld()
    ensures
      Run(NewTask(), w) ==
        Task(RequiresApproval, Some([SEND]), 0, Some(0), Some("s1"), [], 0, [Approval("s1", "mail.send", Pending)],
             [Authorized(SEND, RequireApproval), Waiting(SEND, 0)])
  {
    var planned := NewTask().(status := Running, plan := Some([SEND]));
    assert Run(NewTask(), w) == Loop(planned, w);
    assert Turn(planned, w).trail == [Authorized(SEND, RequireApproval)] + [Waiting(SEND, 0)];
  }

  lemma {:induction false} OnlyTheLastRan(trail: seq<Event>, e: Event)
    requires forall i :: 0 <= i < |trail| ==> !trail[i].Executed?
    ensures RanByTrail(trail + [e]) == if e.Executed? then [e.step.id] else []
  {
    RanByTrailAppended(trail, e);
    if trail != [] {
      assert trail == trail[..|trail| - 1] + [trail[|trail| - 1]];
      OnlyTheLastRan(trail[..|trail| - 1], trail[|trail| - 1]);
    }
  }

  /** Whatever ids the plan repeats: granting a waiting task decides the step it waits for exactly when the first step
      with that id has the same tool. */
  lemma GrantDecidesTheWaitedStepIff(t: Task, approval: nat, w: World)
    requires LogIsPrefix(t) && WaitsForCursor(t) && approval < |t.approvals|
    ensures
      var at := FindStep(Steps(t), Steps(t)[t.cursor].id, 0);
      at < |Steps(t)| && (LogIsPrefix(Approve(t, approval, w)) <==> Steps(t)[at].tool == Steps(t)[t.cursor].tool)
  {
    var at := FindStep(Steps(t), Steps(t)[t.cursor].id, 0);
    assert at <= t.cursor;
    var granted, step := Decide(t, approval, Granted), Steps(t)[at];
    var asked := Ask(granted, step, w);
    if w.authorize(granted.trail, step) == Deny {
      RecordedStepIff(t, Refuse(asked, step), w);
    } else {
      RecordedStepIff(t, RunGranted(asked, step, approval, w), w);
    }
  }

  /** After one more record, the run keeps to the plan exactly when the record is about the step at the cursor. */
  lemma RecordedStepIff(t: Task, u: Task, w: World)
    requires LogIsPrefix(t) && t.cursor < |Steps(t)| && u.plan == t.plan && u.cursor == t.cursor + 1
    requires |u.log| == |t.log| + 1 && u.log[..|t.log|] == t.log && u.log[t.cursor].id == Steps(t)[t.cursor].id
    ensures LogIsPrefix(Run(u, w)) <==> u.log[t.cursor].tool == Steps(t)[t.cursor].tool
  {
    RunKeepsLogEquivalent(u, w);
    assert u.log == t.log + [u.log[t.cursor]];
    if u.log[t.cursor].tool == Steps(t)[t.cursor].tool { OneDecided(t, u, u.log[t.cursor]); }
  }

  const READ := PlanStep("a", "file.read")
  const PAY := PlanStep("a", "bank.pay")

  /** Reading is allowed, paying needs a human; the planner gave both steps the same id. */
  function RepeatedIdWorld(): World {
    World(trail => Proposed([READ, PAY]),
          (trail, step: PlanStep) => if step.tool == "bank.pay" then RequireApproval else Allow,
          (trail, step) => ToolResult(true, 0), 8, false, false)
  }

  /** With repeated ids, granting the second step runs the first step's tool again. */
  lemma RepeatedIdRunsTheWrongTool()
    ensures
      var w := RepeatedIdWorld();
      var waiting := Run(NewTask(), w);
      var done := Approve(waiting, 0, w);
      && Waits(waiting, 0) && waiting.cursor == 1 && waiting.approvals[0].tool == "bank.pay"
      && done.status == Completed && |done.log| == 2
      && done.log[0].tool == "file.read" && done.log[1].tool == "file.read" && done.log[1].verdict == Approved
      && !LogIsPrefix(done)
  {
    var w := RepeatedIdWorld();
    var planned := NewTask().(status := Running, plan := Some([READ, PAY]));
    assert Run(NewTask(), w) == Loop(planned, w);
    var second := Turn(planned, w);
    assert second.cursor == 1 && Loop(planned, w) == Loop(second, w);
    var waiting := Turn(second, w);
    assert waiting.cursor == 1 && Loop(second, w) == waiting;
    assert FindStep([READ, PAY], "a", 0) == 0;
    var granted := Decide(waiting, 0, Granted);
    var ran := RunGranted(Ask(granted, READ, w), READ, 0, w);
    assert Approve(waiting, 0, w) == Run(ran, w) == Finish(ran.(status := Running));
    assert ran.log[0].tool == "file.read" && ran.log[1].tool == "file.read";
    assert ran.log[0] in ran.log;
  }

  // ---- a grant after the end ------------------------------------------------

  predicate EndsWaiting(trail: seq<Event>) {
    trail != [] && trail[|trail| - 1].Waiting?
  }

  /** A pending step, current or left over, has not run. */
  ghost predicate PendingHasNotRun(t: Task) {
    t.pendingStep.Some? ==> t.pendingStep.value !in RanByTrail(t.trail)
  }

  /** Only a task that waits has a trail that ends with waiting. */
  ghost predicate Rests(t: Task) {
    PendingHasNotRun(t) && (EndsWaiting(t.trail) ==> t.status == RequiresApproval)
  }

  lemma CursorHasNotRun(t: Task, w: World)
    requires Core(t, w) && t.cursor < |Steps(t)|
    ensures Steps(t)[t.cursor].id !in RanByTrail(t.trail)
  {
    forall i | 0 <= i < |RanByLog(t.log)| ensures RanByLog(t.log)[i] != Steps(t)[t.cursor].id {
      RanIdsAreLogged(t.log, i);
      var k :| 0 <= k < |t.log| && t.log[k].id == RanByLog(t.log)[i];
      assert t.log[k].id == Steps(t)[k].id;
    }
  }

  lemma TurnRests(t: Task, w: World)
    requires Core(t, w) && t.plan.Some? && t.cursor < |t.plan.value| && PendingHasNotRun(t)
    ensures PendingHasNotRun(Turn(t, w)) && (EndsWaiting(Turn(t, w).trail) ==> Turn(t, w).cursor == t.cursor)
  {
    TurnDecides(t, w);
    CursorHasNotRun(t, w);
  }

  lemma {:induction false} LoopRests(t: Task, w: World)
    requires InLoop(t, w) && t.plan.Some? && PendingHasNotRun(t) && (EndsWaiting(t.trail) ==> t.cursor < |t.plan.value|)
    ensures Rests(Loop(t, w))
    decreases |t.plan.value| - t.cursor
  {
    if t.cursor < |t.plan.value| {
      TurnKeeps(t, w);
      TurnExtends(t, w);
      TurnRests(t, w);
      var u := Turn(t, w);
      if u.cursor > t.cursor { LoopRests(u, w); }
    }
  }

  lemma RunRests(t: Task, w: World)
    requires InLoop(t, w) && PlansWell(w) && PendingHasNotRun(t) && (EndsWaiting(t.trail) ==> t.cursor < |Steps(t)|)
    ensures Rests(Run(t, w))
  {
    var started := t.(status := Running);
    if t.plan.Some? {
      LoopRests(started, w);
    } else if Adopt(w, t.trail).Some? {
      LoopRests(started.(plan := Adopt(w, t.trail)), w);
    }
  }

  lemma DeniedGrantRests(t: Task, approval: nat, w: World)
    requires Inv(t, w) && PlansWell(w) && Waits(t, approval) && PendingHasNotRun(t)
    ensures var step := Steps(t)[t.cursor]; Rests(Run(Refuse(Ask(Decide(t, approval, Granted), step, w), step), w))
  {
    var granted, step := Decide(t, approval, Granted), Steps(t)[t.cursor];
    var u := Refuse(Ask(granted, step, w), step);
    RanByTrailAppended(t.trail, HumanApproved(approval));
    RanByTrailAppended(granted.trail, Authorized(step, w.authorize(granted.trail, step)));
    assert InLoop(u, w) && u.plan.Some? by { DeniedGrantKeeps(t, approval, w); }
    assert PendingHasNotRun(u) && !EndsWaiting(u.trail);
    RunRests(u, w);
  }

  lemma RanGrantRests(t: Task, approval: nat, w: World)
    requires Inv(t, w) && PlansWell(w) && Waits(t, approval)
    requires w.authorize(Decide(t, approval, Granted).trail, Steps(t)[t.cursor]) != Deny
    ensures var step := Steps(t)[t.cursor]; Rests(Run(RunGranted(Ask(Decide(t, approval, Granted), step, w), step, approval, w), w))
  {
    var u := RunGranted(Ask(Decide(t, approval, Granted), Steps(t)[t.cursor], w), Steps(t)[t.cursor], approval, w);
    assert InLoop(u, w) && u.plan.Some? by { GrantedStepKeeps(t, approval, w); }
    assert PendingHasNotRun(u) && !EndsWaiting(u.trail);
    RunRests(u, w);
  }

  lemma GrantRests(t: Task, approval: nat, w: World)
    requires Inv(t, w) && PlansWell(w) && Waits(t, approval) && PendingHasNotRun(t)
    ensures Rests(Approve(t, approval, w))
  {
    ApproveOfWaiting(t, approval, w);
    if w.authorize(Decide(t, approval, Granted).trail, Steps(t)[t.cursor]) == Deny {
      DeniedGrantRests(t, approval, w);
    } else {
      RanGrantRests(t, approval, w);
    }
  }

  lemma RefusalRests(t: Task, approval: nat, w: World)
    requires Inv(t, w) && PlansWell(w) && Waits(t, approval)
    ensures Rests(Reject(t, approval, w))
  {
    var step := Steps(t)[t.cursor];
    assert step in Steps(t);
    RefusalKeeps(t, approval, w);
    RunRests(LogRefusal(Decide(t, approval, Refused), step, approval), w);
  }

  lemma {:induction false} RunsRest(t: Task, ops: seq<Op>, w: World)
    requires Inv(t, w) && PlansWell(w) && GuardedRun(t, ops, w) && Rests(t)
    ensures Rests(Exec(t, ops, w))
    decreases |ops|
  {
    if ops != [] {
      match ops[0] {
        case Start => RunRests(t, w);
        case Grant(a) => GrantRests(t, a, w);
        case TurnDown(a) => RefusalRests(t, a, w);
      }
      OperationKeeps(t, ops[0], w);
      RunsRest(Apply(t, ops[0], w), ops[1..], w);
    }
  }

  /** Granting would run the left-over pending step. */
  predicate RunsLeftOver(t: Task, approval: nat, w: World)
    requires approval < |t.approvals|
  {
    t.pendingStep.Some? &&
    var at := FindStep(Steps(t), t.pendingStep.value, 0);
    at < |Steps(t)| && w.authorize(Decide(t, approval, Granted).trail, Steps(t)[at]) != Deny
  }

  ghost predicate NoneTwice(ids: seq<string>) {
    forall i, j :: 0 <= i < j < |ids| ==> ids[i] != ids[j]
  }

  /** Granting any request after the end runs the left-over pending step unless policy denies it, and otherwise runs
      nothing: an execution nobody granted, but of a step that had not run. */
  lemma GrantAfterTheEndIsGovernedIff(ops: seq<Op>, approval: nat, w: World)
    requires PlansWell(w) && GuardedRun(NewTask(), ops, w)
    requires Exec(NewTask(), ops, w).status != RequiresApproval && approval < |Exec(NewTask(), ops, w).approvals|
    ensures
      var t := Exec(NewTask(), ops, w);
      var u := Approve(t, approval, w);
      && (Governed(u.trail, w) <==> !RunsLeftOver(t, approval, w))
      && RanByTrail(u.trail) == RanByTrail(t.trail) + (if RunsLeftOver(t, approval, w) then [t.pendingStep.value] else [])
      && NoneTwice(RanByTrail(u.trail))
  {
    NewTaskIsConsistent(w);
    RunsKeepInvariant(NewTask(), ops, w);
    RunsRest(NewTask(), ops, w);
    EachStepRunsAtMostOnce(ops, w);
    GrantOfEnded(Exec(NewTask(), ops, w), approval, w);
  }

  lemma GrantOfEnded(t: Task, approval: nat, w: World)
    requires Inv(t, w) && Rests(t) && t.status != RequiresApproval && approval < |t.approvals|
    ensures var u := Approve(t, approval, w);
      && (Governed(u.trail, w) <==> !RunsLeftOver(t, approval, w))
      && RanByTrail(u.trail) == RanByTrail(t.trail) + (if RunsLeftOver(t, approval, w) then [t.pendingStep.value] else [])
  {
    var granted := Decide(t, approval, Granted);
    EventAppended(t.trail, HumanApproved(approval), w);
    if t.pendingStep.Some? {
      StaleStepIsFound(t);
      var step := Steps(t)[FindStep(Steps(t), t.pendingStep.value, 0)];
      var asked := Ask(granted, step, w);
      EventAppended(granted.trail, Authorized(step, w.authorize(granted.trail, step)), w);
      if RunsLeftOver(t, approval, w) {
        var ran := RunGranted(asked, step, approval, w).trail;
        LeftOverIsUngoverned(t.trail, asked.trail, approval, ran[|asked.trail|], w);
        assert Approve(t, approval, w).trail == ran;
      }
    }
  }

  /** After a grant that no wait came right before, what a human's word runs is unjustified. */
  lemma LeftOverIsUngoverned(trail: seq<Event>, asked: seq<Event>, approval: nat, e: Event, w: World)
    requires |asked| == |trail| + 2 && trail <= asked && asked[|trail|] == HumanApproved(approval)
    requires !EndsWaiting(trail) && e.Executed? && e.byHuman
    ensures !Governed(asked + [e], w) && RanByTrail(asked + [e]) == RanByTrail(asked) + [e.step.id]
  {
    RanByTrailAppended(asked, e);
    var n := |trail|;
    assert n > 0 ==> (asked + [e])[n - 1] == trail[n - 1];
    assert (asked + [e])[n] == HumanApproved(approval) && (asked + [e])[n + 2] == e;
    assert !Justified(asked + [e], n + 2, w);
  }
}
