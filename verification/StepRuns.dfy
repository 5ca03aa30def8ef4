/** What every run of the step machine keeps, whatever policy, tools and people answer. */
module StepRuns {
  import opened Wrappers
  import opened StepMachine

  // ---- the invariant -----------------------------------------------------

  ghost predicate DistinctIds(plan: seq<PlanStep>) {
    forall i, j :: 0 <= i < j < |plan| ==> plan[i].id != plan[j].id
  }

  /** Step ids are distinct and not empty: nothing in the planner enforces it. */
  ghost predicate WellNamed(plan: seq<PlanStep>) {
    DistinctIds(plan) && forall step <- plan :: step.id != ""
  }

  ghost predicate PlansWell(w: World) {
    forall trail :: Adopt(w, trail).Some? ==> WellNamed(Adopt(w, trail).value)
  }

  function Steps(t: Task): seq<PlanStep> {
    if t.plan.Some? then t.plan.value else []
  }

  /** The log is the decided prefix of the plan, in order: one record per step before the cursor. */
  ghost predicate LogIsPrefix(t: Task) {
    && t.cursor <= |Steps(t)|
    && |t.log| == t.cursor
    && forall i :: 0 <= i < t.cursor ==> t.log[i].id == Steps(t)[i].id && t.log[i].tool == Steps(t)[i].tool
  }

  function LoggedCost(log: seq<StepRecord>): nat {
    if log == [] then 0 else LoggedCost(log[..|log| - 1]) + log[|log| - 1].cost
  }

  /** The ids of the steps whose tool ran, by the trail and by the log. */
  function RanByTrail(trail: seq<Event>): seq<string> {
    if trail == [] then []
    else
      var rest, last := RanByTrail(trail[..|trail| - 1]), trail[|trail| - 1];
      if last.Executed? then rest + [last.step.id] else rest
  }

  function RanByLog(log: seq<StepRecord>): seq<string> {
    if log == [] then []
    else
      var rest, last := RanByLog(log[..|log| - 1]), log[|log| - 1];
      if last.verdict == Allowed || last.verdict == Approved then rest + [last.id] else rest
  }

  /** The event at `i` is not an execution, or what came right before it justifies that execution. */
  ghost predicate Justified(trail: seq<Event>, i: nat, w: World)
    requires i < |trail|
  {
    trail[i].Executed? ==>
      var step := trail[i].step;
      if trail[i].byHuman then
        // asked, policy wanted a human, the request waited, a human granted that request, and policy did not object
        && i >= 4
        && trail[i - 4] == Authorized(step, RequireApproval)
        && trail[i - 3].Waiting? && trail[i - 3].step == step
        && trail[i - 2] == HumanApproved(trail[i - 3].approval)
        && trail[i - 1].Authorized? && trail[i - 1].step == step && trail[i - 1].decision != Deny
      else if i >= 1 && trail[i - 1].AutoApproved? then
        // only in development, and only where the workspace opted in
        && w.development && w.autoApproveInDevelopment
        && i >= 2
        && trail[i - 1].step == step
        && trail[i - 2] == Authorized(step, RequireApproval)
      else
        i >= 1 && trail[i - 1] == Authorized(step, Allow)
  }

  ghost predicate Governed(trail: seq<Event>, w: World) {
    forall i :: 0 <= i < |trail| ==> Justified(trail, i, w)
  }

  /** Holds between any two iterations as well as between operations. */
  ghost predicate Core(t: Task, w: World) {
    && LogIsPrefix(t)
    && WellNamed(Steps(t))
    && t.toolCost == LoggedCost(t.log)
    && RanByTrail(t.trail) == RanByLog(t.log)
    && Governed(t.trail, w)
  }

  /** A stopped task waits in front of the step at the cursor, for a pending request about that very step. */
  ghost predicate WaitsForCursor(t: Task) {
    && t.cursor < |Steps(t)|
    && var step := Steps(t)[t.cursor];
    && t.pendingStep == Some(step.id)
    && t.pendingApproval.Some?
    && t.pendingApproval.value < |t.approvals|
    && t.approvals[t.pendingApproval.value] == Approval(step.id, step.tool, Pending)
    && |t.trail| >= 2
    && t.trail[|t.trail| - 1] == Waiting(step, t.pendingApproval.value)
    && t.trail[|t.trail| - 2] == Authorized(step, RequireApproval)
  }

  /** Failed means: planning was refused, or the log is not empty and no step of it succeeded. */
  ghost predicate Settled(t: Task) {
    && t.status != Running
    && (t.status == New || t.plan.None? ==> t.log == [])
    && (t.status == New ==> t.plan.None?)
    && (t.status == RequiresApproval ==> WaitsForCursor(t))
    && (t.status == Completed ==> t.plan.Some?)
    && (t.plan.Some? && (t.status == Completed || t.status == Failed) ==>
          t.cursor == |t.plan.value| && (t.status == Failed <==> t.log != [] && !AnyOk(t.log)))
  }

  /** A pending step, current or left over, is one the cursor has reached. */
  ghost predicate PendingStepIsSeen(t: Task) {
    t.pendingStep.Some? ==> Seen(Steps(t), t.cursor, t.pendingStep.value)
  }

  ghost predicate Seen(plan: seq<PlanStep>, cursor: nat, id: string) {
    exists j :: 0 <= j <= cursor && j < |plan| && plan[j].id == id
  }

  /** An open request is about a step the cursor has reached, with that step's tool. */
  ghost predicate RequestsNameSteps(t: Task) {
    forall a <- t.approvals :: a.status == Pending ==> NamesStep(Steps(t), t.cursor, a)
  }

  ghost predicate NamesStep(plan: seq<PlanStep>, cursor: nat, a: Approval) {
    exists j :: 0 <= j <= cursor && j < |plan| && plan[j] == PlanStep(a.step, a.tool)
  }

  /** What holds inside the loop; `Inv` adds what holds when it stops. */
  ghost predicate InLoop(t: Task, w: World) {
    Core(t, w) && PendingStepIsSeen(t) && RequestsNameSteps(t)
  }

  ghost predicate Inv(t: Task, w: World) {
    InLoop(t, w) && Settled(t) && (t.plan.None? ==> t.approvals == [])
  }

  /** Nothing is taken back: same plan, longer log and trail, cursor not before where it was. */
  ghost predicate Extends(t: Task, u: Task) {
    && (t.plan.Some? ==> u.plan == t.plan)
    && t.cursor <= u.cursor
    && t.log <= u.log
    && t.trail <= u.trail
    && |t.approvals| <= |u.approvals|
  }

  // ---- one event, one record ---------------------------------------------

  lemma EventAppended(trail: seq<Event>, e: Event, w: World)
    requires Governed(trail, w)
    requires Justified(trail + [e], |trail|, w)
    ensures Governed(trail + [e], w)
    ensures RanByTrail(trail + [e]) == RanByTrail(trail) + if e.Executed? then [e.step.id] else []
  {
    RanByTrailAppended(trail, e);
    forall i | 0 <= i < |trail + [e]| ensures Justified(trail + [e], i, w) {
      if i < |trail| { StaysJustified(trail, e, i, w); }
    }
  }

  lemma RanByTrailAppended(trail: seq<Event>, e: Event)
    ensures RanByTrail(trail + [e]) == RanByTrail(trail) + if e.Executed? then [e.step.id] else []
  {
    assert (trail + [e])[..|trail + [e]| - 1] == trail;
  }

  lemma StaysJustified(trail: seq<Event>, e: Event, i: nat, w: World)
    requires i < |trail| && Justified(trail, i, w)
    ensures Justified(trail + [e], i, w)
  {
    assert forall k :: 0 <= k <= i ==> (trail + [e])[k] == trail[k];
  }

  lemma RecordAppended(log: seq<StepRecord>, r: StepRecord)
    ensures LoggedCost(log + [r]) == LoggedCost(log) + r.cost
    ensures RanByLog(log + [r]) == RanByLog(log) + if r.verdict == Allowed || r.verdict == Approved then [r.id] else []
  {
    assert (log + [r])[..|log + [r]| - 1] == log;
  }

  /** `u` is `t` with the step at the cursor decided by record `r`. */
  ghost predicate Decides(t: Task, u: Task, r: StepRecord, w: World) {
    && t.cursor < |Steps(t)| && r.id == Steps(t)[t.cursor].id && r.tool == Steps(t)[t.cursor].tool
    && u.plan == t.plan && u.cursor == t.cursor + 1 && u.log == t.log + [r] && u.toolCost == t.toolCost + r.cost
    && Governed(u.trail, w)
    && RanByTrail(u.trail) == RanByTrail(t.trail) + (if r.verdict == Allowed || r.verdict == Approved then [r.id] else [])
  }

  lemma DecisionKeepsCore(t: Task, u: Task, r: StepRecord, w: World)
    requires Core(t, w) && Decides(t, u, r, w)
    ensures Core(u, w)
  {
    RecordAppended(t.log, r);
  }

  /** Deciding the step at the cursor keeps what holds inside the loop. */
  lemma StepDecided(t: Task, u: Task, r: StepRecord, w: World)
    requires InLoop(t, w) && Decides(t, u, r, w)
    requires u.approvals == t.approvals
    requires u.pendingStep == None || u.pendingStep == t.pendingStep
    ensures InLoop(u, w)
  {
    DecisionKeepsCore(t, u, r, w);
    if u.pendingStep.Some? {
      assert Seen(Steps(t), t.cursor, t.pendingStep.value);
    }
    forall a <- u.approvals | a.status == Pending ensures NamesStep(Steps(u), u.cursor, a) {
      assert NamesStep(Steps(t), t.cursor, a);
    }
  }

  lemma AskKeeps(t: Task, step: PlanStep, w: World)
    requires InLoop(t, w)
    ensures InLoop(Ask(t, step, w), w)
  {
    EventAppended(t.trail, Authorized(step, w.authorize(t.trail, step)), w);
  }

  lemma PauseSettles(t: Task, w: World)
    requires InLoop(t, w) && t.plan.Some? && t.cursor < |Steps(t)|
    requires t.trail != [] && t.trail[|t.trail| - 1] == Authorized(Steps(t)[t.cursor], RequireApproval)
    ensures Inv(Pause(t, Steps(t)[t.cursor]), w) && Extends(t, Pause(t, Steps(t)[t.cursor]))
  {
    var step := Steps(t)[t.cursor];
    var a := FindPending(t.approvals, step.id, 0);
    var u := Pause(t, step);
    EventAppended(t.trail, Waiting(step, a), w);
    assert Steps(u)[u.cursor] == step;
    assert Seen(Steps(u), u.cursor, step.id);
    if a < |t.approvals| {
      assert NamesStep(Steps(t), t.cursor, t.approvals[a]);
    }
    forall b <- u.approvals | b.status == Pending ensures NamesStep(Steps(u), u.cursor, b) {
      if b in t.approvals { assert NamesStep(Steps(t), t.cursor, b); }
    }
  }

  lemma ExecuteKeeps(t: Task, w: World)
    requires InLoop(t, w) && t.cursor < |Steps(t)|
    requires
      var step, n := Steps(t)[t.cursor], |t.trail|;
      || (n >= 1 && t.trail[n - 1] == Authorized(step, Allow))
      || (n >= 2 && t.trail[n - 1] == AutoApproved(step) && t.trail[n - 2] == Authorized(step, RequireApproval) && w.AutoApproves())
    ensures InLoop(Execute(t, Steps(t)[t.cursor], w), w)
  {
    var step := Steps(t)[t.cursor];
    var r := w.execute(t.trail, step);
    EventAppended(t.trail, Executed(step, r.ok, r.cost, false), w);
    StepDecided(t, Execute(t, step, w), StepRecord(step.id, step.tool, Allowed, None, r.ok, r.cost), w);
  }

  lemma AutoApprovalKeeps(t: Task, w: World)
    requires InLoop(t, w) && t.plan.Some? && t.cursor < |Steps(t)| && w.AutoApproves()
    requires t.trail != [] && t.trail[|t.trail| - 1] == Authorized(Steps(t)[t.cursor], RequireApproval)
    ensures
      var step := Steps(t)[t.cursor];
      InLoop(Execute(t.(trail := t.trail + [AutoApproved(step)]), step, w), w)
  {
    var step := Steps(t)[t.cursor];
    EventAppended(t.trail, AutoApproved(step), w);
    ExecuteKeeps(t.(trail := t.trail + [AutoApproved(step)]), w);
  }

  lemma RefuseKeeps(t: Task, w: World)
    requires InLoop(t, w) && t.cursor < |Steps(t)|
    ensures InLoop(Refuse(t, Steps(t)[t.cursor]), w)
  {
    var step := Steps(t)[t.cursor];
    StepDecided(t, Refuse(t, step), StepRecord(step.id, step.tool, Denied, None, false, 0), w);
  }

  lemma TurnKeeps(t: Task, w: World)
    requires InLoop(t, w) && t.plan.Some? && t.cursor < |Steps(t)|
    ensures var u := Turn(t, w); if u.cursor == t.cursor then Inv(u, w) else InLoop(u, w)
  {
    var step := Steps(t)[t.cursor];
    var asked := Ask(t, step, w);
    AskKeeps(t, step, w);
    match w.authorize(t.trail, step)
    case RequireApproval => if w.AutoApproves() { AutoApprovalKeeps(asked, w); } else { PauseSettles(asked, w); }
    case Deny => RefuseKeeps(asked, w);
    case Allow => ExecuteKeeps(asked, w);
  }

  /** The record a decided step leaves: denied without running, or allowed after exactly one run of its tool. */
  ghost predicate DecidedBy(t: Task, u: Task, step: PlanStep, denied: bool) {
    && |u.log| == |t.log| + 1 && t.log == u.log[..|t.log|]
    && var rec := u.log[|t.log|];
    && rec.id == step.id && rec.tool == step.tool && rec.verdict == (if denied then Denied else Allowed)
    && (denied ==> !rec.ok && rec.cost == 0)
    && u.toolCost == t.toolCost + rec.cost
    && RanByTrail(u.trail) == RanByTrail(t.trail) + if denied then [] else [step.id]
  }

  /** One iteration stops in front of the step exactly when policy wants a human and nothing stands in for one, and then
      neither runs nor logs anything; otherwise it decides the step and moves on. */
  lemma TurnDecides(t: Task, w: World)
    requires t.plan.Some? && t.cursor < |t.plan.value|
    ensures
      var step, u, decision := t.plan.value[t.cursor], Turn(t, w), w.authorize(t.trail, t.plan.value[t.cursor]);
      if decision == RequireApproval && !(w.development && w.autoApproveInDevelopment)
        then u.cursor == t.cursor && u.status == RequiresApproval && u.pendingStep == Some(step.id) && u.pendingApproval.Some?
             && u.log == t.log && u.toolCost == t.toolCost && RanByTrail(u.trail) == RanByTrail(t.trail)
        else u.cursor == t.cursor + 1 && u.status == t.status && DecidedBy(t, u, step, decision == Deny)
  {
    var step := t.plan.value[t.cursor];
    var asked := Ask(t, step, w);
    RanByTrailAppended(t.trail, asked.trail[|t.trail|]);
    match w.authorize(t.trail, step)
    case RequireApproval =>
      if w.AutoApproves() {
        var auto := asked.(trail := asked.trail + [AutoApproved(step)]);
        RanByTrailAppended(asked.trail, AutoApproved(step));
        ExecuteDecides(auto, step, w);
      } else {
        RanByTrailAppended(asked.trail, Pause(asked, step).trail[|asked.trail|]);
      }
    case Deny =>
    case Allow => ExecuteDecides(asked, step, w);
  }

  lemma ExecuteDecides(t: Task, step: PlanStep, w: World)
    ensures DecidedBy(t, Execute(t, step, w), step, false)
  {
    RanByTrailAppended(t.trail, Execute(t, step, w).trail[|t.trail|]);
  }

  lemma TurnExtends(t: Task, w: World)
    requires t.plan.Some? && t.cursor < |Steps(t)|
    ensures Extends(t, Turn(t, w)) && (Turn(t, w).cursor == t.cursor ==> Turn(t, w).status == RequiresApproval)
  {
  }

  lemma {:induction false} LoopSettles(t: Task, w: World)
    requires InLoop(t, w) && t.plan.Some?
    ensures Inv(Loop(t, w), w) && Extends(t, Loop(t, w)) && Loop(t, w).status != New
    decreases |Steps(t)| - t.cursor
  {
    if t.cursor < |Steps(t)| {
      TurnKeeps(t, w);
      TurnExtends(t, w);
      var u := Turn(t, w);
      if u.cursor > t.cursor { LoopSettles(u, w); }
    }
  }

  // ---- one operation -----------------------------------------------------

  lemma RunKeeps(t: Task, w: World)
    requires InLoop(t, w) && PlansWell(w) && (t.plan.None? ==> t.approvals == [])
    ensures Inv(Run(t, w), w) && Extends(t, Run(t, w))
  {
    var started := t.(status := Running);
    if t.plan.Some? {
      LoopSettles(started, w);
    } else if Adopt(w, t.trail).Some? {
      LoopSettles(started.(plan := Adopt(w, t.trail)), w);
    }
  }

  lemma DecideKeeps(t: Task, approval: nat, status: ApprovalStatus, w: World)
    requires InLoop(t, w) && approval < |t.approvals| && status != Pending
    ensures InLoop(Decide(t, approval, status), w)
  {
    var u := Decide(t, approval, status);
    EventAppended(t.trail, u.trail[|t.trail|], w);
    forall a <- u.approvals | a.status == Pending ensures NamesStep(Steps(u), u.cursor, a) {
      assert a in t.approvals;
    }
  }

  /** The search by id finds the step at the cursor, because ids are distinct. */
  lemma WaitingStepIsFound(t: Task)
    requires WaitsForCursor(t) && DistinctIds(Steps(t))
    ensures FindStep(Steps(t), t.pendingStep.value, 0) == t.cursor
  {
    var at := FindStep(Steps(t), t.pendingStep.value, 0);
    assert at <= t.cursor;
  }

  ghost predicate Waits(t: Task, approval: nat) {
    t.status == RequiresApproval && t.pendingApproval == Some(approval)
  }

  lemma HumanGrantJustifies(t: Task, asked: seq<Event>, e: Event, approval: nat, w: World)
    requires WaitsForCursor(t) && t.pendingApproval == Some(approval)
    requires e.Executed? && e.byHuman && e.step == Steps(t)[t.cursor]
    requires |asked| == |t.trail| + 2 && t.trail <= asked && asked[|t.trail|] == HumanApproved(approval)
    requires asked[|t.trail| + 1].Authorized? && asked[|t.trail| + 1].step == e.step && asked[|t.trail| + 1].decision != Deny
    ensures Justified(asked + [e], |asked|, w)
  {
    var n := |t.trail|;
    assert (asked + [e])[n - 1] == t.trail[n - 1] && (asked + [e])[n - 2] == t.trail[n - 2];
  }

  lemma GrantedStepKeeps(t: Task, approval: nat, w: World)
    requires Inv(t, w) && Waits(t, approval)
    requires w.authorize(Decide(t, approval, Granted).trail, Steps(t)[t.cursor]) != Deny
    ensures
      var step := Steps(t)[t.cursor];
      var u := RunGranted(Ask(Decide(t, approval, Granted), step, w), step, approval, w);
      InLoop(u, w) && u.plan.Some? && Extends(t, u) && t.cursor < u.cursor
  {
    var granted, step := Decide(t, approval, Granted), Steps(t)[t.cursor];
    DecideKeeps(t, approval, Granted, w);
    var asked := Ask(granted, step, w);
    AskKeeps(granted, step, w);
    var r := w.execute(asked.trail, step);
    var e := Executed(step, r.ok, r.cost, true);
    HumanGrantJustifies(t, asked.trail, e, approval, w);
    EventAppended(asked.trail, e, w);
    StepDecided(asked, RunGranted(asked, step, approval, w),
                StepRecord(step.id, step.tool, Approved, Some(approval), r.ok, 0), w);
  }

  lemma DeniedGrantKeeps(t: Task, approval: nat, w: World)
    requires Inv(t, w) && Waits(t, approval)
    ensures
      var step := Steps(t)[t.cursor];
      var u := Refuse(Ask(Decide(t, approval, Granted), step, w), step);
      InLoop(u, w) && u.plan.Some? && Extends(t, u) && t.cursor < u.cursor
  {
    var granted, step := Decide(t, approval, Granted), Steps(t)[t.cursor];
    DecideKeeps(t, approval, Granted, w);
    AskKeeps(granted, step, w);
    RefuseKeeps(Ask(granted, step, w), w);
  }

  /** What granting the request of a waiting task comes to: the waiting step, then the rest of the loop. */
  lemma ApproveOfWaiting(t: Task, approval: nat, w: World)
    requires WaitsForCursor(t) && DistinctIds(Steps(t)) && approval < |t.approvals|
    ensures
      var granted, step := Decide(t, approval, Granted), Steps(t)[t.cursor];
      var asked := Ask(granted, step, w);
      Approve(t, approval, w) ==
        if w.authorize(granted.trail, step) == Deny then Run(Refuse(asked, step), w)
        else Run(RunGranted(asked, step, approval, w), w)
  {
    WaitingStepIsFound(t);
  }

  lemma RunAfter(t: Task, u: Task, w: World)
    requires InLoop(u, w) && PlansWell(w) && u.plan.Some? && Extends(t, u) && t.cursor < u.cursor
    ensures Inv(Run(u, w), w) && Extends(t, Run(u, w)) && t.cursor < Run(u, w).cursor
  {
    RunKeeps(u, w);
  }

  lemma ApproveKeeps(t: Task, approval: nat, w: World)
    requires Inv(t, w) && PlansWell(w) && Waits(t, approval)
    ensures Inv(Approve(t, approval, w), w)
    ensures Extends(t, Approve(t, approval, w)) && t.cursor < Approve(t, approval, w).cursor
  {
    var granted, step := Decide(t, approval, Granted), Steps(t)[t.cursor];
    var asked := Ask(granted, step, w);
    var u := if w.authorize(granted.trail, step) == Deny then Refuse(asked, step) else RunGranted(asked, step, approval, w);
    assert Approve(t, approval, w) == Run(u, w) by {
      ApproveOfWaiting(t, approval, w);
    }
    assert InLoop(u, w) && u.plan.Some? && Extends(t, u) && t.cursor < u.cursor by {
      if w.authorize(granted.trail, step) == Deny {
        DeniedGrantKeeps(t, approval, w);
      } else {
        GrantedStepKeeps(t, approval, w);
      }
    }
    RunAfter(t, u, w);
  }

  /** The task after the waiting step was logged as refused by a human. */
  function LogRefusal(refused: Task, step: PlanStep, approval: nat): Task {
    refused.(log := refused.log + [StepRecord(step.id, step.tool, DeniedByHuman, Some(approval), false, 0)],
             cursor := refused.cursor + 1, pendingApproval := None, pendingStep := None, status := Running)
  }

  lemma RefusalKeeps(t: Task, approval: nat, w: World)
    requires Inv(t, w) && Waits(t, approval)
    ensures
      var u := LogRefusal(Decide(t, approval, Refused), Steps(t)[t.cursor], approval);
      InLoop(u, w) && u.plan.Some? && Extends(t, u) && t.cursor < u.cursor
  {
    var refused, step := Decide(t, approval, Refused), Steps(t)[t.cursor];
    DecideKeeps(t, approval, Refused, w);
    StepDecided(refused, LogRefusal(refused, step, approval),
                StepRecord(step.id, step.tool, DeniedByHuman, Some(approval), false, 0), w);
  }

  lemma RejectKeeps(t: Task, approval: nat, w: World)
    requires Inv(t, w) && PlansWell(w) && Waits(t, approval)
    ensures Inv(Reject(t, approval, w), w)
    ensures Extends(t, Reject(t, approval, w)) && t.cursor < Reject(t, approval, w).cursor
  {
    var step := Steps(t)[t.cursor];
    var u := LogRefusal(Decide(t, approval, Refused), step, approval);
    assert Reject(t, approval, w) == Run(u, w) by {
      assert step in Steps(t);
    }
    RefusalKeeps(t, approval, w);
    RunAfter(t, u, w);
  }

  // ---- whole runs --------------------------------------------------------

  datatype Op = Start | Grant(approval: nat) | TurnDown(approval: nat)

  function Apply(t: Task, op: Op, w: World): Task {
    match op
    case Start => Run(t, w)
    case Grant(a) => Approve(t, a, w)
    case TurnDown(a) => Reject(t, a, w)
  }

  /** A decision is only taken on a task that waits, and on the request it waits for. */
  ghost predicate Guarded(t: Task, op: Op) {
    op.Start? || Waits(t, op.approval)
  }

  function Exec(t: Task, ops: seq<Op>, w: World): Task
    decreases |ops|
  {
    if ops == [] then t else Exec(Apply(t, ops[0], w), ops[1..], w)
  }

  ghost predicate GuardedRun(t: Task, ops: seq<Op>, w: World)
    decreases |ops|
  {
    ops != [] ==> Guarded(t, ops[0]) && GuardedRun(Apply(t, ops[0], w), ops[1..], w)
  }

  function Decisions(ops: seq<Op>): nat {
    if ops == [] then 0 else (if ops[0].Start? then 0 else 1) + Decisions(ops[1..])
  }

  lemma OperationKeeps(t: Task, op: Op, w: World)
    requires Inv(t, w) && PlansWell(w) && Guarded(t, op)
    ensures Inv(Apply(t, op, w), w) && Extends(t, Apply(t, op, w))
    ensures !op.Start? ==> t.cursor < Apply(t, op, w).cursor
  {
    match op
    case Start => RunKeeps(t, w);
    case Grant(a) => ApproveKeeps(t, a, w);
    case TurnDown(a) => RejectKeeps(t, a, w);
  }

  /** Main invariant: any sequence of runs, grants and refusals keeps the log the decided prefix of the plan,
      never moves the cursor back, and never rewrites the log or the trail. */
  lemma {:induction false} RunsKeepInvariant(t: Task, ops: seq<Op>, w: World)
    requires Inv(t, w) && PlansWell(w) && GuardedRun(t, ops, w)
    ensures Inv(Exec(t, ops, w), w) && Extends(t, Exec(t, ops, w))
    ensures t.cursor + Decisions(ops) <= Exec(t, ops, w).cursor
    decreases |ops|
  {
    if ops != [] {
      OperationKeeps(t, ops[0], w);
      RunsKeepInvariant(Apply(t, ops[0], w), ops[1..], w);
    }
  }

  lemma NewTaskIsConsistent(w: World)
    ensures Inv(NewTask(), w)
  {
  }

  /** From a fresh task, whatever happens: the log is plan[0..cursor) in order; a waiting task waits for the
      step at the cursor; the tool cost is the sum of the logged costs; a task that stopped is settled. */
  lemma LogFollowsPlan(ops: seq<Op>, w: World)
    requires PlansWell(w) && GuardedRun(NewTask(), ops, w)
    ensures
      var t := Exec(NewTask(), ops, w);
      && LogIsPrefix(t) && t.toolCost == LoggedCost(t.log)
      && (t.status == RequiresApproval ==> WaitsForCursor(t))
      && t.status != Running
  {
    NewTaskIsConsistent(w);
    RunsKeepInvariant(NewTask(), ops, w);
  }

  /** No tool runs without the decision that allows that very step right before it. */
  lemma EveryExecutionIsGoverned(ops: seq<Op>, w: World)
    requires PlansWell(w) && GuardedRun(NewTask(), ops, w)
    ensures Governed(Exec(NewTask(), ops, w).trail, w)
  {
    NewTaskIsConsistent(w);
    RunsKeepInvariant(NewTask(), ops, w);
  }

  lemma {:induction false} RanIdsAreLogged(log: seq<StepRecord>, i: nat)
    requires i < |RanByLog(log)|
    ensures exists k :: 0 <= k < |log| && log[k].id == RanByLog(log)[i]
  {
    var shorter := RanByLog(log[..|log| - 1]);
    if i < |shorter| {
      RanIdsAreLogged(log[..|log| - 1], i);
      var k :| 0 <= k < |log| - 1 && log[..|log| - 1][k].id == shorter[i];
      assert log[k].id == RanByLog(log)[i];
    } else {
      assert log[|log| - 1].id == RanByLog(log)[i];
    }
  }

  lemma {:induction false} RanIdsAreDistinct(log: seq<StepRecord>)
    requires forall i, j :: 0 <= i < j < |log| ==> log[i].id != log[j].id
    ensures forall i, j :: 0 <= i < j < |RanByLog(log)| ==> RanByLog(log)[i] != RanByLog(log)[j]
  {
    if log != [] {
      var rest := log[..|log| - 1];
      RanIdsAreDistinct(rest);
      forall i | 0 <= i < |RanByLog(rest)| ensures RanByLog(rest)[i] != log[|log| - 1].id {
        RanIdsAreLogged(rest, i);
      }
    }
  }

  /** Each plan step's tool runs at most once in a whole run, and runs exactly for the records that say so. */
  lemma EachStepRunsAtMostOnce(ops: seq<Op>, w: World)
    requires PlansWell(w) && GuardedRun(NewTask(), ops, w)
    ensures
      var t := Exec(NewTask(), ops, w);
      && RanByTrail(t.trail) == RanByLog(t.log)
      && forall i, j :: 0 <= i < j < |RanByTrail(t.trail)| ==> RanByTrail(t.trail)[i] != RanByTrail(t.trail)[j]
  {
    NewTaskIsConsistent(w);
    RunsKeepInvariant(NewTask(), ops, w);
    var t := Exec(NewTask(), ops, w);
    assert forall i :: 0 <= i < |t.log| ==> t.log[i].id == Steps(t)[i].id;
    RanIdsAreDistinct(t.log);
  }

  /** Once there is a plan, the run is over after at most one human decision per step that is left. */
  lemma HumanDecisionsAreBounded(t: Task, ops: seq<Op>, w: World)
    requires Inv(t, w) && PlansWell(w) && t.plan.Some? && GuardedRun(t, ops, w)
    ensures Decisions(ops) <= |t.plan.value| - t.cursor
    ensures Decisions(ops) == |t.plan.value| - t.cursor ==> Exec(t, ops, w).status in {Completed, Failed}
  {
    RunsKeepInvariant(t, ops, w);
  }

  /** A task that went through its plan failed exactly when something was logged and nothing of it succeeded. */
  lemma FailedIffNothingSucceeded(ops: seq<Op>, w: World)
    requires PlansWell(w) && GuardedRun(NewTask(), ops, w)
    ensures
      var t := Exec(NewTask(), ops, w);
      t.plan.Some? && t.status != RequiresApproval ==>
        && t.cursor == |t.plan.value|
        && (t.status == Failed <==> t.log != [] && forall r <- t.log :: !r.ok)
        && (t.status == Completed <==> t.log == [] || exists r <- t.log :: r.ok)
  {
    NewTaskIsConsistent(w);
    RunsKeepInvariant(NewTask(), ops, w);
  }
}
