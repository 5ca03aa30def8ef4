/** The trail says everything: replaying its events gives the task's log, cost, cursor, requests and pending step back, over
    every run, and each event carries what policy and tools answered. */
module StepTrail {
  import opened Wrappers
  import opened StepMachine
  import opened StepRuns

  // ---- replaying events -------------------------------------------------------

  /** The request granted last. */
  function LastGrant(trail: seq<Event>): Option<nat> {
    if trail == [] then None
    else if trail[|trail| - 1].HumanApproved? then Some(trail[|trail| - 1].approval)
    else LastGrant(trail[..|trail| - 1])
  }

  function Marked(approvals: seq<Approval>, a: nat, status: ApprovalStatus): seq<Approval> {
    if a < |approvals| then approvals[a := approvals[a].(status := status)] else approvals
  }

  /** The line an execution leaves in the log: what the tool answered; a granted run names its request and costs nothing. */
  function RunRecord(trail: seq<Event>, step: PlanStep, ok: bool, cost: nat, byHuman: bool): StepRecord {
    if byHuman then StepRecord(step.id, step.tool, Approved, LastGrant(trail), ok, 0)
    else StepRecord(step.id, step.tool, Allowed, None, ok, cost)
  }

  /** The line a refusal leaves, if it was about a pending step. */
  function RefusalRecord(t: Task, a: nat): seq<StepRecord> {
    if t.pendingStep.Some? && t.pendingStep.value != "" && a < |t.approvals|
      then [StepRecord(t.pendingStep.value, t.approvals[a].tool, DeniedByHuman, Some(a), false, 0)] else []
  }

  /** What one event makes of a task. */
  function Happened(t: Task, e: Event): Task {
    var u := t.(trail := t.trail + [e]);
    match e
    case Authorized(step, decision) =>
      if decision != Deny then u
      else u.(log := t.log + [StepRecord(step.id, step.tool, Denied, None, false, 0)], cursor := t.cursor + 1)
    case AutoApproved(_) => u
    case Waiting(step, a) =>
      u.(pendingApproval := Some(a), pendingStep := Some(step.id),
         approvals := if a < |t.approvals| then t.approvals else t.approvals + [Approval(step.id, step.tool, Pending)])
    case HumanApproved(a) => u.(approvals := Marked(t.approvals, a, Granted))
    case HumanDenied(a) =>
      u.(approvals := Marked(t.approvals, a, Refused), log := t.log + RefusalRecord(t, a), cursor := t.cursor + 1,
         pendingApproval := None, pendingStep := None)
    case Executed(step, ok, cost, byHuman) =>
      u.(log := t.log + [RunRecord(t.trail, step, ok, cost, byHuman)], toolCost := t.toolCost + (if byHuman then 0 else cost),
         cursor := t.cursor + 1, pendingApproval := None, pendingStep := None)
  }

  function Replay(trail: seq<Event>): Task {
    if trail == [] then NewTask() else Happened(Replay(trail[..|trail| - 1]), trail[|trail| - 1])
  }

  /** All of the task but its plan and its status is what its trail says. */
  ghost predicate Told(t: Task) {
    t == Replay(t.trail).(plan := t.plan, status := t.status)
  }

  /** The event at `i` carries what policy or the tool answered there. */
  ghost predicate Answered(trail: seq<Event>, i: nat, w: World)
    requires i < |trail|
  {
    match trail[i]
    case Authorized(step, decision) => decision == w.authorize(trail[..i], step)
    case Executed(step, ok, cost, _) => w.execute(trail[..i], step) == ToolResult(ok, cost)
    case _ => true
  }

  ghost predicate Honest(trail: seq<Event>, w: World) {
    forall i :: 0 <= i < |trail| ==> Answered(trail, i, w)
  }

  ghost predicate Faithful(t: Task, w: World) {
    Told(t) && Honest(t.trail, w)
  }

  lemma HonestMore(trail: seq<Event>, e: Event, w: World)
    requires Honest(trail, w)
    requires e.Authorized? ==> e.decision == w.authorize(trail, e.step)
    requires e.Executed? ==> w.execute(trail, e.step) == ToolResult(e.ok, e.cost)
    ensures Honest(trail + [e], w)
  {
    forall i | 0 <= i < |trail + [e]| ensures Answered(trail + [e], i, w) {
      assert (trail + [e])[..i] == trail[..i];
      if i < |trail| { assert Answered(trail, i, w); } else { assert trail[..i] == trail; }
    }
  }

  lemma ReplayMore(trail: seq<Event>, e: Event)
    ensures Replay(trail + [e]) == Happened(Replay(trail), e)
  {
    assert (trail + [e])[..|trail|] == trail;
  }

  /** One more event, told as it happened. */
  lemma FaithfulMore(t: Task, e: Event, u: Task, w: World)
    requires Faithful(t, w) && u == Happened(t, e).(plan := u.plan, status := u.status)
    requires e.Authorized? ==> e.decision == w.authorize(t.trail, e.step)
    requires e.Executed? ==> w.execute(t.trail, e.step) == ToolResult(e.ok, e.cost)
    ensures Faithful(u, w)
  {
    HonestMore(t.trail, e, w);
    ReplayMore(t.trail, e);
  }

  // ---- every operation ----------------------------------------------------------

  lemma AskTells(t: Task, step: PlanStep, w: World)
    requires Faithful(t, w)
    ensures w.authorize(t.trail, step) != Deny ==> Faithful(Ask(t, step, w), w)
    ensures w.authorize(t.trail, step) == Deny ==> Faithful(Refuse(Ask(t, step, w), step), w)
  {
    var e := Authorized(step, w.authorize(t.trail, step));
    FaithfulMore(t, e, if e.decision == Deny then Refuse(Ask(t, step, w), step) else Ask(t, step, w), w);
  }

  lemma ExecuteTells(t: Task, step: PlanStep, w: World)
    requires Faithful(t, w)
    ensures Faithful(Execute(t, step, w), w)
  {
    var r := w.execute(t.trail, step);
    FaithfulMore(t, Executed(step, r.ok, r.cost, false), Execute(t, step, w), w);
  }

  lemma TurnTells(t: Task, w: World)
    requires Faithful(t, w) && t.plan.Some? && t.cursor < |t.plan.value|
    ensures Faithful(Turn(t, w), w)
  {
    var step := t.plan.value[t.cursor];
    var asked := Ask(t, step, w);
    AskTells(t, step, w);
    match w.authorize(t.trail, step)
    case RequireApproval =>
      if w.AutoApproves() {
        var auto := asked.(trail := asked.trail + [AutoApproved(step)]);
        FaithfulMore(asked, AutoApproved(step), auto, w);
        ExecuteTells(auto, step, w);
      } else {
        FaithfulMore(asked, Waiting(step, FindPending(asked.approvals, step.id, 0)), Pause(asked, step), w);
      }
    case Deny =>
    case Allow => ExecuteTells(asked, step, w);
  }

  lemma {:induction false} LoopTells(t: Task, w: World)
    requires Faithful(t, w) && t.plan.Some?
    ensures Faithful(Loop(t, w), w)
    decreases |t.plan.value| - t.cursor
  {
    if t.cursor < |t.plan.value| {
      TurnTells(t, w);
      var u := Turn(t, w);
      if u.cursor > t.cursor { LoopTells(u, w); }
    }
  }

  lemma RunTells(t: Task, w: World)
    requires Faithful(t, w)
    ensures Faithful(Run(t, w), w)
  {
    var started := t.(status := Running);
    if t.plan.Some? {
      LoopTells(started, w);
    } else if Adopt(w, t.trail).Some? {
      LoopTells(started.(plan := Adopt(w, t.trail)), w);
    }
  }

  lemma RunGrantedTells(asked: Task, step: PlanStep, approval: nat, w: World)
    requires Faithful(asked, w) && LastGrant(asked.trail) == Some(approval)
    ensures Faithful(RunGranted(asked, step, approval, w), w)
  {
    var r := w.execute(asked.trail, step);
    FaithfulMore(asked, Executed(step, r.ok, r.cost, true), RunGranted(asked, step, approval, w), w);
  }

  lemma LastGrantMore(trail: seq<Event>, e: Event)
    ensures LastGrant(trail + [e]) == if e.HumanApproved? then Some(e.approval) else LastGrant(trail)
  {
    assert (trail + [e])[..|trail|] == trail;
  }

  lemma ResumeTells(t: Task, approval: nat, w: World)
    requires Faithful(t, w) && LastGrant(t.trail) == Some(approval)
    ensures Faithful(Resume(t, approval, w), w)
  {
    var at := if t.pendingStep.Some? then FindStep(Steps(t), t.pendingStep.value, 0) else |Steps(t)|;
    if at == |Steps(t)| {
      RunTells(t, w);
    } else {
      var step := Steps(t)[at];
      var asked := Ask(t, step, w);
      AskTells(t, step, w);
      if w.authorize(t.trail, step) == Deny {
        RunTells(Refuse(asked, step), w);
      } else {
        LastGrantMore(t.trail, Authorized(step, w.authorize(t.trail, step)));
        RunGrantedTells(asked, step, approval, w);
        RunTells(RunGranted(asked, step, approval, w), w);
      }
    }
  }

  lemma ApproveTells(t: Task, approval: nat, w: World)
    requires Faithful(t, w)
    ensures Faithful(Approve(t, approval, w), w)
  {
    if approval < |t.approvals| {
      FaithfulMore(t, HumanApproved(approval), Decide(t, approval, Granted), w);
      LastGrantMore(t.trail, HumanApproved(approval));
      ResumeTells(Decide(t, approval, Granted), approval, w);
    }
  }

  /** The task a refusal leaves for the loop to go on with. */
  function AfterRefusal(t: Task, approval: nat): Task
    requires approval < |t.approvals|
  {
    Decide(t, approval, Refused).(log := t.log + RefusalRecord(t, approval), cursor := t.cursor + 1, pendingApproval := None,
                                  pendingStep := None, status := Running)
  }

  lemma RejectIs(t: Task, approval: nat, w: World)
    requires approval < |t.approvals|
    ensures Reject(t, approval, w) == Run(AfterRefusal(t, approval), w)
  {
    assert t.log + [] == t.log;
  }

  lemma RejectTells(t: Task, approval: nat, w: World)
    requires Faithful(t, w)
    ensures Faithful(Reject(t, approval, w), w)
  {
    if approval < |t.approvals| {
      FaithfulMore(t, HumanDenied(approval), AfterRefusal(t, approval), w);
      RejectIs(t, approval, w);
      RunTells(AfterRefusal(t, approval), w);
    }
  }

  /** Over every run, guarded or not: the log, the cost, the cursor, the requests and the pending step are those the trail
      replays to, and every answer in the trail is the one policy or the tool gave at that point. */
  lemma {:induction false} TaskIsItsTrail(t: Task, ops: seq<Op>, w: World)
    requires Faithful(t, w)
    ensures Faithful(Exec(t, ops, w), w)
    decreases |ops|
  {
    if ops != [] {
      match ops[0] {
        case Start => RunTells(t, w);
        case Grant(a) => ApproveTells(t, a, w);
        case TurnDown(a) => RejectTells(t, a, w);
      }
      TaskIsItsTrail(Apply(t, ops[0], w), ops[1..], w);
    }
  }

  // ---- the verdict ----------------------------------------------------------------

  /** At `i` a tool ran and reported success. */
  ghost predicate SucceededAt(trail: seq<Event>, i: nat, w: World) {
    i < |trail| && trail[i].Executed? && w.execute(trail[..i], trail[i].step).ok
  }

  lemma {:induction false} OkIffExecuted(trail: seq<Event>)
    ensures AnyOk(Replay(trail).log) <==> exists i :: 0 <= i < |trail| && trail[i].Executed? && trail[i].ok
  {
    if trail != [] {
      var n := |trail| - 1;
      var before := Replay(trail[..n]);
      OkIffExecuted(trail[..n]);
      assert Replay(trail) == Happened(before, trail[n]);
      if AnyOk(before.log) {
        var r :| r in before.log && r.ok;
        assert r in Replay(trail).log;
        var i :| 0 <= i < n && trail[..n][i].Executed? && trail[..n][i].ok;
        assert trail[i].Executed?;
      }
      if trail[n].Executed? {
        assert Replay(trail).log[|before.log|] == RunRecord(before.trail, trail[n].step, trail[n].ok, trail[n].cost, trail[n].byHuman);
      }
    }
  }

  /** A task at rest: without a plan it is new or failed, waiting it waits, and otherwise the verdict is on its log. */
  ghost predicate Judged(t: Task) {
    && t.status != Running
    && (t.plan.None? ==> t.status == New || t.status == Failed)
    && (t.plan.Some? ==> t.status != New)
    && (t.plan.Some? && t.status != RequiresApproval ==> (t.status == Failed <==> t.log != [] && !AnyOk(t.log)))
  }

  lemma {:induction false} LoopJudges(t: Task, w: World)
    requires t.plan.Some?
    ensures Judged(Loop(t, w))
    decreases |t.plan.value| - t.cursor
  {
    if t.cursor < |t.plan.value| {
      TurnExtends(t, w);
      var u := Turn(t, w);
      if u.cursor > t.cursor { LoopJudges(u, w); }
    }
  }

  lemma RunJudges(t: Task, w: World)
    ensures Judged(Run(t, w))
  {
    var started := t.(status := Running);
    if t.plan.Some? {
      LoopJudges(started, w);
    } else if Adopt(w, t.trail).Some? {
      LoopJudges(started.(plan := Adopt(w, t.trail)), w);
    }
  }

  lemma ApplyJudges(t: Task, op: Op, w: World)
    requires Judged(t)
    ensures Judged(Apply(t, op, w))
  {
    match op
    case Start => RunJudges(t, w);
    case Grant(a) => if a < |t.approvals| { ResumeJudges(Decide(t, a, Granted), a, w); }
    case TurnDown(a) =>
      if a < |t.approvals| {
        RejectIs(t, a, w);
        RunJudges(AfterRefusal(t, a), w);
      }
  }

  lemma ResumeJudges(t: Task, approval: nat, w: World)
    ensures Judged(Resume(t, approval, w))
  {
    var at := if t.pendingStep.Some? then FindStep(Steps(t), t.pendingStep.value, 0) else |Steps(t)|;
    if at == |Steps(t)| {
      RunJudges(t, w);
    } else {
      var asked := Ask(t, Steps(t)[at], w);
      RunJudges(Refuse(asked, Steps(t)[at]), w);
      RunJudges(RunGranted(asked, Steps(t)[at], approval, w), w);
    }
  }

  lemma {:induction false} RunsJudge(t: Task, ops: seq<Op>, w: World)
    requires Judged(t)
    ensures Judged(Exec(t, ops, w))
    decreases |ops|
  {
    if ops != [] {
      ApplyJudges(t, ops[0], w);
      RunsJudge(Apply(t, ops[0], w), ops[1..], w);
    }
  }

  /** Over every run, guarded or not: a planned task that does not wait failed exactly when something was logged and no tool
      that ran reported success. */
  lemma FailedIffNoToolSucceeded(ops: seq<Op>, w: World)
    ensures
      var t := Exec(NewTask(), ops, w);
      t.plan.Some? && t.status != RequiresApproval ==>
        && t.status in {Completed, Failed}
        && (t.status == Failed <==> t.log != [] && forall i :: !SucceededAt(t.trail, i, w))
  {
    var t := Exec(NewTask(), ops, w);
    TaskIsItsTrail(NewTask(), ops, w);
    RunsJudge(NewTask(), ops, w);
    OkIffExecuted(t.trail);
    forall i: nat | i < |t.trail| && t.trail[i].Executed? ensures SucceededAt(t.trail, i, w) <==> t.trail[i].ok {
      assert Answered(t.trail, i, w);
    }
  }

  // ---- the plan -------------------------------------------------------------------

  /** What a task with a plan may have adopted, or why it has none. */
  ghost predicate PlanFits(t: Task, w: World) {
    match w.planner([])
    case Proposed(steps) =>
      t.plan.Some? ==> && t.plan.value <= steps
                       && |t.plan.value| <= w.maxSteps
                       && (|t.plan.value| == |steps| || |t.plan.value| == w.maxSteps)
    case ModelFailed => t.plan.Some? ==> t.plan.value == [PlanStep("s1", "filesystem.list")]
    case Unparseable => t.plan.Some? ==> t.plan.value == [PlanStep("s1", "filesystem.list")]
    case BudgetBlocked => t.plan == None
    case NotAuthorized => t.plan == None
  }

  /** Planned once, before anything else; a task that was started and has no plan failed and did nothing. */
  ghost predicate Planned(t: Task, w: World) {
    && PlanFits(t, w)
    && (t.plan.None? ==> t.trail == [] && t.approvals == [] && t.pendingStep == None && t.status in {New, Failed})
    && (t.plan.None? && t.status == Failed ==> w.planner([]) in {BudgetBlocked, NotAuthorized})
  }

  lemma {:induction false} LoopKeepsPlan(t: Task, w: World)
    requires t.plan.Some?
    ensures Loop(t, w).plan == t.plan
    decreases |t.plan.value| - t.cursor
  {
    if t.cursor < |t.plan.value| {
      var u := Turn(t, w);
      if u.cursor > t.cursor { LoopKeepsPlan(u, w); }
    }
  }

  lemma RunKeepsPlan(t: Task, w: World)
    requires t.plan.Some?
    ensures Run(t, w).plan == t.plan
  {
    LoopKeepsPlan(t.(status := Running), w);
  }

  lemma StartPlans(t: Task, w: World)
    requires Planned(t, w)
    ensures Planned(Run(t, w), w)
  {
    if t.plan.Some? {
      RunKeepsPlan(t, w);
    } else if Adopt(w, []).Some? {
      LoopKeepsPlan(t.(status := Running, plan := Adopt(w, [])), w);
    }
  }

  lemma ApplyPlans(t: Task, op: Op, w: World)
    requires Planned(t, w)
    ensures Planned(Apply(t, op, w), w)
  {
    match op
    case Start => StartPlans(t, w);
    case Grant(a) => if a < |t.approvals| { ResumeKeepsPlan(Decide(t, a, Granted), a, w); }
    case TurnDown(a) =>
      if a < |t.approvals| {
        RejectIs(t, a, w);
        RunKeepsPlan(AfterRefusal(t, a), w);
      }
  }

  lemma ResumeKeepsPlan(t: Task, approval: nat, w: World)
    requires t.plan.Some?
    ensures Resume(t, approval, w).plan == t.plan
  {
    var at := if t.pendingStep.Some? then FindStep(Steps(t), t.pendingStep.value, 0) else |Steps(t)|;
    if at == |Steps(t)| {
      RunKeepsPlan(t, w);
    } else {
      var asked := Ask(t, Steps(t)[at], w);
      RunKeepsPlan(Refuse(asked, Steps(t)[at]), w);
      RunKeepsPlan(RunGranted(asked, Steps(t)[at], approval, w), w);
    }
  }

  lemma {:induction false} RunsArePlanned(t: Task, ops: seq<Op>, w: World)
    requires Planned(t, w)
    ensures Planned(Exec(t, ops, w), w)
    decreases |ops|
  {
    if ops != [] {
      ApplyPlans(t, ops[0], w);
      RunsArePlanned(Apply(t, ops[0], w), ops[1..], w);
    }
  }

  /** Over every run: the plan is the longest part of the proposal the step budget allows, or the one-step fallback when
      the model gave none; without a plan the task is new, or failed because planning was refused, and did nothing. */
  lemma PlanIsTheProposal(ops: seq<Op>, w: World)
    ensures Planned(Exec(NewTask(), ops, w), w)
  {
    RunsArePlanned(NewTask(), ops, w);
  }

  /** A human decision on a request that exists is the next event; on any other request nothing happens. */
  lemma DecisionIsRecordedIff(t: Task, approval: nat, w: World)
    ensures approval < |t.approvals| ==> t.trail + [HumanApproved(approval)] <= Approve(t, approval, w).trail
    ensures approval < |t.approvals| ==> t.trail + [HumanDenied(approval)] <= Reject(t, approval, w).trail
    ensures approval >= |t.approvals| ==> Approve(t, approval, w) == t == Reject(t, approval, w)
  {
    if approval < |t.approvals| {
      RejectIs(t, approval, w);
      RunExtends(AfterRefusal(t, approval), w);
      ResumeExtends(Decide(t, approval, Granted), approval, w);
    }
  }

  lemma {:induction false} LoopExtends(t: Task, w: World)
    requires t.plan.Some?
    ensures t.trail <= Loop(t, w).trail
    decreases |t.plan.value| - t.cursor
  {
    if t.cursor < |t.plan.value| {
      TurnExtends(t, w);
      var u := Turn(t, w);
      if u.cursor > t.cursor { LoopExtends(u, w); }
    }
  }

  lemma RunExtends(t: Task, w: World)
    ensures t.trail <= Run(t, w).trail
  {
    var started := t.(status := Running);
    if t.plan.Some? {
      LoopExtends(started, w);
    } else if Adopt(w, t.trail).Some? {
      LoopExtends(started.(plan := Adopt(w, t.trail)), w);
    }
  }

  lemma ResumeExtends(t: Task, approval: nat, w: World)
    ensures t.trail <= Resume(t, approval, w).trail
  {
    var at := if t.pendingStep.Some? then FindStep(Steps(t), t.pendingStep.value, 0) else |Steps(t)|;
    if at == |Steps(t)| {
      RunExtends(t, w);
    } else {
      var asked := Ask(t, Steps(t)[at], w);
      RunExtends(Refuse(asked, Steps(t)[at]), w);
      RunExtends(RunGranted(asked, Steps(t)[at], approval, w), w);
    }
  }

  // ---- requests --------------------------------------------------------------------

  /** No two requests are about one step, and each is about a step the cursor has reached. */
  ghost predicate AskedOnce(t: Task) {
    && (forall i, j :: 0 <= i < j < |t.approvals| ==> t.approvals[i].step != t.approvals[j].step)
    && (forall a <- t.approvals :: Seen(Steps(t), t.cursor, a.step))
  }

  /** A request about the step at the cursor is still open. */
  ghost predicate OpenAtCursor(t: Task) {
    t.cursor < |Steps(t)| ==> forall a <- t.approvals :: a.step == Steps(t)[t.cursor].id ==> a.status == Pending
  }

  lemma MovedOn(t: Task, u: Task)
    requires AskedOnce(t) && DistinctIds(Steps(t)) && u.plan == t.plan && u.cursor == t.cursor + 1 && u.approvals == t.approvals
    ensures AskedOnce(u) && OpenAtCursor(u)
  {
    forall a <- u.approvals
      ensures Seen(Steps(u), u.cursor, a.step) && (u.cursor < |Steps(u)| ==> a.step != Steps(u)[u.cursor].id)
    {
      var j :| 0 <= j <= t.cursor && j < |Steps(t)| && Steps(t)[j].id == a.step;
      assert j <= u.cursor && Steps(u)[j].id == a.step;
    }
  }

  lemma PauseAsksOnce(t: Task)
    requires AskedOnce(t) && OpenAtCursor(t) && t.cursor < |Steps(t)|
    ensures AskedOnce(Pause(t, Steps(t)[t.cursor])) && OpenAtCursor(Pause(t, Steps(t)[t.cursor]))
  {
    var step := Steps(t)[t.cursor];
    var u := Pause(t, step);
    forall a <- u.approvals ensures Seen(Steps(u), u.cursor, a.step) {
      if a in t.approvals { assert Seen(Steps(t), t.cursor, a.step); } else { assert Steps(u)[u.cursor].id == a.step; }
    }
    if FindPending(t.approvals, step.id, 0) == |t.approvals| {
      forall i | 0 <= i < |t.approvals| ensures t.approvals[i].step != step.id { assert t.approvals[i] in t.approvals; }
    }
  }

  lemma TurnAsksOnce(t: Task, w: World)
    requires AskedOnce(t) && OpenAtCursor(t) && DistinctIds(Steps(t)) && t.plan.Some? && t.cursor < |t.plan.value|
    ensures AskedOnce(Turn(t, w)) && OpenAtCursor(Turn(t, w))
  {
    var u := Turn(t, w);
    if u.cursor > t.cursor { MovedOn(t, u); } else { PauseAsksOnce(Ask(t, t.plan.value[t.cursor], w)); }
  }

  lemma {:induction false} LoopAsksOnce(t: Task, w: World)
    requires AskedOnce(t) && OpenAtCursor(t) && DistinctIds(Steps(t)) && t.plan.Some?
    ensures AskedOnce(Loop(t, w)) && OpenAtCursor(Loop(t, w))
    decreases |t.plan.value| - t.cursor
  {
    if t.cursor < |t.plan.value| {
      TurnAsksOnce(t, w);
      var u := Turn(t, w);
      if u.cursor > t.cursor { LoopAsksOnce(u, w); }
    }
  }

  lemma RunAsksOnce(t: Task, w: World)
    requires AskedOnce(t) && OpenAtCursor(t) && DistinctIds(Steps(t)) && PlansWell(w) && (t.plan.None? ==> t.approvals == [])
    ensures AskedOnce(Run(t, w)) && OpenAtCursor(Run(t, w))
  {
    var started := t.(status := Running);
    if t.plan.Some? {
      LoopAsksOnce(started, w);
    } else if Adopt(w, t.trail).Some? {
      LoopAsksOnce(started.(plan := Adopt(w, t.trail)), w);
    }
  }

  lemma DecideAsksOnce(t: Task, approval: nat, status: ApprovalStatus)
    requires AskedOnce(t) && approval < |t.approvals|
    ensures AskedOnce(Decide(t, approval, status))
  {
    var u := Decide(t, approval, status);
    forall a <- u.approvals ensures Seen(Steps(u), u.cursor, a.step) {
      var i :| 0 <= i < |u.approvals| && u.approvals[i] == a;
      assert t.approvals[i] in t.approvals && t.approvals[i].step == a.step;
    }
  }

  lemma GrantAsksOnce(t: Task, approval: nat, w: World)
    requires AskedOnce(t) && Inv(t, w) && PlansWell(w) && Waits(t, approval)
    ensures AskedOnce(Approve(t, approval, w)) && OpenAtCursor(Approve(t, approval, w))
  {
    var granted, step := Decide(t, approval, Granted), Steps(t)[t.cursor];
    var asked := Ask(granted, step, w);
    DecideAsksOnce(t, approval, Granted);
    ApproveOfWaiting(t, approval, w);
    var u := if w.authorize(granted.trail, step) == Deny then Refuse(asked, step) else RunGranted(asked, step, approval, w);
    MovedOn(granted, u);
    RunAsksOnce(u, w);
  }

  lemma TurnDownAsksOnce(t: Task, approval: nat, w: World)
    requires AskedOnce(t) && Inv(t, w) && PlansWell(w) && Waits(t, approval)
    ensures AskedOnce(Reject(t, approval, w)) && OpenAtCursor(Reject(t, approval, w))
  {
    DecideAsksOnce(t, approval, Refused);
    RejectIs(t, approval, w);
    MovedOn(Decide(t, approval, Refused), AfterRefusal(t, approval));
    RunAsksOnce(AfterRefusal(t, approval), w);
  }

  lemma {:induction false} RunsAskOnce(t: Task, ops: seq<Op>, w: World)
    requires Inv(t, w) && PlansWell(w) && GuardedRun(t, ops, w) && AskedOnce(t) && OpenAtCursor(t)
    ensures AskedOnce(Exec(t, ops, w))
    decreases |ops|
  {
    if ops != [] {
      match ops[0] {
        case Start => RunAsksOnce(t, w);
        case Grant(a) => GrantAsksOnce(t, a, w);
        case TurnDown(a) => TurnDownAsksOnce(t, a, w);
      }
      OperationKeeps(t, ops[0], w);
      RunsAskOnce(Apply(t, ops[0], w), ops[1..], w);
    }
  }

  /** However often a waiting task is started again, a human is asked at most once about each step. */
  lemma OneRequestPerStep(ops: seq<Op>, w: World)
    requires PlansWell(w) && GuardedRun(NewTask(), ops, w)
    ensures var t := Exec(NewTask(), ops, w);
      forall i, j :: 0 <= i < j < |t.approvals| ==> t.approvals[i].step != t.approvals[j].step
  {
    NewTaskIsConsistent(w);
    RunsAskOnce(NewTask(), ops, w);
  }
}
