/** The governed execution loop of one task: plan, authorize, pause for a human, execute, finish.
    Policy answers, tool results and the planner are arbitrary functions of everything that has
    happened so far, so a statement about every `World` is a statement about every run. */
module StepMachine {
  import opened Wrappers

  datatype Decision = Allow | Deny | RequireApproval

  datatype PlanStep = PlanStep(id: string, tool: string)

  datatype ToolResult = ToolResult(ok: bool, cost: nat)

  datatype Verdict = Allowed | Denied | Approved | DeniedByHuman

  /** One line of the result log. */
  datatype StepRecord = StepRecord(id: string, tool: string, verdict: Verdict, approval: Option<nat>, ok: bool, cost: nat)

  datatype ApprovalStatus = Pending | Granted | Refused

  /** A request for a human decision; its id is its position in `Task.approvals`. */
  datatype Approval = Approval(step: string, tool: string, status: ApprovalStatus)

  datatype TaskStatus = New | Running | RequiresApproval | Completed | Failed

  /** What the run did, in order. */
  datatype Event =
    | Authorized(step: PlanStep, decision: Decision)
    | AutoApproved(step: PlanStep)
    | Waiting(step: PlanStep, approval: nat)
    | HumanApproved(approval: nat)
    | HumanDenied(approval: nat)
    | Executed(step: PlanStep, ok: bool, cost: nat, byHuman: bool)

  datatype Task = Task(
    status: TaskStatus,
    plan: Option<seq<PlanStep>>,
    cursor: nat,
    pendingApproval: Option<nat>,
    pendingStep: Option<string>,
    log: seq<StepRecord>,
    toolCost: nat,
    approvals: seq<Approval>,
    trail: seq<Event>)

  /** What asking the model for a plan can come to. */
  datatype Planning = BudgetBlocked | NotAuthorized | ModelFailed | Unparseable | Proposed(steps: seq<PlanStep>)

  datatype World = World(
    planner: seq<Event> -> Planning,
    authorize: (seq<Event>, PlanStep) -> Decision,
    execute: (seq<Event>, PlanStep) -> ToolResult,
    maxSteps: nat,
    autoApproveInDevelopment: bool,
    development: bool)
  {
    predicate AutoApproves() {
      autoApproveInDevelopment && development
    }
  }

  const FALLBACK_PLAN := [PlanStep("s1", "filesystem.list")]

  /** The plan a task adopts: the proposal cut to the step budget, or the fallback; None when planning is refused. */
  function Adopt(w: World, trail: seq<Event>): Option<seq<PlanStep>> {
    match w.planner(trail)
    case BudgetBlocked => None
    case NotAuthorized => None
    case ModelFailed => Some(FALLBACK_PLAN)
    case Unparseable => Some(FALLBACK_PLAN)
    case Proposed(steps) => Some(if |steps| > w.maxSteps then steps[..w.maxSteps] else steps)
  }

  function NewTask(): Task {
    Task(New, None, 0, None, None, [], 0, [], [])
  }

  // ---- the meaning of each operation ------------------------------------

  /** The first pending request for a step from position `from` on, or the position after the last one. */
  function FindPending(approvals: seq<Approval>, step: string, from: nat): (a: nat)
    requires from <= |approvals|
    ensures from <= a <= |approvals|
    ensures a < |approvals| ==> approvals[a].status == Pending && approvals[a].step == step
    ensures forall b :: from <= b < a ==> approvals[b].status != Pending || approvals[b].step != step
    decreases |approvals| - from
  {
    if from == |approvals| then from
    else if approvals[from].status == Pending && approvals[from].step == step then from
    else FindPending(approvals, step, from + 1)
  }

  /** The first step of a plan with this id, or the position after the last one. */
  function FindStep(plan: seq<PlanStep>, id: string, from: nat): (at: nat)
    requires from <= |plan|
    ensures from <= at <= |plan|
    ensures at < |plan| ==> plan[at].id == id
    ensures forall k :: from <= k < at ==> plan[k].id != id
    decreases |plan| - from
  {
    if from == |plan| || plan[from].id == id then from else FindStep(plan, id, from + 1)
  }

  predicate AnyOk(log: seq<StepRecord>) {
    exists r <- log :: r.ok
  }

  function Finish(t: Task): Task {
    t.(status := if t.log != [] && !AnyOk(t.log) then Failed else Completed)
  }

  /** Stop in front of a step, reusing the request that already waits for it. */
  function Pause(t: Task, step: PlanStep): Task {
    var a := FindPending(t.approvals, step.id, 0);
    t.(approvals := if a == |t.approvals| then t.approvals + [Approval(step.id, step.tool, Pending)] else t.approvals,
       pendingApproval := Some(a), pendingStep := Some(step.id), status := RequiresApproval,
       trail := t.trail + [Waiting(step, a)])
  }

  function Refuse(t: Task, step: PlanStep): Task {
    t.(log := t.log + [StepRecord(step.id, step.tool, Denied, None, false, 0)], cursor := t.cursor + 1)
  }

  function Execute(t: Task, step: PlanStep, w: World): Task {
    var r := w.execute(t.trail, step);
    t.(trail := t.trail + [Executed(step, r.ok, r.cost, false)],
       log := t.log + [StepRecord(step.id, step.tool, Allowed, None, r.ok, r.cost)],
       toolCost := t.toolCost + r.cost,
       cursor := t.cursor + 1, pendingApproval := None, pendingStep := None)
  }

  function Ask(t: Task, step: PlanStep, w: World): Task {
    t.(trail := t.trail + [Authorized(step, w.authorize(t.trail, step))])
  }

  /** One turn of the loop: the step at the cursor is decided, or the task stops in front of it. */
  function Turn(t: Task, w: World): (u: Task)
    requires t.plan.Some? && t.cursor < |t.plan.value|
    ensures u.plan == t.plan && t.cursor <= u.cursor <= t.cursor + 1
  {
    var step := t.plan.value[t.cursor];
    var asked := Ask(t, step, w);
    match w.authorize(t.trail, step)
    case RequireApproval =>
      if w.AutoApproves() then Execute(asked.(trail := asked.trail + [AutoApproved(step)]), step, w)
      else Pause(asked, step)
    case Deny => Refuse(asked, step)
    case Allow => Execute(asked, step, w)
  }

  /** The loop of `run` from the current cursor on. */
  function Loop(t: Task, w: World): Task
    requires t.plan.Some?
    decreases |t.plan.value| - t.cursor
  {
    if t.cursor >= |t.plan.value| then Finish(t)
    else
      var u := Turn(t, w);
      if u.cursor == t.cursor then u else Loop(u, w)
  }

  function Run(t: Task, w: World): Task {
    var started := t.(status := Running);
    if t.plan.Some? then Loop(started, w)
    else
      match Adopt(w, t.trail)
      case None => started.(status := Failed)
      case Some(plan) => Loop(started.(plan := Some(plan)), w)
  }

  /** The task after the granted step ran; `asked` has just seen policy not deny it. */
  function RunGranted(asked: Task, step: PlanStep, approval: nat, w: World): Task {
    var r := w.execute(asked.trail, step);
    asked.(trail := asked.trail + [Executed(step, r.ok, r.cost, true)],
           log := asked.log + [StepRecord(step.id, step.tool, Approved, Some(approval), r.ok, 0)],
           cursor := asked.cursor + 1, pendingApproval := None, pendingStep := None, status := Running)
  }

  /** Execute the step that waited for a human, unless policy now refuses it, then go on. */
  function Resume(t: Task, approval: nat, w: World): Task {
    var plan := if t.plan.Some? then t.plan.value else [];
    var at := if t.pendingStep.Some? then FindStep(plan, t.pendingStep.value, 0) else |plan|;
    if at == |plan| then Run(t, w)
    else
      var step := plan[at];
      var asked := Ask(t, step, w);
      if w.authorize(t.trail, step) == Deny then Run(Refuse(asked, step), w)
      else Run(RunGranted(asked, step, approval, w), w)
  }

  function Decide(t: Task, approval: nat, status: ApprovalStatus): Task
    requires approval < |t.approvals|
  {
    t.(approvals := t.approvals[approval := t.approvals[approval].(status := status)],
       trail := t.trail + [if status == Granted then HumanApproved(approval) else HumanDenied(approval)])
  }

  /** A human grants a request. An unknown request changes nothing. */
  function Approve(t: Task, approval: nat, w: World): Task {
    if approval >= |t.approvals| then t else Resume(Decide(t, approval, Granted), approval, w)
  }

  /** A human refuses a request: the waiting step is logged as refused and the cursor moves on. */
  function Reject(t: Task, approval: nat, w: World): Task {
    if approval >= |t.approvals| then t
    else
      var decided := Decide(t, approval, Refused);
      var logged :=
        if t.pendingStep.Some? && t.pendingStep.value != "" then
          decided.(log := t.log + [StepRecord(t.pendingStep.value, t.approvals[approval].tool, DeniedByHuman, Some(approval), false, 0)])
        else decided;
      Run(logged.(cursor := t.cursor + 1, pendingApproval := None, pendingStep := None, status := Running), w)
  }
}
