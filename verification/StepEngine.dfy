/** The step machine as the runtime executes it: one mutable task, updated in place by `Run`, `Approve` and
    `Reject`. Every method is proved to leave exactly the state its `StepMachine` function describes. */
module StepEngine {
  import opened Wrappers
  import opened StepMachine

  class GovernedTask {
    var status: TaskStatus
    var plan: Option<seq<PlanStep>>
    var cursor: nat
    var pendingApproval: Option<nat>
    var pendingStep: Option<string>
    var log: seq<StepRecord>
    var toolCost: nat
    var approvals: seq<Approval>
    var trail: seq<Event>

    function State(): Task
      reads this
    {
      Task(status, plan, cursor, pendingApproval, pendingStep, log, toolCost, approvals, trail)
    }

    constructor ()
      ensures State() == NewTask()
    {
      status, plan, cursor := New, None, 0;
      pendingApproval, pendingStep := None, None;
      log, toolCost, approvals, trail := [], 0, [], [];
    }

    method Run(w: World)
      modifies this
      ensures State() == StepMachine.Run(old(State()), w)
    {
      status := Running;
      if plan.None? {
        var planned := Adopt(w, trail);
        if planned.None? {
          status := Failed;
          return;
        }
        plan := planned;
      }
      var steps := plan.value;
      ghost var start := State();
      while cursor < |steps|
        invariant plan == Some(steps)
        invariant Loop(State(), w) == Loop(start, w)
      {
        var step := steps[cursor];
        var decision := Ask(step, w);
        if decision == RequireApproval && w.AutoApproves() {
          trail := trail + [AutoApproved(step)];
          Execute(step, w);
        } else if decision == RequireApproval {
          Pause(step);
          return;
        } else if decision == Deny {
          Refuse(step);
        } else {
          Execute(step, w);
        }
      }
      Finish();
    }

    method Ask(step: PlanStep, w: World) returns (decision: Decision)
      modifies this`trail
      ensures decision == w.authorize(old(trail), step)
      ensures State() == StepMachine.Ask(old(State()), step, w)
    {
      decision := w.authorize(trail, step);
      trail := trail + [Authorized(step, decision)];
    }

    method Refuse(step: PlanStep)
      modifies this`log, this`cursor
      ensures State() == StepMachine.Refuse(old(State()), step)
    {
      log := log + [StepRecord(step.id, step.tool, Denied, None, false, 0)];
      cursor := cursor + 1;
    }

    method Execute(step: PlanStep, w: World)
      modifies this
      ensures State() == StepMachine.Execute(old(State()), step, w)
    {
      var result := w.execute(trail, step);
      trail := trail + [Executed(step, result.ok, result.cost, false)];
      log := log + [StepRecord(step.id, step.tool, Allowed, None, result.ok, result.cost)];
      toolCost := toolCost + result.cost;
      cursor := cursor + 1;
      pendingApproval, pendingStep := None, None;
    }

    method Pause(step: PlanStep)
      modifies this
      ensures State() == StepMachine.Pause(old(State()), step)
    {
      var a := 0;
      while a < |approvals| && !(approvals[a].status == Pending && approvals[a].step == step.id)
        invariant a <= |approvals|
        invariant FindPending(approvals, step.id, a) == FindPending(approvals, step.id, 0)
      {
        a := a + 1;
      }
      if a == |approvals| {
        approvals := approvals + [Approval(step.id, step.tool, Pending)];
      }
      pendingApproval, pendingStep := Some(a), Some(step.id);
      status := RequiresApproval;
      trail := trail + [Waiting(step, a)];
    }

    method Finish()
      modifies this
      ensures State() == StepMachine.Finish(old(State()))
    {
      var failures, successes := 0, 0;
      for i := 0 to |log|
        invariant failures + successes == i
        invariant 0 < successes <==> AnyOk(log[..i])
        invariant 0 <= failures
      {
        assert log[..i + 1] == log[..i] + [log[i]];
        if log[i].ok { successes := successes + 1; } else { failures := failures + 1; }
      }
      assert log[..|log|] == log;
      if successes > 0 && failures > 0 {
        status := Completed;
      } else if failures > 0 && successes == 0 && |log| > 0 {
        status := Failed;
      } else {
        status := Completed;
      }
    }

    method RunGranted(step: PlanStep, approval: nat, w: World)
      modifies this
      ensures State() == StepMachine.RunGranted(old(State()), step, approval, w)
    {
      var result := w.execute(trail, step);
      trail := trail + [Executed(step, result.ok, result.cost, true)];
      log := log + [StepRecord(step.id, step.tool, Approved, Some(approval), result.ok, 0)];
      cursor := cursor + 1;
      pendingApproval, pendingStep := None, None;
      status := Running;
    }

    method FindWaiting() returns (at: nat)
      ensures var steps := if plan.Some? then plan.value else [];
        at == if pendingStep.Some? then FindStep(steps, pendingStep.value, 0) else |steps|
    {
      var steps := if plan.Some? then plan.value else [];
      if pendingStep.None? { return |steps|; }
      at := 0;
      while at < |steps| && steps[at].id != pendingStep.value
        invariant at <= |steps|
        invariant FindStep(steps, pendingStep.value, at) == FindStep(steps, pendingStep.value, 0)
      {
        at := at + 1;
      }
    }

    method Resume(approval: nat, w: World)
      modifies this
      ensures State() == StepMachine.Resume(old(State()), approval, w)
    {
      var steps := if plan.Some? then plan.value else [];
      var at := FindWaiting();
      if at < |steps| {
        var step := steps[at];
        var decision := Ask(step, w);
        if decision == Deny {
          Refuse(step);
        } else {
          RunGranted(step, approval, w);
        }
      }
      Run(w);
    }

    method Decide(approval: nat, verdict: ApprovalStatus)
      requires approval < |approvals|
      modifies this`approvals, this`trail
      ensures State() == StepMachine.Decide(old(State()), approval, verdict)
    {
      approvals := approvals[approval := approvals[approval].(status := verdict)];
      trail := trail + [if verdict == Granted then HumanApproved(approval) else HumanDenied(approval)];
    }

    method Approve(approval: nat, w: World) returns (found: bool)
      modifies this
      ensures found <==> approval < |old(approvals)|
      ensures State() == StepMachine.Approve(old(State()), approval, w)
    {
      found := approval < |approvals|;
      if !found { return; }
      Decide(approval, Granted);
      Resume(approval, w);
    }

    method LogRefusal(approval: nat)
      requires approval < |approvals|
      modifies this`log
      ensures log == if pendingStep.Some? && pendingStep.value != ""
        then old(log) + [StepRecord(pendingStep.value, approvals[approval].tool, DeniedByHuman, Some(approval), false, 0)] else old(log)
    {
      if pendingStep.Some? && pendingStep.value != "" {
        log := log + [StepRecord(pendingStep.value, approvals[approval].tool, DeniedByHuman, Some(approval), false, 0)];
      }
    }

    method MoveOn()
      modifies this
      ensures State() == old(State()).(cursor := old(cursor) + 1, pendingApproval := None, pendingStep := None, status := Running)
    {
      cursor := cursor + 1;
      pendingApproval, pendingStep := None, None;
      status := Running;
    }

    method Reject(approval: nat, w: World) returns (found: bool)
      modifies this
      ensures found <==> approval < |old(approvals)|
      ensures State() == StepMachine.Reject(old(State()), approval, w)
    {
      found := approval < |approvals|;
      if !found { return; }
      Decide(approval, Refused);
      LogRefusal(approval);
      MoveOn();
      Run(w);
    }
  }
}
