/** Which workflows a tick lists, said of the workflows and of the runs there are. */
module SchedulerMeaning {
  import opened Wrappers
  import opened Texts
  import opened Cron
  import opened Scheduler

  /** The workflow's latest run was created in the minute. */
  ghost predicate LatestRunIn(runs: seq<Run>, id: string, minute: int) {
    exists r <- runs :: r.workflow == id && r.createdAt / 60_000_000 == minute && NoneLater(runs, id, r.createdAt)
  }

  ghost predicate NoneLater(runs: seq<Run>, id: string, t: int) {
    forall r <- runs :: r.workflow == id ==> r.createdAt <= t
  }

  lemma {:induction false} LastRunIsLatest(runs: seq<Run>, id: string)
    ensures LastRun(runs, id) == None <==> forall r <- runs :: r.workflow != id
    ensures LastRun(runs, id).Some? ==>
      var last := LastRun(runs, id).value; last in runs && last.workflow == id && NoneLater(runs, id, last.createdAt)
  {
    if runs != [] {
      var before, r := runs[..|runs| - 1], runs[|runs| - 1];
      LastRunIsLatest(before, id);
      assert runs == before + [r];
    }
  }

  lemma LatestRunIff(runs: seq<Run>, id: string, minute: int)
    ensures LatestRunIn(runs, id, minute) <==> LastRun(runs, id).Some? && MinuteOf(LastRun(runs, id).value.createdAt) == minute
  {
    LastRunIsLatest(runs, id);
    if LatestRunIn(runs, id, minute) {
      var r :| r in runs && r.workflow == id && r.createdAt / 60_000_000 == minute && NoneLater(runs, id, r.createdAt);
      assert LastRun(runs, id).value.createdAt == r.createdAt;
    }
  }

  /** The workflow is started by cron and switched on. */
  predicate OnCron(w: Workflow) {
    w.cronTrigger && w.enabled
  }

  ghost predicate IsDue(w: Workflow, runs: seq<Run>, calendar: Calendar, now: int) {
    OnCron(w) && w.schedule.At? && Matches(w.schedule.e, calendar(now)) && !LatestRunIn(runs, w.id, now / 60_000_000)
  }

  lemma OneItem(w: Workflow, runs: seq<Run>, calendar: Calendar, now: int)
    ensures DueItem(w, runs, calendar, now) ==
      if OnCron(w) && w.schedule == Invalid then Some(Broken(w.id)) else if IsDue(w, runs, calendar, now) then Some(Ready(w.id)) else None
  {
    LatestRunIff(runs, w.id, MinuteOf(now));
  }

  ghost predicate Lists(w: Workflow, item: Item, runs: seq<Run>, calendar: Calendar, now: int) {
    item.workflow == w.id && if item.Broken? then OnCron(w) && w.schedule == Invalid else IsDue(w, runs, calendar, now)
  }

  /** A tick lists as ready exactly the workflows on cron whose expression matches now and whose latest run was not in this
      minute, and as broken those whose expression cannot be read. */
  lemma {:induction false} ListedIff(workflows: seq<Workflow>, runs: seq<Run>, calendar: Calendar, now: int, item: Item)
    ensures item in DueItems(workflows, runs, calendar, now) <==> exists w <- workflows :: Lists(w, item, runs, calendar, now)
  {
    if workflows != [] {
      var before, w := workflows[..|workflows| - 1], workflows[|workflows| - 1];
      ListedIff(before, runs, calendar, now, item);
      OneItem(w, runs, calendar, now);
      assert workflows == before + [w];
      assert Lists(w, item, runs, calendar, now) <==> DueItem(w, runs, calendar, now) == Some(item);
    }
  }

  /** A workflow that is switched off, or not on cron, is never started. */
  lemma {:induction false} OffNeverRuns(workflows: seq<Workflow>, calendar: Calendar, ticks: seq<Tick>, id: string)
    requires forall w <- workflows :: w.id == id ==> !OnCron(w)
    ensures forall r <- RunTicks(workflows, calendar, ticks) :: r.workflow != id
  {
    if ticks != [] {
      var tick := ticks[|ticks| - 1];
      var runs := RunTicks(workflows, calendar, ticks[..|ticks| - 1]);
      OffNeverRuns(workflows, calendar, ticks[..|ticks| - 1], id);
      ListedIff(workflows, runs, calendar, tick.now, Ready(id));
      StartedAreListed(DueItems(workflows, runs, calendar, tick.now), tick.created, id);
    }
  }

  lemma {:induction false} StartedAreListed(items: seq<Item>, created: string -> int, id: string)
    requires Ready(id) !in items
    ensures forall r <- Started(items, created) :: r.workflow != id
  {
    if items != [] {
      StartedAreListed(items[..|items| - 1], created, id);
      assert items[|items| - 1] in items;
    }
  }

  /** A trigger without text has no schedule; any other text has one exactly when it parses. */
  lemma ScheduleIsRead(cron: string, e: Expression)
    ensures Read(cron) == Unset <==> cron == ""
    ensures Read(cron) == At(e) <==> cron != "" && Parse(cron) == Some(e)
  {
  }
}
