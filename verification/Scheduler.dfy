/** Starting scheduled workflows from ticks: at most one run a minute, however often the tick comes. */
module Scheduler {
  import opened Wrappers
  import opened Texts
  import opened Cron

  /** A trigger's cron text, once read. */
  datatype Schedule = Unset | Invalid | At(e: Expression)

  function Read(cron: string): Schedule {
    if cron == "" then Unset else match Parse(cron) case None => Invalid case Some(e) => At(e)
  }

  /** A workflow with its trigger; the schedule matters only when the trigger is a cron one and enabled. */
  datatype Workflow = Workflow(id: string, cronTrigger: bool, enabled: bool, schedule: Schedule)

  datatype Run = Run(workflow: string, createdAt: int)

  datatype Item = Broken(workflow: string) | Ready(workflow: string)

  /** The workflow's run with the latest creation time, as the query by descending creation time gives it. */
  function LastRun(runs: seq<Run>, id: string): Option<Run> {
    if runs == [] then None
    else
      var before, r := LastRun(runs[..|runs| - 1], id), runs[|runs| - 1];
      if r.workflow == id && (before == None || r.createdAt >= before.value.createdAt) then Some(r) else before
  }

  /** The minute an instant falls in. */
  function MinuteOf(t: int): int {
    t / MINUTE
  }

  predicate Scheduled(w: Workflow) {
    w.cronTrigger && w.enabled && w.schedule != Unset
  }

  /** The workflow's expression is due in the tick's minute; seconds do not matter. */
  predicate Wanted(w: Workflow, calendar: Calendar, now: int) {
    Scheduled(w) && w.schedule.At? && Matches(w.schedule.e, calendar(now))
  }

  function DueItem(w: Workflow, runs: seq<Run>, calendar: Calendar, now: int): Option<Item> {
    if !Scheduled(w) then None
    else if w.schedule.Invalid? then Some(Broken(w.id))
    else if !Wanted(w, calendar, now) then None
    else
      var last := LastRun(runs, w.id);
      if last.Some? && MinuteOf(last.value.createdAt) == MinuteOf(now) then None else Some(Ready(w.id))
  }

  function DueItems(workflows: seq<Workflow>, runs: seq<Run>, calendar: Calendar, now: int): seq<Item> {
    if workflows == [] then []
    else
      var item := DueItem(workflows[|workflows| - 1], runs, calendar, now);
      DueItems(workflows[..|workflows| - 1], runs, calendar, now) + if item.Some? then [item.value] else []
  }

  /** One run for every item that is ready, created when its turn comes. */
  function Started(items: seq<Item>, created: string -> int): seq<Run> {
    if items == [] then []
    else
      var item := items[|items| - 1];
      Started(items[..|items| - 1], created) + if item.Ready? then [Run(item.workflow, created(item.workflow))] else []
  }

  function Ticked(workflows: seq<Workflow>, runs: seq<Run>, calendar: Calendar, now: int, created: string -> int): seq<Run> {
    runs + Started(DueItems(workflows, runs, calendar, now), created)
  }

  class WorkflowScheduler {
    const workflows: seq<Workflow>
    const calendar: Calendar
    var runs: seq<Run>

    constructor (workflows: seq<Workflow>, calendar: Calendar)
      ensures this.workflows == workflows && this.calendar == calendar && runs == []
    {
      this.workflows, this.calendar, runs := workflows, calendar, [];
    }

    method Due(now: int) returns (items: seq<Item>)
      ensures items == DueItems(workflows, runs, calendar, now)
    {
      items := [];
      for i := 0 to |workflows|
        invariant items == DueItems(workflows[..i], runs, calendar, now)
      {
        assert workflows[..i + 1][..i] == workflows[..i];
        var w := workflows[i];
        if w.cronTrigger && w.enabled && w.schedule != Unset {
          if w.schedule.Invalid? {
            items := items + [Broken(w.id)];
          } else if Matches(w.schedule.e, calendar(now)) {
            var last := LastRun(runs, w.id);
            if last == None || MinuteOf(last.value.createdAt) != MinuteOf(now) { items := items + [Ready(w.id)]; }
          }
        }
      }
      assert workflows[..|workflows|] == workflows;
    }

    /** A dry run starts nothing. */
    method Tick(now: int, dryRun: bool, created: string -> int)
      modifies this
      ensures runs == if dryRun then old(runs) else Ticked(workflows, old(runs), calendar, now, created)
    {
      var items := Due(now);
      if dryRun { return; }
      for i := 0 to |items|
        invariant runs == old(runs) + Started(items[..i], created)
      {
        assert items[..i + 1][..i] == items[..i];
        if items[i].Ready? { runs := runs + [Run(items[i].workflow, created(items[i].workflow))]; }
      }
      assert items[..|items|] == items;
    }
  }

  // ---- many ticks -----------------------------------------------------------------------

  /** A tick's clock, and when the runs it starts are created. */
  datatype Tick = Tick(now: int, created: string -> int)

  function RunTicks(workflows: seq<Workflow>, calendar: Calendar, ticks: seq<Tick>): seq<Run> {
    if ticks == [] then []
    else
      var tick := ticks[|ticks| - 1];
      Ticked(workflows, RunTicks(workflows, calendar, ticks[..|ticks| - 1]), calendar, tick.now, tick.created)
  }

  /** The clock does not go back a minute, and runs are created in their tick's minute. */
  ghost predicate Orderly(ticks: seq<Tick>) {
    && (forall i, j :: 0 <= i < j < |ticks| ==> MinuteOf(ticks[i].now) <= MinuteOf(ticks[j].now))
    && (forall i, id :: 0 <= i < |ticks| ==> MinuteOf(ticks[i].created(id)) == MinuteOf(ticks[i].now))
  }

  predicate DistinctIds(workflows: seq<Workflow>) {
    forall i, j :: 0 <= i < j < |workflows| ==> workflows[i].id != workflows[j].id
  }

  /** A workflow's runs are in minutes that grow. */
  ghost predicate OnePerMinute(runs: seq<Run>) {
    forall i, j :: 0 <= i < j < |runs| && runs[i].workflow == runs[j].workflow ==> MinuteOf(runs[i].createdAt) < MinuteOf(runs[j].createdAt)
  }

  ghost predicate NotAfter(runs: seq<Run>, minute: int) {
    forall r <- runs :: MinuteOf(r.createdAt) <= minute
  }

  lemma {:induction false} LastRunIsLast(runs: seq<Run>, id: string)
    ensures match LastRun(runs, id)
      case None => forall r <- runs :: r.workflow != id
      case Some(last) => last in runs && last.workflow == id && forall r <- runs :: r.workflow == id ==> r.createdAt <= last.createdAt
  {
    if runs != [] {
      LastRunIsLast(runs[..|runs| - 1], id);
      assert runs == runs[..|runs| - 1] + [runs[|runs| - 1]];
    }
  }

  /** The ready items: distinct workflows that want a run and have none in the tick's minute. */
  ghost predicate ReadyFor(items: seq<Item>, workflows: seq<Workflow>, runs: seq<Run>, calendar: Calendar, now: int) {
    && DistinctItems(items)
    && (forall item <- items :: ComesFrom(item, workflows, runs, calendar, now))
    && (forall w <- workflows :: DueItem(w, runs, calendar, now).Some? ==> DueItem(w, runs, calendar, now).value in items)
  }

  ghost predicate ComesFrom(item: Item, workflows: seq<Workflow>, runs: seq<Run>, calendar: Calendar, now: int) {
    exists w <- workflows :: w.id == item.workflow && DueItem(w, runs, calendar, now) == Some(item)
  }

  lemma NotYetAmong(workflows: seq<Workflow>, w: Workflow, item: Item, runs: seq<Run>, calendar: Calendar, now: int)
    requires DistinctIds(workflows + [w]) && ComesFrom(item, workflows, runs, calendar, now)
    ensures item.workflow != w.id
  {
    var v :| v in workflows && v.id == item.workflow && DueItem(v, runs, calendar, now) == Some(item);
    var j :| 0 <= j < |workflows| && workflows[j] == v;
    assert (workflows + [w])[j] == v && (workflows + [w])[|workflows|] == w;
  }

  lemma OneMoreDue(workflows: seq<Workflow>, w: Workflow, items: seq<Item>, runs: seq<Run>, calendar: Calendar, now: int)
    requires DistinctIds(workflows + [w]) && ReadyFor(items, workflows, runs, calendar, now)
    ensures var item := DueItem(w, runs, calendar, now);
      ReadyFor(items + if item.Some? then [item.value] else [], workflows + [w], runs, calendar, now)
  {
    forall i | i in items ensures i.workflow != w.id && ComesFrom(i, workflows + [w], runs, calendar, now) {
      NotYetAmong(workflows, w, i, runs, calendar, now);
    }
    var item := DueItem(w, runs, calendar, now);
    if item.Some? {
      assert w in workflows + [w];
      assert ComesFrom(item.value, workflows + [w], runs, calendar, now);
    }
  }

  lemma {:induction false} DueItemsAreReady(workflows: seq<Workflow>, runs: seq<Run>, calendar: Calendar, now: int)
    requires DistinctIds(workflows)
    ensures ReadyFor(DueItems(workflows, runs, calendar, now), workflows, runs, calendar, now)
  {
    if workflows != [] {
      var before, w := workflows[..|workflows| - 1], workflows[|workflows| - 1];
      DueItemsAreReady(before, runs, calendar, now);
      assert workflows == before + [w];
      OneMoreDue(before, w, DueItems(before, runs, calendar, now), runs, calendar, now);
    }
  }

  ghost predicate DistinctItems(items: seq<Item>) {
    forall i, j :: 0 <= i < j < |items| ==> items[i].workflow != items[j].workflow
  }

  /** One run for each ready item and no other. */
  ghost predicate StartedFor(started: seq<Run>, items: seq<Item>, created: string -> int) {
    && (forall i, j :: 0 <= i < j < |started| ==> started[i].workflow != started[j].workflow)
    && (forall r <- started :: Ready(r.workflow) in items && r.createdAt == created(r.workflow))
    && (forall item <- items :: item.Ready? ==> Run(item.workflow, created(item.workflow)) in started)
  }

  lemma OneMoreStarted(started: seq<Run>, items: seq<Item>, created: string -> int, item: Item)
    requires StartedFor(started, items, created) && forall i <- items :: i.workflow != item.workflow
    ensures StartedFor(started + if item.Ready? then [Run(item.workflow, created(item.workflow))] else [], items + [item], created)
  {
    forall i | 0 <= i < |started| ensures started[i].workflow != item.workflow { assert started[i] in started; }
  }

  lemma {:induction false} StartedAre(items: seq<Item>, created: string -> int)
    requires DistinctItems(items)
    ensures StartedFor(Started(items, created), items, created)
  {
    if items != [] {
      var before, item := items[..|items| - 1], items[|items| - 1];
      StartedAre(before, created);
      assert items == before + [item];
      OneMoreStarted(Started(before, created), before, created, item);
    }
  }

  lemma ReadyHasNoRun(w: Workflow, runs: seq<Run>, calendar: Calendar, now: int, r: Run)
    requires DueItem(w, runs, calendar, now) == Some(Ready(w.id)) && OnePerMinute(runs) && NotAfter(runs, MinuteOf(now))
    requires r in runs && r.workflow == w.id
    ensures MinuteOf(r.createdAt) < MinuteOf(now)
  {
    LastRunIsLast(runs, w.id);
  }

  lemma TickKeepsOnePerMinute(workflows: seq<Workflow>, runs: seq<Run>, calendar: Calendar, tick: Tick)
    requires DistinctIds(workflows) && OnePerMinute(runs) && NotAfter(runs, MinuteOf(tick.now))
    requires forall id :: MinuteOf(tick.created(id)) == MinuteOf(tick.now)
    ensures var after := Ticked(workflows, runs, calendar, tick.now, tick.created); OnePerMinute(after) && NotAfter(after, MinuteOf(tick.now))
  {
    var items := DueItems(workflows, runs, calendar, tick.now);
    var started := Started(items, tick.created);
    DueItemsAreReady(workflows, runs, calendar, tick.now);
    StartedAre(items, tick.created);
    forall r, s | r in runs && s in started && r.workflow == s.workflow ensures MinuteOf(r.createdAt) < MinuteOf(s.createdAt) {
      StartedAfter(workflows, runs, calendar, tick, r, s);
    }
    AppendedRuns(runs, started);
  }

  lemma StartedAfter(workflows: seq<Workflow>, runs: seq<Run>, calendar: Calendar, tick: Tick, r: Run, s: Run)
    requires DistinctIds(workflows) && OnePerMinute(runs) && NotAfter(runs, MinuteOf(tick.now))
    requires MinuteOf(tick.created(s.workflow)) == MinuteOf(tick.now)
    requires r in runs && s in Started(DueItems(workflows, runs, calendar, tick.now), tick.created) && r.workflow == s.workflow
    ensures MinuteOf(r.createdAt) < MinuteOf(s.createdAt)
  {
    var items := DueItems(workflows, runs, calendar, tick.now);
    DueItemsAreReady(workflows, runs, calendar, tick.now);
    StartedAre(items, tick.created);
    assert ComesFrom(Ready(s.workflow), workflows, runs, calendar, tick.now);
    var w :| w in workflows && w.id == s.workflow && DueItem(w, runs, calendar, tick.now) == Some(Ready(s.workflow));
    ReadyHasNoRun(w, runs, calendar, tick.now, r);
  }

  lemma AppendedRuns(runs: seq<Run>, started: seq<Run>)
    requires OnePerMinute(runs) && forall i, j :: 0 <= i < j < |started| ==> started[i].workflow != started[j].workflow
    requires forall r, s :: r in runs && s in started && r.workflow == s.workflow ==> MinuteOf(r.createdAt) < MinuteOf(s.createdAt)
    ensures OnePerMinute(runs + started)
  {
    var all := runs + started;
    forall i, j | |runs| <= i < j < |all| ensures all[i].workflow != all[j].workflow {
      assert all[i] == started[i - |runs|] && all[j] == started[j - |runs|];
    }
    forall i, j | 0 <= i < |runs| <= j < |all| && all[i].workflow == all[j].workflow
      ensures MinuteOf(all[i].createdAt) < MinuteOf(all[j].createdAt)
    {
      assert all[i] in runs && all[j] in started;
    }
  }

  /** Over any number of orderly ticks, however many fall into one minute, no workflow runs twice in a minute. */
  lemma {:induction false} NeverTwiceAMinute(workflows: seq<Workflow>, calendar: Calendar, ticks: seq<Tick>)
    requires DistinctIds(workflows) && Orderly(ticks)
    ensures var runs := RunTicks(workflows, calendar, ticks);
      OnePerMinute(runs) && (ticks != [] ==> NotAfter(runs, MinuteOf(ticks[|ticks| - 1].now)))
  {
    if ticks != [] {
      var before, tick := ticks[..|ticks| - 1], ticks[|ticks| - 1];
      NeverTwiceAMinute(workflows, calendar, before);
      TickKeepsOnePerMinute(workflows, RunTicks(workflows, calendar, before), calendar, tick);
    }
  }

  lemma WantedAreRun(workflows: seq<Workflow>, runs: seq<Run>, calendar: Calendar, tick: Tick, w: Workflow)
    requires DistinctIds(workflows) && w in workflows && Wanted(w, calendar, tick.now)
    requires MinuteOf(tick.created(w.id)) == MinuteOf(tick.now)
    ensures exists r <- Ticked(workflows, runs, calendar, tick.now, tick.created) :: r.workflow == w.id && MinuteOf(r.createdAt) == MinuteOf(tick.now)
  {
    var items := DueItems(workflows, runs, calendar, tick.now);
    DueItemsAreReady(workflows, runs, calendar, tick.now);
    StartedAre(items, tick.created);
    LastRunIsLast(runs, w.id);
    if DueItem(w, runs, calendar, tick.now).Some? {
      assert Ready(w.id) in items;
      assert Run(w.id, tick.created(w.id)) in Started(items, tick.created);
    }
  }

  lemma {:induction false} RunsStay(workflows: seq<Workflow>, calendar: Calendar, ticks: seq<Tick>, n: nat)
    requires n <= |ticks|
    ensures forall r <- RunTicks(workflows, calendar, ticks[..n]) :: r in RunTicks(workflows, calendar, ticks)
    decreases |ticks|
  {
    if n == |ticks| {
      assert ticks[..n] == ticks;
    } else {
      assert ticks[..|ticks| - 1][..n] == ticks[..n];
      RunsStay(workflows, calendar, ticks[..|ticks| - 1], n);
    }
  }

  /** In every minute in which a tick found it wanted, a workflow ran exactly once. */
  lemma OnceInEveryWantedMinute(workflows: seq<Workflow>, calendar: Calendar, ticks: seq<Tick>, k: nat, w: Workflow) returns (at: nat)
    requires DistinctIds(workflows) && Orderly(ticks) && k < |ticks| && w in workflows && Wanted(w, calendar, ticks[k].now)
    ensures var runs := RunTicks(workflows, calendar, ticks);
      at < |runs| && forall i :: 0 <= i < |runs| ==>
        ((runs[i].workflow == w.id && MinuteOf(runs[i].createdAt) == MinuteOf(ticks[k].now)) <==> i == at)
  {
    var runs := RunTicks(workflows, calendar, ticks);
    NeverTwiceAMinute(workflows, calendar, ticks);
    assert ticks[..k + 1] == ticks[..k] + [ticks[k]];
    OneTickMore(workflows, calendar, ticks[..k], ticks[k]);
    WantedAreRun(workflows, RunTicks(workflows, calendar, ticks[..k]), calendar, ticks[k], w);
    RunsStay(workflows, calendar, ticks, k + 1);
    var r :| r in RunTicks(workflows, calendar, ticks[..k + 1]) && r.workflow == w.id && MinuteOf(r.createdAt) == MinuteOf(ticks[k].now);
    at :| 0 <= at < |runs| && runs[at] == r;
    OnlyRunThen(runs, at);
  }

  lemma OnlyRunThen(runs: seq<Run>, at: nat)
    requires OnePerMinute(runs) && at < |runs|
    ensures forall i :: 0 <= i < |runs| ==>
      ((runs[i].workflow == runs[at].workflow && MinuteOf(runs[i].createdAt) == MinuteOf(runs[at].createdAt)) <==> i == at)
  {
  }

  /** A tick whose runs are created on the spot. */
  function AtOnce(now: int): Tick {
    Tick(now, id => now)
  }

  /** If the clock goes back from a later minute to one already served, the workflow runs again in it. */
  lemma ClockGoingBackRunsTwice(w: Workflow, calendar: Calendar, first: int, second: int)
    requires Wanted(w, calendar, first) && Wanted(w, calendar, second) && MinuteOf(first) < MinuteOf(second)
    ensures var ticks := [AtOnce(first), AtOnce(second), AtOnce(first)];
      RunTicks([w], calendar, ticks) == [Run(w.id, first), Run(w.id, second), Run(w.id, first)]
  {
    ThreeRuns(w, calendar, first, second, first);
  }

  /** Two ticks in one minute after the clock went back to it from a later one: the workflow runs twice, because only the
      later minute's run is looked at. */
  lemma TwoTicksInAnEarlierMinuteRunTwice(w: Workflow, calendar: Calendar, later: int, earlier: int)
    requires Wanted(w, calendar, later) && Wanted(w, calendar, earlier) && MinuteOf(earlier) < MinuteOf(later)
    ensures var ticks := [AtOnce(later), AtOnce(earlier), AtOnce(earlier)];
      RunTicks([w], calendar, ticks) == [Run(w.id, later), Run(w.id, earlier), Run(w.id, earlier)]
  {
    ThreeRuns(w, calendar, later, earlier, earlier);
  }

  lemma TwoRuns(w: Workflow, calendar: Calendar, first: int, second: int)
    requires Wanted(w, calendar, first) && Wanted(w, calendar, second) && MinuteOf(first) != MinuteOf(second)
    ensures RunTicks([w], calendar, [AtOnce(first), AtOnce(second)]) == [Run(w.id, first), Run(w.id, second)]
  {
    RunsAgain(w, calendar, [], [], first);
    assert [] + [AtOnce(first)] == [AtOnce(first)] && [] + [Run(w.id, first)] == [Run(w.id, first)];
    LastOfOne(Run(w.id, first));
    RunsAgain(w, calendar, [AtOnce(first)], [Run(w.id, first)], second);
    assert [AtOnce(first)] + [AtOnce(second)] == [AtOnce(first), AtOnce(second)];
  }

  /** A third run starts unless the later of the first two was in its minute. */
  lemma ThreeRuns(w: Workflow, calendar: Calendar, first: int, second: int, third: int)
    requires Wanted(w, calendar, first) && Wanted(w, calendar, second) && Wanted(w, calendar, third)
    requires MinuteOf(first) != MinuteOf(second) && MinuteOf(if second >= first then second else first) != MinuteOf(third)
    ensures RunTicks([w], calendar, [AtOnce(first), AtOnce(second), AtOnce(third)]) == [Run(w.id, first), Run(w.id, second), Run(w.id, third)]
  {
    var ticks, runs := [AtOnce(first), AtOnce(second)], [Run(w.id, first), Run(w.id, second)];
    TwoRuns(w, calendar, first, second);
    LastOfTwo(runs[0], runs[1]);
    RunsAgain(w, calendar, ticks, runs, third);
    assert ticks + [AtOnce(third)] == [AtOnce(first), AtOnce(second), AtOnce(third)];
  }

  lemma LastOfOne(r: Run)
    ensures LastRun([r], r.workflow) == Some(r)
  {
    assert [r][..0] == [];
  }

  lemma LastOfTwo(r: Run, q: Run)
    requires r.workflow == q.workflow
    ensures LastRun([r, q], r.workflow) == Some(if q.createdAt >= r.createdAt then q else r)
  {
    LastOfOne(r);
    assert [r, q][..1] == [r];
  }

  lemma RunsAgain(w: Workflow, calendar: Calendar, ticks: seq<Tick>, runs: seq<Run>, now: int)
    requires Wanted(w, calendar, now) && RunTicks([w], calendar, ticks) == runs
    requires LastRun(runs, w.id).Some? ==> MinuteOf(LastRun(runs, w.id).value.createdAt) != MinuteOf(now)
    ensures RunTicks([w], calendar, ticks + [AtOnce(now)]) == runs + [Run(w.id, now)]
  {
    OneTickMore([w], calendar, ticks, AtOnce(now));
    TickOfOne(w, runs, calendar, AtOnce(now));
  }

  lemma OneTickMore(workflows: seq<Workflow>, calendar: Calendar, ticks: seq<Tick>, tick: Tick)
    ensures RunTicks(workflows, calendar, ticks + [tick])
      == Ticked(workflows, RunTicks(workflows, calendar, ticks), calendar, tick.now, tick.created)
  {
    assert (ticks + [tick])[..|ticks|] == ticks;
  }

  lemma DueOfOne(w: Workflow, runs: seq<Run>, calendar: Calendar, now: int)
    requires DueItem(w, runs, calendar, now) == Some(Ready(w.id))
    ensures DueItems([w], runs, calendar, now) == [Ready(w.id)]
  {
    assert [w][..0] == [];
    assert DueItems([w][..0], runs, calendar, now) == [];
  }

  lemma StartedOfOne(id: string, created: string -> int)
    ensures Started([Ready(id)], created) == [Run(id, created(id))]
  {
    assert [Ready(id)][..0] == [];
  }

  lemma TickOfOne(w: Workflow, runs: seq<Run>, calendar: Calendar, tick: Tick)
    requires Wanted(w, calendar, tick.now)
    requires LastRun(runs, w.id).Some? ==> MinuteOf(LastRun(runs, w.id).value.createdAt) != MinuteOf(tick.now)
    ensures Ticked([w], runs, calendar, tick.now, tick.created) == runs + [Run(w.id, tick.created(w.id))]
  {
    DueOfOne(w, runs, calendar, tick.now);
    StartedOfOne(w.id, tick.created);
  }

  // ---- exactly when a minute is served twice ----------------------------------------------

  /** The minutes a workflow ran in, in the order of its runs. */
  function MinutesOf(runs: seq<Run>, id: string): seq<int> {
    if runs == [] then []
    else
      var last := runs[|runs| - 1];
      MinutesOf(runs[..|runs| - 1], id) + if last.workflow == id then [MinuteOf(last.createdAt)] else []
  }

  /** For each tick, the minute it wants the workflow in, if it does. */
  function Wants(w: Workflow, calendar: Calendar, ticks: seq<Tick>): (wants: seq<Option<int>>)
    ensures |wants| == |ticks|
  {
    seq(|ticks|, i requires 0 <= i < |ticks| => if Wanted(w, calendar, ticks[i].now) then Some(MinuteOf(ticks[i].now)) else None)
  }

  function Greatest(minutes: seq<int>): (m: int)
    requires minutes != []
    ensures m in minutes && forall x <- minutes :: x <= m
  {
    var last := minutes[|minutes| - 1];
    if |minutes| == 1 then last
    else
      assert minutes == minutes[..|minutes| - 1] + [last];
      var before := Greatest(minutes[..|minutes| - 1]);
      if last >= before then last else before
  }

  /** The wanted minutes, each left out where it is the greatest one wanted before. */
  function Served(wants: seq<Option<int>>): seq<int> {
    if wants == [] then []
    else
      var before, last := Served(wants[..|wants| - 1]), wants[|wants| - 1];
      if last.Some? && (before == [] || Greatest(before) != last.value) then before + [last.value] else before
  }

  ghost predicate InTheirMinute(ticks: seq<Tick>) {
    forall i, id :: 0 <= i < |ticks| ==> MinuteOf(ticks[i].created(id)) == MinuteOf(ticks[i].now)
  }

  lemma {:induction false} MinutesOfConcat(a: seq<Run>, b: seq<Run>, id: string)
    ensures MinutesOf(a + b, id) == MinutesOf(a, id) + MinutesOf(b, id)
  {
    if b == [] {
      assert a + b == a;
    } else {
      assert (a + b)[..|a + b| - 1] == a + b[..|b| - 1];
      MinutesOfConcat(a, b[..|b| - 1], id);
    }
  }

  lemma {:induction false} LastRunMinute(runs: seq<Run>, id: string)
    ensures LastRun(runs, id).None? <==> MinutesOf(runs, id) == []
    ensures LastRun(runs, id).Some? ==> MinuteOf(LastRun(runs, id).value.createdAt) == Greatest(MinutesOf(runs, id))
  {
    if runs != [] {
      var before, r := runs[..|runs| - 1], runs[|runs| - 1];
      LastRunMinute(before, id);
      if r.workflow == id {
        GreatestOneMore(MinutesOf(before, id), MinuteOf(r.createdAt));
        if LastRun(before, id).Some? { MinutesGrow(r.createdAt, LastRun(before, id).value.createdAt); }
      } else {
        assert MinutesOf(runs, id) == MinutesOf(before, id);
      }
    }
  }

  lemma MinutesGrow(a: int, b: int)
    ensures a <= b ==> MinuteOf(a) <= MinuteOf(b)
    ensures b <= a ==> MinuteOf(b) <= MinuteOf(a)
  {
  }

  lemma GreatestOneMore(minutes: seq<int>, m: int)
    ensures Greatest(minutes + [m]) == if minutes == [] || m >= Greatest(minutes) then m else Greatest(minutes)
  {
    assert (minutes + [m])[..|minutes|] == minutes;
  }

  lemma MinutesOneMore(runs: seq<Run>, r: Run, id: string)
    ensures MinutesOf(runs + [r], id) == MinutesOf(runs, id) + if r.workflow == id then [MinuteOf(r.createdAt)] else []
  {
    assert (runs + [r])[..|runs|] == runs;
  }

  lemma {:induction false} NothingStarted(items: seq<Item>, created: string -> int, id: string)
    requires Ready(id) !in items
    ensures MinutesOf(Started(items, created), id) == []
  {
    if items != [] {
      var before, last := items[..|items| - 1], items[|items| - 1];
      assert last in items && (forall x <- before :: x in items);
      NothingStarted(before, created, id);
      if last.Ready? {
        assert last == Ready(last.workflow);
        MinutesOneMore(Started(before, created), Run(last.workflow, created(last.workflow)), id);
      } else {
        assert Started(items, created) == Started(before, created);
      }
    }
  }

  lemma {:induction false} StartedOnce(items: seq<Item>, created: string -> int, id: string)
    requires DistinctItems(items) && Ready(id) in items
    ensures MinutesOf(Started(items, created), id) == [MinuteOf(created(id))]
  {
    var before, last := items[..|items| - 1], items[|items| - 1];
    assert items == before + [last];
    var started := Started(before, created);
    if last == Ready(id) {
      forall x | x in before ensures x != last {
        var i :| 0 <= i < |before| && items[i] == x;
        assert items[i].workflow != items[|before|].workflow;
      }
      NothingStarted(before, created, id);
      MinutesOneMore(started, Run(id, created(id)), id);
    } else {
      StartedOnce(before, created, id);
      if last.Ready? {
        assert last == Ready(last.workflow);
        MinutesOneMore(started, Run(last.workflow, created(last.workflow)), id);
      } else {
        assert Started(items, created) == started;
      }
    }
  }

  lemma ReadyIffDue(workflows: seq<Workflow>, runs: seq<Run>, calendar: Calendar, now: int, w: Workflow)
    requires DistinctIds(workflows) && w in workflows
    ensures Ready(w.id) in DueItems(workflows, runs, calendar, now) <==> DueItem(w, runs, calendar, now) == Some(Ready(w.id))
  {
    var items := DueItems(workflows, runs, calendar, now);
    DueItemsAreReady(workflows, runs, calendar, now);
    if Ready(w.id) in items {
      assert ComesFrom(Ready(w.id), workflows, runs, calendar, now);
      var v :| v in workflows && v.id == w.id && DueItem(v, runs, calendar, now) == Some(Ready(w.id));
      SameWorkflow(workflows, v, w);
    }
  }

  lemma SameWorkflow(workflows: seq<Workflow>, v: Workflow, w: Workflow)
    requires DistinctIds(workflows) && v in workflows && w in workflows && v.id == w.id
    ensures v == w
  {
    var i :| 0 <= i < |workflows| && workflows[i] == v;
    var j :| 0 <= j < |workflows| && workflows[j] == w;
  }

  lemma TickServes(workflows: seq<Workflow>, runs: seq<Run>, calendar: Calendar, tick: Tick, w: Workflow)
    requires DistinctIds(workflows) && w in workflows && MinuteOf(tick.created(w.id)) == MinuteOf(tick.now)
    ensures
      var before, after := MinutesOf(runs, w.id), MinutesOf(Ticked(workflows, runs, calendar, tick.now, tick.created), w.id);
      after == if Wanted(w, calendar, tick.now) && (before == [] || Greatest(before) != MinuteOf(tick.now))
               then before + [MinuteOf(tick.now)] else before
  {
    var items := DueItems(workflows, runs, calendar, tick.now);
    MinutesOfConcat(runs, Started(items, tick.created), w.id);
    LastRunMinute(runs, w.id);
    ReadyIffDue(workflows, runs, calendar, tick.now, w);
    if Ready(w.id) in items {
      DueItemsAreReady(workflows, runs, calendar, tick.now);
      StartedOnce(items, tick.created, w.id);
    } else {
      NothingStarted(items, tick.created, w.id);
    }
  }

  lemma ServedOneMore(wants: seq<Option<int>>, before: seq<Option<int>>, w: Workflow, calendar: Calendar, ticks: seq<Tick>)
    requires ticks != [] && wants == Wants(w, calendar, ticks) && before == Wants(w, calendar, ticks[..|ticks| - 1])
    ensures
      var served, tick := Served(before), ticks[|ticks| - 1];
      Served(wants) == if Wanted(w, calendar, tick.now) && (served == [] || Greatest(served) != MinuteOf(tick.now))
                       then served + [MinuteOf(tick.now)] else served
  {
    assert wants[..|wants| - 1] == before;
  }

  /** A tick runs a workflow exactly when it wants it and its minute is not the greatest one that wanted it before. */
  lemma {:induction false} RunsAreServed(workflows: seq<Workflow>, calendar: Calendar, ticks: seq<Tick>, w: Workflow)
    requires DistinctIds(workflows) && InTheirMinute(ticks) && w in workflows
    ensures MinutesOf(RunTicks(workflows, calendar, ticks), w.id) == Served(Wants(w, calendar, ticks))
  {
    if ticks != [] {
      var before, tick := ticks[..|ticks| - 1], ticks[|ticks| - 1];
      RunsAreServed(workflows, calendar, before, w);
      ServedOneMore(Wants(w, calendar, ticks), Wants(w, calendar, before), w, calendar, ticks);
      TickServes(workflows, RunTicks(workflows, calendar, before), calendar, tick, w);
    }
  }

  // ---- coming back ----

  ghost predicate NoRepeat(minutes: seq<int>) {
    forall i, j :: 0 <= i < j < |minutes| ==> minutes[i] != minutes[j]
  }

  /** The minute wanted at `k` was wanted before at `i`, and a later one before at `j`. */
  predicate Returns(wants: seq<Option<int>>, i: nat, j: nat, k: nat) {
    i < k < |wants| && j < k && wants[i].Some? && wants[i] == wants[k] && wants[j].Some? && wants[j].value > wants[k].value
  }

  ghost predicate ComesBack(wants: seq<Option<int>>) {
    exists i: nat, j: nat, k: nat :: Returns(wants, i, j, k)
  }

  /** Served are exactly the wanted minutes. */
  lemma {:induction false} ServedAreWanted(wants: seq<Option<int>>)
    ensures forall m :: m in Served(wants) <==> Some(m) in wants
  {
    if wants != [] {
      assert wants == wants[..|wants| - 1] + [wants[|wants| - 1]];
      ServedAreWanted(wants[..|wants| - 1]);
    }
  }

  ghost predicate BackAt(wants: seq<Option<int>>, k: nat) {
    exists i: nat, j: nat :: Returns(wants, i, j, k)
  }

  lemma ReturnsInPrefix(wants: seq<Option<int>>, n: nat, i: nat, j: nat, k: nat)
    requires k < n <= |wants|
    ensures Returns(wants[..n], i, j, k) <==> Returns(wants, i, j, k)
  {
  }

  lemma BackOneMore(wants: seq<Option<int>>)
    requires wants != []
    ensures ComesBack(wants) <==> ComesBack(wants[..|wants| - 1]) || BackAt(wants, |wants| - 1)
  {
    var n := |wants| - 1;
    if ComesBack(wants[..n]) {
      var i: nat, j: nat, k: nat :| Returns(wants[..n], i, j, k);
      ReturnsInPrefix(wants, n, i, j, k);
    }
    if ComesBack(wants) {
      var i: nat, j: nat, k: nat :| Returns(wants, i, j, k);
      if k < n { ReturnsInPrefix(wants, n, i, j, k); }
    }
  }

  /** The last want comes back exactly when its minute was served before and is not the greatest served. */
  lemma BackAtIff(wants: seq<Option<int>>)
    requires wants != [] && wants[|wants| - 1].Some?
    ensures
      var served, m := Served(wants[..|wants| - 1]), wants[|wants| - 1].value;
      BackAt(wants, |wants| - 1) <==> m in served && Greatest(served) != m
  {
    var n := |wants| - 1;
    var before, served, m := wants[..n], Served(wants[..n]), wants[n].value;
    ServedAreWanted(before);
    if m in served && Greatest(served) != m {
      assert Some(m) in before && Some(Greatest(served)) in before;
      var i :| 0 <= i < n && before[i] == Some(m);
      var j :| 0 <= j < n && before[j] == Some(Greatest(served));
      assert Returns(wants, i, j, n);
    }
    if BackAt(wants, n) {
      var i: nat, j: nat :| Returns(wants, i, j, n);
      assert before[i] == Some(m) && before[j] == Some(wants[j].value);
      assert Some(m) in before && Some(wants[j].value) in before;
    }
  }

  /** No minute is served twice exactly when no wanted minute comes back after a later one. */
  lemma {:induction false} NoRepeatIff(wants: seq<Option<int>>)
    ensures NoRepeat(Served(wants)) <==> !ComesBack(wants)
  {
    if wants != [] {
      var n := |wants| - 1;
      NoRepeatIff(wants[..n]);
      BackOneMore(wants);
      if wants[n].Some? {
        BackAtIff(wants);
        OneMoreServed(Served(wants[..n]), wants[n].value);
      }
    }
  }

  lemma OneMoreServed(served: seq<int>, m: int)
    ensures NoRepeat(served + [m]) <==> NoRepeat(served) && m !in served
  {
    var more := served + [m];
    if NoRepeat(more) {
      assert forall i :: 0 <= i < |served| ==> more[i] == served[i] && more[i] != more[|served|];
    }
  }

  /** No workflow runs twice in one minute. */
  ghost predicate OnceAMinute(runs: seq<Run>) {
    forall i, j :: 0 <= i < j < |runs| && runs[i].workflow == runs[j].workflow ==> MinuteOf(runs[i].createdAt) != MinuteOf(runs[j].createdAt)
  }

  lemma {:induction false} MinuteIsAmong(runs: seq<Run>, id: string, m: int)
    ensures m in MinutesOf(runs, id) <==> exists r <- runs :: r.workflow == id && MinuteOf(r.createdAt) == m
  {
    if runs != [] {
      MinuteIsAmong(runs[..|runs| - 1], id, m);
      assert runs == runs[..|runs| - 1] + [runs[|runs| - 1]];
    }
  }

  ghost predicate NobodyRepeats(runs: seq<Run>) {
    forall id :: NoRepeat(MinutesOf(runs, id))
  }

  lemma NobodyRepeatsOneMore(runs: seq<Run>, last: Run)
    ensures NobodyRepeats(runs + [last]) <==> NobodyRepeats(runs) && MinuteOf(last.createdAt) !in MinutesOf(runs, last.workflow)
  {
    NoRepeatOneMore(runs, last, last.workflow);
    if NobodyRepeats(runs + [last]) {
      assert NoRepeat(MinutesOf(runs + [last], last.workflow));
      forall id ensures NoRepeat(MinutesOf(runs, id)) {
        NoRepeatOneMore(runs, last, id);
        assert NoRepeat(MinutesOf(runs + [last], id));
      }
    } else if NobodyRepeats(runs) && MinuteOf(last.createdAt) !in MinutesOf(runs, last.workflow) {
      forall id ensures NoRepeat(MinutesOf(runs + [last], id)) {
        NoRepeatOneMore(runs, last, id);
        assert NoRepeat(MinutesOf(runs, id));
      }
    }
  }

  lemma {:induction false} OnceAMinuteIff(runs: seq<Run>)
    ensures OnceAMinute(runs) <==> NobodyRepeats(runs)
  {
    if runs != [] {
      var before, last := runs[..|runs| - 1], runs[|runs| - 1];
      assert runs == before + [last];
      OnceAMinuteIff(before);
      MinuteIsAmong(before, last.workflow, MinuteOf(last.createdAt));
      OneMoreRun(before, last);
      NobodyRepeatsOneMore(before, last);
    }
  }

  lemma NoRepeatOneMore(runs: seq<Run>, last: Run, id: string)
    ensures NoRepeat(MinutesOf(runs + [last], id)) <==>
      NoRepeat(MinutesOf(runs, id)) && (id == last.workflow ==> MinuteOf(last.createdAt) !in MinutesOf(runs, id))
  {
    MinutesOneMore(runs, last, id);
    OneMoreServed(MinutesOf(runs, id), MinuteOf(last.createdAt));
    assert MinutesOf(runs, id) + [] == MinutesOf(runs, id);
  }

  lemma OneMoreRun(runs: seq<Run>, last: Run)
    ensures OnceAMinute(runs + [last]) <==>
      OnceAMinute(runs) && !exists r <- runs :: r.workflow == last.workflow && MinuteOf(r.createdAt) == MinuteOf(last.createdAt)
  {
    var more := runs + [last];
    if OnceAMinute(more) {
      forall i, j | 0 <= i < j < |runs| && runs[i].workflow == runs[j].workflow ensures MinuteOf(runs[i].createdAt) != MinuteOf(runs[j].createdAt) {
        assert more[i] == runs[i] && more[j] == runs[j];
      }
      forall r | r in runs && r.workflow == last.workflow ensures MinuteOf(r.createdAt) != MinuteOf(last.createdAt) {
        var i :| 0 <= i < |runs| && runs[i] == r;
        assert more[i] == r && more[|runs|] == last;
      }
    }
  }

  lemma {:induction false} OthersNeverRun(workflows: seq<Workflow>, calendar: Calendar, ticks: seq<Tick>, id: string)
    requires DistinctIds(workflows) && forall w <- workflows :: w.id != id
    ensures MinutesOf(RunTicks(workflows, calendar, ticks), id) == []
  {
    if ticks != [] {
      var before, tick := ticks[..|ticks| - 1], ticks[|ticks| - 1];
      OthersNeverRun(workflows, calendar, before, id);
      var runs := RunTicks(workflows, calendar, before);
      var items := DueItems(workflows, runs, calendar, tick.now);
      DueItemsAreReady(workflows, runs, calendar, tick.now);
      forall item | item in items ensures item.workflow != id { assert ComesFrom(item, workflows, runs, calendar, tick.now); }
      NothingStarted(items, tick.created, id);
      MinutesOfConcat(runs, Started(items, tick.created), id);
    }
  }

  /** Whatever the clock does: no workflow runs twice in a minute exactly when, for none of them, a minute that wanted it
      wants it again after a later minute did. */
  lemma OnceAMinuteUnlessTheClockReturns(workflows: seq<Workflow>, calendar: Calendar, ticks: seq<Tick>)
    requires DistinctIds(workflows) && InTheirMinute(ticks)
    ensures OnceAMinute(RunTicks(workflows, calendar, ticks)) <==> forall w <- workflows :: !ComesBack(Wants(w, calendar, ticks))
  {
    var runs := RunTicks(workflows, calendar, ticks);
    OnceAMinuteIff(runs);
    forall w | w in workflows ensures NoRepeat(MinutesOf(runs, w.id)) <==> !ComesBack(Wants(w, calendar, ticks)) {
      RunsAreServed(workflows, calendar, ticks, w);
      NoRepeatIff(Wants(w, calendar, ticks));
    }
    if OnceAMinute(runs) {
      forall w | w in workflows ensures !ComesBack(Wants(w, calendar, ticks)) { assert NoRepeat(MinutesOf(runs, w.id)); }
    }
    if forall w <- workflows :: !ComesBack(Wants(w, calendar, ticks)) {
      forall id ensures NoRepeat(MinutesOf(runs, id)) {
        if w :| w in workflows && w.id == id { assert NoRepeat(MinutesOf(runs, w.id)); } else { OthersNeverRun(workflows, calendar, ticks, id); }
      }
    }
  }
}
