/** Recording under the lock comes to an end: whoever holds the lock can finish, or fail, and let it go, and then anyone can
    record. */
module LedgerProgress {
  import opened Wrappers
  import opened CanonicalJson
  import opened Ledger
  import opened LedgerThreads

  /** Whoever has the lock is under way. */
  ghost predicate HolderIsUnderWay(t: Table) {
    t.lock.Some? ==> PhaseOf(t, t.lock.value) != Idle
  }

  lemma {:induction false} StepsKeepHolder(d: Digest, t: Table, steps: seq<Step>)
    requires Inv(d, t) && HolderIsUnderWay(t) && Schedule(d, t, steps)
    ensures Inv(d, Exec(d, t, steps)) && HolderIsUnderWay(Exec(d, t, steps))
    decreases |steps|
  {
    if steps != [] {
      StepKeeps(d, t, steps[0]);
      StepKeepsHolder(d, t, steps[0]);
      StepsKeepHolder(d, Apply(d, t, steps[0]), steps[1..]);
    }
  }

  lemma StepKeepsHolder(d: Digest, t: Table, step: Step)
    requires Inv(d, t) && HolderIsUnderWay(t) && Enabled(t, step)
    ensures HolderIsUnderWay(Apply(d, t, step))
  {
    assert PhaseOf(t, step.thread) != Idle || step.Acquire?;
  }

  lemma OneStep(d: Digest, t: Table, step: Step, rest: seq<Step>)
    requires Enabled(t, step) && Schedule(d, Apply(d, t, step), rest)
    ensures Schedule(d, t, [step] + rest) && Exec(d, t, [step] + rest) == Exec(d, Apply(d, t, step), rest)
  {
    assert ([step] + rest)[1..] == rest;
  }

  /** The lock is free, this thread has nothing under way, and the table holds these rows. */
  ghost predicate FreeWith(t: Table, thread: nat, rows: seq<Row>, recorded: seq<Event>) {
    t.lock == None && PhaseOf(t, thread) == Idle && t.rows == rows && t.recorded == recorded
  }

  lemma ReleaseEnds(d: Digest, t: Table, i: nat)
    requires PhaseOf(t, i) == Done
    ensures Schedule(d, t, [Step.Release(i)]) && FreeWith(Exec(d, t, [Step.Release(i)]), i, t.rows, t.recorded)
  {
    OneStep(d, t, Step.Release(i), []);
    assert [Step.Release(i)] + [] == [Step.Release(i)];
  }

  lemma InsertEnds(d: Digest, t: Table, i: nat, e: Event)
    requires PhaseOf(t, i) == Knows(Head(t.rows))
    ensures var steps := [Insert(i, e), Step.Release(i)];
      && Schedule(d, t, steps)
      && FreeWith(Exec(d, t, steps), i, t.rows + [NewRow(d, |t.rows| + 1, Head(t.rows), e)], t.recorded + [e])
  {
    var u := Apply(d, t, Insert(i, e));
    ReleaseEnds(d, u, i);
    OneStep(d, t, Insert(i, e), [Step.Release(i)]);
    assert [Insert(i, e)] + [Step.Release(i)] == [Insert(i, e), Step.Release(i)];
  }

  lemma ReadEnds(d: Digest, t: Table, i: nat, e: Event)
    requires PhaseOf(t, i) == Holds
    ensures var steps := [ReadHead(i), Insert(i, e), Step.Release(i)];
      && Schedule(d, t, steps)
      && FreeWith(Exec(d, t, steps), i, t.rows + [NewRow(d, |t.rows| + 1, Head(t.rows), e)], t.recorded + [e])
  {
    var u := Apply(d, t, ReadHead(i));
    InsertEnds(d, u, i, e);
    OneStep(d, t, ReadHead(i), [Insert(i, e), Step.Release(i)]);
    assert [ReadHead(i)] + [Insert(i, e), Step.Release(i)] == [ReadHead(i), Insert(i, e), Step.Release(i)];
  }

  lemma FailEnds(d: Digest, t: Table, i: nat)
    requires PhaseOf(t, i) == Holds || PhaseOf(t, i).Knows?
    ensures Schedule(d, t, [Fail(i), Step.Release(i)]) && FreeWith(Exec(d, t, [Fail(i), Step.Release(i)]), i, t.rows, t.recorded)
  {
    ReleaseEnds(d, Apply(d, t, Fail(i)), i);
    OneStep(d, t, Fail(i), [Step.Release(i)]);
    assert [Fail(i)] + [Step.Release(i)] == [Fail(i), Step.Release(i)];
  }

  /** In every reachable table with a free lock any thread can record any event: the table then has one row more, chained to its
      head, and the lock is free again. */
  lemma AnyoneCanRecord(d: Digest, steps: seq<Step>, i: nat, e: Event)
    requires Schedule(d, EMPTY, steps) && Exec(d, EMPTY, steps).lock == None
    ensures
      var t, more := Exec(d, EMPTY, steps), [Acquire(i), ReadHead(i), Insert(i, e), Step.Release(i)];
      && Schedule(d, t, more)
      && FreeWith(Exec(d, t, more), i, t.rows + [NewRow(d, |t.rows| + 1, Head(t.rows), e)], t.recorded + [e])
  {
    var t := Exec(d, EMPTY, steps);
    StepsKeepHolder(d, EMPTY, steps);
    assert PhaseOf(t, i) == Idle;
    ReadEnds(d, Apply(d, t, Acquire(i)), i, e);
    OneStep(d, t, Acquire(i), [ReadHead(i), Insert(i, e), Step.Release(i)]);
    assert [Acquire(i)] + [ReadHead(i), Insert(i, e), Step.Release(i)] == [Acquire(i), ReadHead(i), Insert(i, e), Step.Release(i)];
  }

  /** In every reachable table whose lock is held, the holder can let it go by at most three steps of its own: having recorded
      its event, unless it had before or has failed; and until it has, it can also fail, and leave the rows as they are. */
  lemma HolderCanFinish(d: Digest, steps: seq<Step>, e: Event) returns (finish: seq<Step>)
    requires Schedule(d, EMPTY, steps) && Exec(d, EMPTY, steps).lock.Some?
    ensures
      var t := Exec(d, EMPTY, steps);
      var i := t.lock.value;
      && |finish| <= 3 && (forall step <- finish :: step.thread == i) && Schedule(d, t, finish)
      && FreeWith(Exec(d, t, finish), i, if PhaseOf(t, i) == Done then t.rows else t.rows + [NewRow(d, |t.rows| + 1, Head(t.rows), e)],
                  if PhaseOf(t, i) == Done then t.recorded else t.recorded + [e])
      && (PhaseOf(t, i) != Done ==>
            Schedule(d, t, [Fail(i), Step.Release(i)]) && FreeWith(Exec(d, t, [Fail(i), Step.Release(i)]), i, t.rows, t.recorded))
  {
    var t := Exec(d, EMPTY, steps);
    var i := t.lock.value;
    StepsKeepHolder(d, EMPTY, steps);
    match PhaseOf(t, i)
    case Holds =>
      ReadEnds(d, t, i, e);
      FailEnds(d, t, i);
      finish := [ReadHead(i), Insert(i, e), Step.Release(i)];
    case Knows(previous) =>
      InsertEnds(d, t, i, e);
      FailEnds(d, t, i);
      finish := [Insert(i, e), Step.Release(i)];
    case Done =>
      ReleaseEnds(d, t, i);
      finish := [Step.Release(i)];
  }
}
