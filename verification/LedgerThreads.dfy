/** Any number of threads recording at once. A thread takes the lock, reads the last hash, inserts its row (or
    fails) and lets the lock go; steps of different threads interleave freely. */
module LedgerThreads {
  import opened Wrappers
  import opened CanonicalJson
  import opened Ledger

  datatype Phase = Idle | Holds | Knows(previous: string) | Done

  /** `recorded` lists what was inserted, as it was in memory. */
  datatype Table = Table(rows: seq<Row>, recorded: seq<Event>, lock: Option<nat>, phases: map<nat, Phase>)

  datatype Step = Acquire(thread: nat) | ReadHead(thread: nat) | Insert(thread: nat, event: Event) | Fail(thread: nat) | Release(thread: nat)

  function PhaseOf(t: Table, thread: nat): Phase {
    if thread in t.phases then t.phases[thread] else Idle
  }

  predicate Enabled(t: Table, step: Step) {
    match step
    case Acquire(i) => PhaseOf(t, i) == Idle && t.lock.None?
    case ReadHead(i) => PhaseOf(t, i) == Holds
    case Insert(i, _) => PhaseOf(t, i).Knows?
    case Fail(i) => PhaseOf(t, i) == Holds || PhaseOf(t, i).Knows?
    case Release(i) => PhaseOf(t, i) == Done
  }

  function Apply(d: Digest, t: Table, step: Step): Table
    requires Enabled(t, step)
  {
    match step
    case Acquire(i) => t.(lock := Some(i), phases := t.phases[i := Holds])
    case ReadHead(i) => t.(phases := t.phases[i := Knows(Head(t.rows))])
    case Insert(i, e) =>
      t.(rows := t.rows + [NewRow(d, |t.rows| + 1, PhaseOf(t, i).previous, e)], recorded := t.recorded + [e],
         phases := t.phases[i := Done])
    case Fail(i) => t.(phases := t.phases[i := Done])
    case Release(i) => t.(lock := None, phases := t.phases[i := Idle])
  }

  ghost predicate Schedule(d: Digest, t: Table, steps: seq<Step>)
    decreases |steps|
  {
    steps != [] ==> Enabled(t, steps[0]) && Schedule(d, Apply(d, t, steps[0]), steps[1..])
  }

  function Exec(d: Digest, t: Table, steps: seq<Step>): Table
    requires Schedule(d, t, steps)
    decreases |steps|
  {
    if steps == [] then t else Exec(d, Apply(d, t, steps[0]), steps[1..])
  }

  const EMPTY := Table([], [], None, map[])

  /** Only the holder of the lock is under way, and what it knows is still the head. */
  ghost predicate LockIsHeld(t: Table) {
    forall i: nat :: PhaseOf(t, i) != Idle ==> t.lock == Some(i) && (PhaseOf(t, i).Knows? ==> PhaseOf(t, i).previous == Head(t.rows))
  }

  /** Every row continues the row before it, with the hash of what was recorded. */
  ghost predicate RowIs(d: Digest, t: Table, k: nat)
    requires k < |t.rows| && k < |t.recorded|
  {
    t.rows[k] == NewRow(d, k + 1, Head(t.rows[..k]), t.recorded[k])
  }

  ghost predicate Inv(d: Digest, t: Table) {
    && LockIsHeld(t)
    && |t.recorded| == |t.rows|
    && forall k :: 0 <= k < |t.rows| ==> RowIs(d, t, k)
  }

  lemma StepKeeps(d: Digest, t: Table, step: Step)
    requires Inv(d, t) && Enabled(t, step)
    ensures Inv(d, Apply(d, t, step))
  {
    var u := Apply(d, t, step);
    if step.Insert? {
      assert PhaseOf(t, step.thread) != Idle;
    }
    forall k | 0 <= k < |u.rows| ensures RowIs(d, u, k) {
      if k < |t.rows| {
        assert u.rows[..k] == t.rows[..k];
        assert RowIs(d, t, k);
      } else {
        assert u.rows[..k] == t.rows;
      }
    }
    assert forall i: nat :: i != step.thread ==> PhaseOf(u, i) == PhaseOf(t, i);
    assert PhaseOf(t, step.thread) != Idle || step.Acquire?;
  }

  lemma {:induction false} StepsKeep(d: Digest, t: Table, steps: seq<Step>)
    requires Inv(d, t) && Schedule(d, t, steps)
    ensures Inv(d, Exec(d, t, steps))
    decreases |steps|
  {
    if steps != [] {
      StepKeeps(d, t, steps[0]);
      StepsKeep(d, Apply(d, t, steps[0]), steps[1..]);
    }
  }

  /** Whatever the interleaving, the table verifies exactly when every payload recorded in it keeps its canonical
      form in storage. */
  lemma TableIsValidIff(d: Digest, steps: seq<Step>)
    requires CollisionFree(d) && Schedule(d, EMPTY, steps)
    ensures var t := Exec(d, EMPTY, steps); Valid(d, t.rows) <==> forall e <- t.recorded :: Survives(e.payload)
  {
    StepsKeep(d, EMPTY, steps);
    var t := Exec(d, EMPTY, steps);
    ValidIff(d, t.rows);
    forall k | 0 <= k < |t.rows| ensures LinkedAt(d, t.rows, k) <==> Survives(t.recorded[k].payload) {
      assert RowIs(d, t, k);
    }
    if Valid(d, t.rows) {
      forall e <- t.recorded ensures Survives(e.payload) {
        var k :| 0 <= k < |t.recorded| && t.recorded[k] == e;
        assert LinkedAt(d, t.rows, k);
      }
    } else {
      var k :| 0 <= k < |t.rows| && !LinkedAt(d, t.rows, k);
      assert t.recorded[k] in t.recorded;
    }
  }

  /** With text keys at every level of every payload, every reachable table verifies, and its events are the ones
      that were recorded, in the order of the inserts. */
  lemma EveryTableIsValid(d: Digest, steps: seq<Step>)
    requires CollisionFree(d) && Schedule(d, EMPTY, steps)
    requires forall e <- Exec(d, EMPTY, steps).recorded :: WellFormed(e.payload) && TextKeyed(e.payload)
    ensures
      var t := Exec(d, EMPTY, steps);
      && Valid(d, t.rows) && |t.rows| == |t.recorded|
      && forall k :: 0 <= k < |t.rows| ==> SaysTheSame(t.rows[k].event, t.recorded[k]) && t.rows[k].number == k + 1
  {
    var t := Exec(d, EMPTY, steps);
    forall e <- t.recorded ensures Survives(e.payload) {
      TextKeysAgree(e.payload);
      SurvivesIff(e.payload);
    }
    TableIsValidIff(d, steps);
    StepsKeep(d, EMPTY, steps);
    forall k | 0 <= k < |t.rows| ensures SaysTheSame(t.rows[k].event, t.recorded[k]) && t.rows[k].number == k + 1 {
      assert RowIs(d, t, k) && t.recorded[k] in t.recorded;
    }
  }

  /** Without the lock: two threads that read the same head leave a table whose second row is reported. */
  lemma WithoutTheLockTheChainBreaks(d: Digest, first: Event, second: Event)
    requires CollisionFree(d) && Survives(first.payload)
    ensures
      var previous := Head([]);
      Broken(d, [NewRow(d, 1, previous, first), NewRow(d, 2, previous, second)]) == [1]
  {
    var previous := Head([]);
    var rows := [NewRow(d, 1, previous, first), NewRow(d, 2, previous, second)];
    assert rows[..1] == [rows[0]] && rows[..1][..0] == [];
    assert LinkedAt(d, rows[..1], 0);
    assert !LinkedAt(d, rows, 1);
    assert Broken(d, rows[..1][..0]) == [] && Broken(d, rows[..1]) == [];
  }
}
