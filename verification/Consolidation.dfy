/** Memory consolidation: one sweep over the records, newest first, that archives the worse of each look-alike pair. */
module Consolidation {
  import opened Wrappers
  import opened Ordering

  datatype Record = Record(id: string, createdAt: int, age: int, archived: bool, duplicateOf: Option<string>)

  /** What is computed from the records' contents: who has a vector, how alike two vectors are, how salient a record is. */
  datatype Scoring = Scoring(vectors: set<string>, cosine: (string, string) -> int, threshold: int, salience: string -> int)

  datatype Pair = Pair(winner: string, loser: string, cosine: int)

  datatype Progress = Progress(survivors: seq<string>, pairs: seq<Pair>)

  // ---- the sweep ------------------------------------------------------------------

  predicate Alike(sc: Scoring, a: string, b: string) {
    a in sc.vectors && b in sc.vectors && sc.cosine(a, b) >= sc.threshold
  }

  /** The position of the first survivor like the record; past the end when there is none. */
  function TwinAt(sc: Scoring, survivors: seq<string>, id: string): (at: nat)
    ensures at <= |survivors| && (at < |survivors| ==> Alike(sc, id, survivors[at]))
    ensures forall i :: 0 <= i < at ==> !Alike(sc, id, survivors[i])
  {
    if survivors == [] || Alike(sc, id, survivors[0]) then 0 else 1 + TwinAt(sc, survivors[1..], id)
  }

  /** On a tie the earlier survivor wins. */
  function Judged(sc: Scoring, twin: string, id: string): Pair {
    if sc.salience(twin) >= sc.salience(id) then Pair(twin, id, sc.cosine(id, twin)) else Pair(id, twin, sc.cosine(id, twin))
  }

  function Without(survivors: seq<string>, at: nat): seq<string>
    requires at < |survivors|
  {
    survivors[..at] + survivors[at + 1..]
  }

  /** A dry run reports the pair but leaves the survivors as they are. */
  function Step(sc: Scoring, apply: bool, p: Progress, id: string): Progress {
    var at := TwinAt(sc, p.survivors, id);
    if at == |p.survivors| then p.(survivors := p.survivors + [id])
    else
      var pair := Judged(sc, p.survivors[at], id);
      Progress(if apply && pair.loser != id then Without(p.survivors, at) + [id] else p.survivors, p.pairs + [pair])
  }

  function Sweep(sc: Scoring, apply: bool, ids: seq<string>): Progress {
    if ids == [] then Progress([], []) else Step(sc, apply, Sweep(sc, apply, ids[..|ids| - 1]), ids[|ids| - 1])
  }

  // ---- the store ------------------------------------------------------------------

  function Marked(r: Record, pair: Pair): Record {
    if r.id == pair.loser then r.(archived := true, duplicateOf := Some(pair.winner)) else r
  }

  function Mark(store: seq<Record>, pair: Pair): seq<Record> {
    seq(|store|, i requires 0 <= i < |store| => Marked(store[i], pair))
  }

  function MarkAll(store: seq<Record>, pairs: seq<Pair>): (marked: seq<Record>)
    ensures |marked| == |store|
  {
    if pairs == [] then store else Mark(MarkAll(store, pairs[..|pairs| - 1]), pairs[|pairs| - 1])
  }

  lemma MarkOneMore(store: seq<Record>, pairs: seq<Pair>, pair: Pair)
    ensures MarkAll(store, pairs + [pair]) == Mark(MarkAll(store, pairs), pair)
  {
    assert (pairs + [pair])[..|pairs|] == pairs;
  }

  lemma SweepOneMore(sc: Scoring, apply: bool, ids: seq<string>, i: nat)
    requires i < |ids|
    ensures Sweep(sc, apply, ids[..i + 1]) == Step(sc, apply, Sweep(sc, apply, ids[..i]), ids[i])
  {
    assert ids[..i + 1][..i] == ids[..i];
  }

  predicate NewerFirst(a: Record, b: Record) {
    a.createdAt >= b.createdAt
  }

  function Active(store: seq<Record>): seq<Record> {
    if store == [] then []
    else Active(store[..|store| - 1]) + if store[|store| - 1].archived then [] else [store[|store| - 1]]
  }

  function Ids(records: seq<Record>): (ids: seq<string>)
    ensures |ids| == |records|
  {
    seq(|records|, i requires 0 <= i < |records| => records[i].id)
  }

  /** The records swept: those not archived, newest first, up to the limit. */
  function Candidates(store: seq<Record>, limit: nat): seq<Record> {
    var sorted := Sort(Active(store), NewerFirst);
    if |sorted| > limit then sorted[..limit] else sorted
  }

  predicate Expired(r: Record, retention: int) {
    r.archived && r.age >= retention
  }

  function Kept(store: seq<Record>, retention: int): (kept: seq<Record>)
    ensures |kept| <= |store|
  {
    if store == [] then []
    else Kept(store[..|store| - 1], retention) + if Expired(store[|store| - 1], retention) then [] else [store[|store| - 1]]
  }

  datatype Settings = Settings(limit: nat, retention: int)

  datatype Report = Report(scanned: nat, duplicates: nat, prunable: nat, archived: nat, pruned: nat, applied: bool, pairs: seq<Pair>)

  datatype Outcome = Outcome(store: seq<Record>, report: Report)

  function FirstTwenty(pairs: seq<Pair>): seq<Pair> {
    if |pairs| > 20 then pairs[..20] else pairs
  }

  function Consolidated(store: seq<Record>, settings: Settings, sc: Scoring, apply: bool, prune: bool): Outcome {
    var ids := Ids(Candidates(store, settings.limit));
    var pairs := Sweep(sc, apply, ids).pairs;
    var marked := if apply then MarkAll(store, pairs) else store;
    var kept := if prune then Kept(marked, settings.retention) else marked;
    var prunable := |marked| - |kept|;
    Outcome(if apply then kept else store,
            Report(|ids|, |pairs|, prunable, if apply then |pairs| else 0, if apply then prunable else 0, apply, FirstTwenty(pairs)))
  }

  class Memory {
    const settings: Settings
    var store: seq<Record>

    constructor (settings: Settings, store: seq<Record>)
      ensures this.settings == settings && this.store == store
    {
      this.settings, this.store := settings, store;
    }

    /** The first survivor with a vector close enough, if any. */
    method FindTwin(sc: Scoring, survivors: seq<string>, id: string) returns (at: nat)
      ensures at == TwinAt(sc, survivors, id)
    {
      at := 0;
      while at < |survivors| && !Alike(sc, id, survivors[at])
        invariant at <= |survivors| && TwinAt(sc, survivors, id) == at + TwinAt(sc, survivors[at..], id)
      {
        assert survivors[at..][1..] == survivors[at + 1..];
        at := at + 1;
      }
    }

    /** The sweep; applying it marks each loser in the store as it is found. */
    method FindDuplicates(sc: Scoring, apply: bool, ids: seq<string>) returns (duplicates: seq<Pair>)
      modifies this
      ensures duplicates == Sweep(sc, apply, ids).pairs
      ensures store == if apply then MarkAll(old(store), duplicates) else old(store)
    {
      var survivors := [];
      duplicates := [];
      for i := 0 to |ids|
        invariant Progress(survivors, duplicates) == Sweep(sc, apply, ids[..i])
        invariant store == if apply then MarkAll(old(store), duplicates) else old(store)
      {
        SweepOneMore(sc, apply, ids, i);
        var at := FindTwin(sc, survivors, ids[i]);
        if at == |survivors| {
          survivors := survivors + [ids[i]];
        } else {
          var pair := Judged(sc, survivors[at], ids[i]);
          MarkOneMore(old(store), duplicates, pair);
          duplicates := duplicates + [pair];
          if apply {
            store := Mark(store, pair);
            if pair.loser != ids[i] { survivors := survivors[..at] + survivors[at + 1..] + [ids[i]]; }
          }
        }
      }
      assert ids[..|ids|] == ids;
    }

    method Prune(apply: bool) returns (pruned: nat)
      modifies this
      ensures pruned == |old(store)| - |Kept(old(store), settings.retention)|
      ensures store == if apply then Kept(old(store), settings.retention) else old(store)
    {
      pruned := 0;
      var kept := [];
      for i := 0 to |store|
        invariant kept == Kept(store[..i], settings.retention) && pruned == i - |kept|
        invariant store == old(store)
      {
        assert store[..i + 1][..i] == store[..i];
        if store[i].archived && store[i].age >= settings.retention { pruned := pruned + 1; } else { kept := kept + [store[i]]; }
      }
      assert store[..|store|] == store;
      if apply { store := kept; }
    }

    method Consolidate(sc: Scoring, apply: bool, prune: bool) returns (report: Report)
      modifies this
      ensures Outcome(store, report) == Consolidated(old(store), settings, sc, apply, prune)
    {
      var ids := Ids(Candidates(store, settings.limit));
      var duplicates := FindDuplicates(sc, apply, ids);
      var pruned := 0;
      if prune { pruned := Prune(apply); }
      report := Report(|ids|, |duplicates|, pruned, if apply then |duplicates| else 0, if apply then pruned else 0, apply, FirstTwenty(duplicates));
    }
  }

  // ---- survivors and losers ---------------------------------------------------------

  predicate Distinct(ids: seq<string>) {
    forall i, j :: 0 <= i < j < |ids| ==> ids[i] != ids[j]
  }

  function Losers(pairs: seq<Pair>): (losers: seq<string>)
    ensures |losers| == |pairs|
  {
    seq(|pairs|, i requires 0 <= i < |pairs| => pairs[i].loser)
  }

  /** Every id is a survivor or a loser, none is both, and none is either twice. */
  ghost predicate Splits(ids: seq<string>, survivors: seq<string>, losers: seq<string>) {
    && Distinct(survivors) && Distinct(losers)
    && (forall id <- survivors :: id in ids && id !in losers)
    && (forall id <- losers :: id in ids)
    && (forall id <- ids :: id in survivors || id in losers)
  }

  lemma OneMoreSurvivor(ids: seq<string>, survivors: seq<string>, losers: seq<string>, id: string)
    requires Splits(ids, survivors, losers) && id !in ids
    ensures Splits(ids + [id], survivors + [id], losers)
  {
  }

  lemma OneMoreLoser(ids: seq<string>, survivors: seq<string>, losers: seq<string>, id: string)
    requires Splits(ids, survivors, losers) && id !in ids
    ensures Splits(ids + [id], survivors, losers + [id])
  {
  }

  lemma WithoutOne(survivors: seq<string>, at: nat)
    requires Distinct(survivors) && at < |survivors|
    ensures Distinct(Without(survivors, at)) && survivors[at] !in Without(survivors, at)
    ensures forall id <- Without(survivors, at) :: id in survivors
    ensures forall id <- survivors :: id == survivors[at] || id in Without(survivors, at)
  {
    var left := Without(survivors, at);
    forall id | id in survivors ensures id == survivors[at] || id in left {
      var i :| 0 <= i < |survivors| && survivors[i] == id;
      if i < at { assert left[i] == id; } else if i > at { assert left[i - 1] == id; }
    }
  }

  lemma Replaced(ids: seq<string>, survivors: seq<string>, losers: seq<string>, at: nat)
    requires Splits(ids, survivors, losers) && at < |survivors|
    ensures Splits(ids, Without(survivors, at), losers + [survivors[at]])
  {
    WithoutOne(survivors, at);
    assert survivors[at] in survivors;
  }

  /** Every record swept ends up as a survivor or as the loser of exactly one pair, never both. */
  lemma {:induction false} SweepSplits(sc: Scoring, ids: seq<string>)
    requires Distinct(ids)
    ensures var p := Sweep(sc, true, ids); Splits(ids, p.survivors, Losers(p.pairs))
  {
    if ids != [] {
      var n := |ids| - 1;
      SweepSplits(sc, ids[..n]);
      var p := Sweep(sc, true, ids[..n]);
      StepSplits(sc, ids[..n], p, ids[n]);
      assert ids[..n] + [ids[n]] == ids;
    }
  }

  lemma StepSplits(sc: Scoring, ids: seq<string>, p: Progress, id: string)
    requires Splits(ids, p.survivors, Losers(p.pairs)) && id !in ids
    ensures var q := Step(sc, true, p, id); Splits(ids + [id], q.survivors, Losers(q.pairs))
  {
    var at := TwinAt(sc, p.survivors, id);
    if at == |p.survivors| {
      OneMoreSurvivor(ids, p.survivors, Losers(p.pairs), id);
    } else {
      var pair := Judged(sc, p.survivors[at], id);
      assert Losers(p.pairs + [pair]) == Losers(p.pairs) + [pair.loser];
      assert p.survivors[at] in p.survivors;
      if pair.loser == id {
        OneMoreLoser(ids, p.survivors, Losers(p.pairs), id);
      } else {
        Replaced(ids, p.survivors, Losers(p.pairs), at);
        OneMoreSurvivor(ids, Without(p.survivors, at), Losers(p.pairs) + [p.survivors[at]], id);
      }
    }
  }

  /** Applied or not, each record swept either survives or makes one pair. */
  lemma {:induction false} PairsCountTheRest(sc: Scoring, apply: bool, ids: seq<string>)
    ensures var p := Sweep(sc, apply, ids); |p.pairs| == |ids| - |p.survivors|
  {
    if ids != [] { PairsCountTheRest(sc, apply, ids[..|ids| - 1]); }
  }
}
