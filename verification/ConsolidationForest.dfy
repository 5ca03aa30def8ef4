/** The links from archived look-alikes to what they duplicate: a forest, over one sweep and over any number of them. */
module ConsolidationForest {
  import opened Wrappers
  import opened Ordering
  import opened Consolidation

  ghost predicate Symmetric(sc: Scoring) {
    forall a, b :: sc.cosine(a, b) == sc.cosine(b, a)
  }

  /** The two are alike, the reported similarity is theirs, and the winner is at least as salient. */
  predicate Deserved(sc: Scoring, pair: Pair) {
    && pair.loser in sc.vectors && pair.winner in sc.vectors && pair.cosine == sc.cosine(pair.loser, pair.winner)
    && pair.cosine >= sc.threshold
    && sc.salience(pair.winner) >= sc.salience(pair.loser)
  }

  /** Applied or not, every reported pair is deserved. */
  lemma {:induction false} EveryPairIsDeserved(sc: Scoring, apply: bool, ids: seq<string>)
    requires Symmetric(sc)
    ensures forall pair <- Sweep(sc, apply, ids).pairs :: Deserved(sc, pair)
  {
    if ids != [] {
      EveryPairIsDeserved(sc, apply, ids[..|ids| - 1]);
      var p := Sweep(sc, apply, ids[..|ids| - 1]);
      if TwinAt(sc, p.survivors, ids[|ids| - 1]) < |p.survivors| {
        var twin, id := p.survivors[TwinAt(sc, p.survivors, ids[|ids| - 1])], ids[|ids| - 1];
        assert sc.cosine(twin, id) == sc.cosine(id, twin);
      }
    }
  }

  // ---- the order of the links -----------------------------------------------------

  /** Whoever won a pair can only lose a later one. */
  ghost predicate Forward(pairs: seq<Pair>) {
    forall i, j :: 0 <= i < |pairs| && 0 <= j < |pairs| && pairs[i].winner == pairs[j].loser ==> i < j
  }

  lemma StepGoesForward(sc: Scoring, ids: seq<string>, p: Progress, id: string)
    requires Splits(ids, p.survivors, Losers(p.pairs)) && Forward(p.pairs) && id !in ids
    requires forall pair <- p.pairs :: pair.winner in ids
    ensures var q := Step(sc, true, p, id); Forward(q.pairs) && forall pair <- q.pairs :: pair.winner in ids + [id]
  {
    var at := TwinAt(sc, p.survivors, id);
    if at < |p.survivors| {
      var twin := p.survivors[at];
      assert twin in p.survivors;
      var pair := Judged(sc, twin, id);
      var n := |p.pairs|;
      var q := p.pairs + [pair];
      forall j | 0 <= j <= n ensures pair.winner != q[j].loser {
        if j < n { assert Losers(p.pairs)[j] in Losers(p.pairs); }
      }
    }
  }

  lemma {:induction false} SweepGoesForward(sc: Scoring, ids: seq<string>)
    requires Distinct(ids)
    ensures var p := Sweep(sc, true, ids); Forward(p.pairs) && forall pair <- p.pairs :: pair.winner in ids
  {
    if ids != [] {
      var n := |ids| - 1;
      SweepGoesForward(sc, ids[..n]);
      SweepSplits(sc, ids[..n]);
      StepGoesForward(sc, ids[..n], Sweep(sc, true, ids[..n]), ids[n]);
      assert ids[..n] + [ids[n]] == ids;
    }
  }

  // ---- following links --------------------------------------------------------------

  ghost predicate Link(pairs: seq<Pair>, loser: string, winner: string) {
    exists i :: 0 <= i < |pairs| && pairs[i].loser == loser && pairs[i].winner == winner
  }

  /** Each step of the path is a link. */
  ghost predicate Follows(pairs: seq<Pair>, path: seq<string>) {
    forall k :: 0 < k < |path| ==> Link(pairs, path[k - 1], path[k])
  }

  /** The last link of a path starting at a given link stands no earlier in the list. */
  lemma {:induction false} LinksGrow(pairs: seq<Pair>, path: seq<string>, first: nat) returns (last: nat)
    requires Forward(pairs) && Follows(pairs, path) && |path| >= 2
    requires first < |pairs| && pairs[first].loser == path[0] && pairs[first].winner == path[1]
    ensures first <= last < |pairs| && pairs[last].winner == path[|path| - 1]
    decreases |path|
  {
    if |path| == 2 { return first; }
    assert Link(pairs, path[1], path[2]);
    var next :| 0 <= next < |pairs| && pairs[next].loser == path[1] && pairs[next].winner == path[2];
    last := LinksGrow(pairs, path[1..], next);
  }

  /** Following links never comes back to where it started. */
  lemma PathsDoNotReturn(pairs: seq<Pair>, path: seq<string>)
    requires Forward(pairs) && Follows(pairs, path) && |path| >= 2
    ensures path[0] != path[|path| - 1]
  {
    assert Link(pairs, path[0], path[1]);
    var first :| 0 <= first < |pairs| && pairs[first].loser == path[0] && pairs[first].winner == path[1];
    var last := LinksGrow(pairs, path, first);
  }

  /** Salience never falls along the path. */
  ghost predicate Rises(sc: Scoring, path: seq<string>) {
    forall k :: 0 < k < |path| ==> Alike(sc, path[k - 1], path[k]) && sc.salience(path[k - 1]) <= sc.salience(path[k])
  }

  lemma {:induction false} FromLoser(sc: Scoring, ids: seq<string>, i: nat) returns (path: seq<string>)
    requires Symmetric(sc) && Distinct(ids) && i < |Sweep(sc, true, ids).pairs|
    ensures var p := Sweep(sc, true, ids);
      path != [] && path[0] == p.pairs[i].loser && Follows(p.pairs, path) && Rises(sc, path) && path[|path| - 1] in p.survivors
    decreases |Sweep(sc, true, ids).pairs| - i
  {
    var p := Sweep(sc, true, ids);
    var pair := p.pairs[i];
    SweepGoesForward(sc, ids);
    SweepSplits(sc, ids);
    EveryPairIsDeserved(sc, true, ids);
    var rest := [pair.winner];
    if pair.winner !in p.survivors {
      var j :| 0 <= j < |p.pairs| && Losers(p.pairs)[j] == pair.winner;
      rest := FromLoser(sc, ids, j);
    }
    path := [pair.loser] + rest;
    assert Link(p.pairs, pair.loser, pair.winner);
    PathGrows(sc, p.pairs, pair, rest);
  }

  lemma PathGrows(sc: Scoring, pairs: seq<Pair>, pair: Pair, rest: seq<string>)
    requires rest != [] && rest[0] == pair.winner && Follows(pairs, rest) && Rises(sc, rest)
    requires Link(pairs, pair.loser, pair.winner) && Deserved(sc, pair)
    ensures Follows(pairs, [pair.loser] + rest) && Rises(sc, [pair.loser] + rest)
  {
    var path := [pair.loser] + rest;
    forall k | 0 < k < |path|
      ensures Link(pairs, path[k - 1], path[k]) && Alike(sc, path[k - 1], path[k]) && sc.salience(path[k - 1]) <= sc.salience(path[k])
    {
      if k > 1 { assert path[k] == rest[k - 1] && path[k - 1] == rest[k - 2]; }
    }
  }

  /** From every record swept, following the links of an applied sweep ends at a survivor: each step joins look-alikes
      and salience never falls. */
  lemma EveryPathEndsAtASurvivor(sc: Scoring, ids: seq<string>, id: string) returns (path: seq<string>)
    requires Symmetric(sc) && Distinct(ids) && id in ids
    ensures var p := Sweep(sc, true, ids);
      path != [] && path[0] == id && Follows(p.pairs, path) && Rises(sc, path) && path[|path| - 1] in p.survivors
  {
    var p := Sweep(sc, true, ids);
    SweepSplits(sc, ids);
    if id in p.survivors { return [id]; }
    var i :| 0 <= i < |p.pairs| && Losers(p.pairs)[i] == id;
    path := FromLoser(sc, ids, i);
  }

  // ---- the store over any number of runs ----------------------------------------------

  /** Some link of the history is the one the record carries, and whoever ever lost is archived. */
  ghost predicate Recorded(history: seq<Pair>, r: Record) {
    && (r.duplicateOf.Some? ==> Link(history, r.id, r.duplicateOf.value))
    && (forall pair <- history :: pair.loser == r.id ==> r.archived)
  }

  predicate DistinctIds(records: seq<Record>) {
    forall i, j :: 0 <= i < j < |records| ==> records[i].id != records[j].id
  }

  ghost predicate Forest(store: seq<Record>, history: seq<Pair>) {
    && DistinctIds(store) && Forward(history) && forall r <- store :: Recorded(history, r)
  }

  /** Records go from one record to the one it duplicates. */
  ghost predicate StorePath(store: seq<Record>, path: seq<Record>) {
    && (forall r <- path :: r in store)
    && forall k :: 0 < k < |path| ==> path[k - 1].duplicateOf == Some(path[k].id)
  }

  /** In the store, following `duplicateOf` never comes back. */
  lemma StoreHasNoCycle(store: seq<Record>, history: seq<Pair>, path: seq<Record>)
    requires Forest(store, history) && StorePath(store, path) && |path| >= 2
    ensures path[0].id != path[|path| - 1].id
  {
    var ids := Ids(path);
    forall k | 0 < k < |path| ensures Link(history, ids[k - 1], ids[k]) {
      assert path[k - 1] in path && Recorded(history, path[k - 1]);
    }
    PathsDoNotReturn(history, ids);
  }

  lemma NotAmong(records: seq<Record>, r: Record)
    requires records != [] && DistinctIds(records) && r == records[|records| - 1]
    ensures forall x <- records[..|records| - 1] :: x.id != r.id
  {
    forall x | x in records[..|records| - 1] ensures x.id != r.id {
      var j :| 0 <= j < |records| - 1 && records[j] == x;
    }
  }

  lemma {:induction false} ActiveAreActive(store: seq<Record>)
    requires DistinctIds(store)
    ensures DistinctIds(Active(store)) && forall r :: r in Active(store) <==> r in store && !r.archived
  {
    if store != [] {
      assert store == store[..|store| - 1] + [store[|store| - 1]];
      NotAmong(store, store[|store| - 1]);
      ActiveAreActive(store[..|store| - 1]);
    }
  }

  lemma {:induction false} InsertKeepsIds(x: Record, s: seq<Record>)
    requires DistinctIds(s) && forall y <- s :: y.id != x.id
    ensures DistinctIds(Insert(x, s, NewerFirst)) && forall y <- Insert(x, s, NewerFirst) :: y == x || y in s
  {
    if s != [] && !NewerFirst(x, s[0]) {
      InsertKeepsIds(x, s[1..]);
      forall y | y in s[1..] ensures y.id != s[0].id {
        var j :| 0 < j < |s| && s[j] == y;
      }
    }
  }

  lemma {:induction false} SortKeepsIds(s: seq<Record>)
    requires DistinctIds(s)
    ensures DistinctIds(Sort(s, NewerFirst)) && forall y <- Sort(s, NewerFirst) :: y in s
  {
    if s != [] {
      SortKeepsIds(s[1..]);
      forall y | y in Sort(s[1..], NewerFirst) ensures y.id != s[0].id {
        var j :| 0 < j < |s| && s[j] == y;
      }
      InsertKeepsIds(s[0], Sort(s[1..], NewerFirst));
    }
  }

  /** The records swept are distinct and none of them is archived. */
  lemma CandidatesAreActive(store: seq<Record>, limit: nat)
    requires DistinctIds(store)
    ensures DistinctIds(Candidates(store, limit)) && Distinct(Ids(Candidates(store, limit)))
    ensures forall r <- Candidates(store, limit) :: r in store && !r.archived
  {
    ActiveAreActive(store);
    SortKeepsIds(Active(store));
  }

  /** The records not archived. */
  ghost function Unarchived(store: seq<Record>): set<Record> {
    set r | r in store && !r.archived
  }

  lemma {:induction false} DistinctRecordsCount(records: seq<Record>)
    requires DistinctIds(records)
    ensures |records| == |set r | r in records|
  {
    if records != [] {
      var rest, last := records[..|records| - 1], records[|records| - 1];
      DistinctRecordsCount(rest);
      NotAmong(records, last);
      assert records == rest + [last];
      assert (set r | r in records) == (set r | r in rest) + {last};
    }
  }

  lemma ActiveCount(store: seq<Record>)
    requires DistinctIds(store)
    ensures |Active(store)| == |Unarchived(store)|
  {
    ActiveAreActive(store);
    DistinctRecordsCount(Active(store));
    assert (set r | r in Active(store)) == Unarchived(store);
  }

  /** Swept are the newest of the records not archived, newest first, as many as the limit lets in: whatever is left out is no
      newer than anything swept. */
  lemma CandidatesAreTheNewest(store: seq<Record>, limit: nat)
    requires DistinctIds(store)
    ensures var candidates := Candidates(store, limit);
      && |candidates| == (if |Unarchived(store)| > limit then limit else |Unarchived(store)|)
      && DistinctIds(candidates) && (forall c <- candidates :: c in store && !c.archived)
      && (forall i, j :: 0 <= i < j < |candidates| ==> candidates[i].createdAt >= candidates[j].createdAt)
      && forall r <- store :: r.archived || r in candidates || (|candidates| == limit && forall c <- candidates :: c.createdAt >= r.createdAt)
  {
    var active, candidates := Active(store), Candidates(store, limit);
    var sorted := Sort(active, NewerFirst);
    CandidatesAreActive(store, limit);
    ActiveAreActive(store);
    ActiveCount(store);
    SortSorts(active, NewerFirst);
    assert |multiset(sorted)| == |multiset(active)|;
    assert sorted[..|candidates|] == candidates;
    forall r | r in store && !r.archived && r !in candidates
      ensures |candidates| == limit && forall c <- candidates :: c.createdAt >= r.createdAt
    {
      assert r in multiset(active);
      assert r in multiset(sorted);
      forall c | c in candidates ensures c.createdAt >= r.createdAt { PrefixIsNewer(sorted, |candidates|, c, r); }
    }
  }

  lemma PrefixIsNewer(sorted: seq<Record>, n: nat, c: Record, r: Record)
    requires n <= |sorted| && Sorted(sorted, NewerFirst) && c in sorted[..n] && r in sorted && r !in sorted[..n]
    ensures c.createdAt >= r.createdAt
  {
    assert sorted == sorted[..n] + sorted[n..];
    var i :| 0 <= i < n && sorted[i] == c;
    var j :| n <= j < |sorted| && sorted[j] == r;
    assert NewerFirst(sorted[i], sorted[j]);
  }

  /** Each loser is archived with a link to a winner of its; every other record stays as it was. */
  lemma {:induction false} MarkAllAt(store: seq<Record>, pairs: seq<Pair>, i: nat)
    requires i < |store|
    ensures var r, marked := store[i], MarkAll(store, pairs)[i];
      if r.id in Losers(pairs)
        then marked.duplicateOf.Some? && Link(pairs, r.id, marked.duplicateOf.value)
             && marked == r.(archived := true, duplicateOf := marked.duplicateOf)
        else marked == r
  {
    if pairs != [] {
      var n := |pairs| - 1;
      MarkAllAt(store, pairs[..n], i);
      var r := store[i];
      assert Losers(pairs)[..n] == Losers(pairs[..n]);
      assert pairs[n].loser == Losers(pairs)[n];
      var before := MarkAll(store, pairs[..n])[i];
      if r.id == pairs[n].loser {
        assert r.id in Losers(pairs);
      } else if r.id in Losers(pairs[..n]) {
        LinkStays(pairs, n, r.id, before.duplicateOf.value);
      }
    }
  }

  lemma LinkStays(pairs: seq<Pair>, n: nat, loser: string, winner: string)
    requires n <= |pairs| && Link(pairs[..n], loser, winner)
    ensures Link(pairs, loser, winner)
  {
    var i :| 0 <= i < n && pairs[..n][i].loser == loser && pairs[..n][i].winner == winner;
    assert pairs[i].loser == loser;
  }

  lemma LinkInBoth(history: seq<Pair>, pairs: seq<Pair>, loser: string, winner: string)
    requires Link(history, loser, winner) || Link(pairs, loser, winner)
    ensures Link(history + pairs, loser, winner)
  {
    var all := history + pairs;
    if Link(history, loser, winner) {
      var i :| 0 <= i < |history| && history[i].loser == loser && history[i].winner == winner;
      assert all[i] == history[i];
    } else {
      var i :| 0 <= i < |pairs| && pairs[i].loser == loser && pairs[i].winner == winner;
      assert all[|history| + i] == pairs[i];
    }
  }

  lemma {:induction false} KeptOf(store: seq<Record>, retention: int)
    requires DistinctIds(store)
    ensures DistinctIds(Kept(store, retention)) && forall r :: r in Kept(store, retention) <==> r in store && !(r.archived && r.age >= retention)
  {
    if store != [] {
      NotAmong(store, store[|store| - 1]);
      KeptOf(store[..|store| - 1], retention);
      assert store == store[..|store| - 1] + [store[|store| - 1]];
    }
  }

  /** The pairs of a sweep follow on from all that came before. */
  lemma HistoryGoesForward(store: seq<Record>, history: seq<Pair>, limit: nat, sc: Scoring)
    requires Forest(store, history)
    ensures Forward(history + Sweep(sc, true, Ids(Candidates(store, limit))).pairs)
  {
    var candidates := Candidates(store, limit);
    var ids := Ids(candidates);
    CandidatesAreActive(store, limit);
    var p := Sweep(sc, true, ids);
    SweepGoesForward(sc, ids);
    forall pair, past | pair in p.pairs && past in history ensures pair.winner != past.loser {
      var i :| 0 <= i < |ids| && ids[i] == pair.winner;
      assert candidates[i] in candidates;
      assert Recorded(history, candidates[i]);
    }
    Appended(history, p.pairs);
  }

  lemma Appended(history: seq<Pair>, pairs: seq<Pair>)
    requires Forward(history) && Forward(pairs)
    requires forall pair <- pairs, past <- history :: pair.winner != past.loser
    ensures Forward(history + pairs)
  {
    var all := history + pairs;
    forall i, j | |history| <= i < |all| && 0 <= j < |history| ensures all[i].winner != all[j].loser {
      assert all[i] in pairs && all[j] in history;
    }
    forall i, j | |history| <= i < |all| && |history| <= j < |all| && all[i].winner == all[j].loser ensures i < j {
      assert all[i] == pairs[i - |history|] && all[j] == pairs[j - |history|];
    }
  }

  lemma MarkedIsRecorded(store: seq<Record>, history: seq<Pair>, pairs: seq<Pair>, i: nat)
    requires i < |store| && Recorded(history, store[i])
    ensures Recorded(history + pairs, MarkAll(store, pairs)[i])
  {
    MarkAllAt(store, pairs, i);
    var marked := MarkAll(store, pairs)[i];
    if marked.duplicateOf.Some? { LinkInBoth(history, pairs, marked.id, marked.duplicateOf.value); }
    forall pair | pair in history + pairs && pair.loser == marked.id ensures marked.archived {
      if pair in pairs {
        var j :| 0 <= j < |pairs| && pairs[j] == pair;
        assert Losers(pairs)[j] == marked.id;
      }
    }
  }

  lemma MarkedIsForest(store: seq<Record>, history: seq<Pair>, pairs: seq<Pair>)
    requires Forest(store, history) && Forward(history + pairs)
    ensures Forest(MarkAll(store, pairs), history + pairs)
  {
    var marked := MarkAll(store, pairs);
    forall i | 0 <= i < |store| ensures marked[i].id == store[i].id && Recorded(history + pairs, marked[i]) {
      MarkAllAt(store, pairs, i);
      assert store[i] in store;
      MarkedIsRecorded(store, history, pairs, i);
    }
  }

  /** What a run adds to the history of links. */
  function LinksAdded(store: seq<Record>, settings: Settings, sc: Scoring, apply: bool): seq<Pair> {
    if apply then Sweep(sc, true, Ids(Candidates(store, settings.limit))).pairs else []
  }

  /** Any run, applied or not, pruning or not, keeps the store's links a forest. */
  lemma ConsolidatedKeepsForest(store: seq<Record>, history: seq<Pair>, settings: Settings, sc: Scoring, apply: bool, prune: bool)
    requires Forest(store, history)
    ensures Forest(Consolidated(store, settings, sc, apply, prune).store, history + LinksAdded(store, settings, sc, apply))
  {
    if apply {
      var pairs := LinksAdded(store, settings, sc, true);
      HistoryGoesForward(store, history, settings.limit, sc);
      MarkedIsForest(store, history, pairs);
      KeptOf(MarkAll(store, pairs), settings.retention);
    } else {
      assert history + [] == history;
    }
  }

  /** One applied run: the records swept that lost are archived, the ones that survived are active and unchanged,
      and so is everything that was not swept. */
  lemma AppliedRunArchivesTheLosers(store: seq<Record>, settings: Settings, sc: Scoring, i: nat)
    requires DistinctIds(store) && i < |store|
    ensures
      var ids := Ids(Candidates(store, settings.limit));
      var p, after := Sweep(sc, true, ids), Consolidated(store, settings, sc, true, false).store;
      && |after| == |store|
      && (store[i].id in p.survivors ==> !store[i].archived)
      && if store[i].id in Losers(p.pairs)
         then !store[i].archived && after[i].archived && after[i].duplicateOf.Some? && Link(p.pairs, store[i].id, after[i].duplicateOf.value)
         else after[i] == store[i]
  {
    var candidates := Candidates(store, settings.limit);
    var ids := Ids(candidates);
    CandidatesAreActive(store, settings.limit);
    SweepSplits(sc, ids);
    MarkAllAt(store, Sweep(sc, true, ids).pairs, i);
    if store[i].id in ids {
      var k :| 0 <= k < |ids| && ids[k] == store[i].id;
      assert candidates[k] in candidates;
      var j :| 0 <= j < |store| && store[j] == candidates[k];
    }
  }

  // ---- any number of runs -------------------------------------------------------------

  /** A consolidation, or everything else that happened to the store until the next one. */
  datatype Event = Consolidate(sc: Scoring, apply: bool, prune: bool) | Meanwhile(store: seq<Record>)

  /** The record was there before, with the same link, and was not taken out of the archive. */
  ghost predicate WasThere(before: seq<Record>, r: Record) {
    exists q <- before :: q.id == r.id && q.duplicateOf == r.duplicateOf && (q.archived ==> r.archived)
  }

  /** The record is new: it duplicates nothing, and its id has never lost. */
  predicate IsNew(history: seq<Pair>, r: Record) {
    r.duplicateOf == None && r.id !in Losers(history)
  }

  /** Records were written, changed, archived and forgotten. */
  ghost predicate Continues(before: seq<Record>, after: seq<Record>, history: seq<Pair>) {
    DistinctIds(after) && forall r <- after :: WasThere(before, r) || IsNew(history, r)
  }

  function AfterEvents(store: seq<Record>, settings: Settings, events: seq<Event>): seq<Record> {
    if events == [] then store
    else
      match events[|events| - 1]
      case Consolidate(sc, apply, prune) =>
        Consolidated(AfterEvents(store, settings, events[..|events| - 1]), settings, sc, apply, prune).store
      case Meanwhile(after) => after
  }

  /** All links made so far. */
  function HistoryAfter(store: seq<Record>, settings: Settings, history: seq<Pair>, events: seq<Event>): seq<Pair> {
    if events == [] then history
    else
      var past := HistoryAfter(store, settings, history, events[..|events| - 1]);
      match events[|events| - 1]
      case Consolidate(sc, apply, _) => past + LinksAdded(AfterEvents(store, settings, events[..|events| - 1]), settings, sc, apply)
      case Meanwhile(_) => past
  }

  /** Between two consolidations the store only continues. */
  ghost predicate Lawful(store: seq<Record>, settings: Settings, history: seq<Pair>, events: seq<Event>) {
    events != [] ==>
      var earlier, last := events[..|events| - 1], events[|events| - 1];
      && Lawful(store, settings, history, earlier)
      && (last.Meanwhile? ==> Continues(AfterEvents(store, settings, earlier), last.store, HistoryAfter(store, settings, history, earlier)))
  }

  lemma ContinuingKeepsForest(before: seq<Record>, after: seq<Record>, history: seq<Pair>)
    requires Forest(before, history) && Continues(before, after, history)
    ensures Forest(after, history)
  {
    forall r | r in after ensures Recorded(history, r) {
      if WasThere(before, r) {
        var q :| q in before && q.id == r.id && q.duplicateOf == r.duplicateOf && (q.archived ==> r.archived);
        assert Recorded(history, q);
      } else {
        forall pair | pair in history ensures pair.loser != r.id {
          var i :| 0 <= i < |history| && history[i] == pair;
          assert Losers(history)[i] == pair.loser;
        }
      }
    }
  }

  /** However often, and however scored, consolidation leaves no cycle of duplicates, whatever is written, changed,
      archived and forgotten in between. */
  lemma {:induction false} RunsLeaveAForest(store: seq<Record>, settings: Settings, history: seq<Pair>, events: seq<Event>)
    requires Forest(store, history) && Lawful(store, settings, history, events)
    ensures Forest(AfterEvents(store, settings, events), HistoryAfter(store, settings, history, events))
  {
    if events != [] {
      var n := |events| - 1;
      RunsLeaveAForest(store, settings, history, events[..n]);
      var before, past := AfterEvents(store, settings, events[..n]), HistoryAfter(store, settings, history, events[..n]);
      match events[n]
      case Consolidate(sc, apply, prune) => ConsolidatedKeepsForest(before, past, settings, sc, apply, prune);
      case Meanwhile(after) => ContinuingKeepsForest(before, after, past);
    }
  }
}
