/** What a consolidation reports and what it leaves, said of the store before it. */
module ConsolidationReport {
  import opened Wrappers
  import opened Ordering
  import opened Consolidation
  import opened ConsolidationForest
  import opened ConsolidationLimits

  // ---- pairs --------------------------------------------------------------------

  /** As long as nothing was paired, everything swept survives and is pairwise unlike. */
  lemma {:induction false} NoPairsMeansApart(sc: Scoring, apply: bool, ids: seq<string>)
    requires Symmetric(sc) && Sweep(sc, apply, ids).pairs == []
    ensures Sweep(sc, apply, ids).survivors == ids && Apart(sc, ids)
  {
    if ids != [] {
      var before, id := ids[..|ids| - 1], ids[|ids| - 1];
      NoPairsMeansApart(sc, apply, before);
      NoTwinNoneAlike(sc, before, id);
      AppendApart(sc, before, id);
      assert ids == before + [id];
    }
  }

  lemma {:induction false} ApartMeansNoPairs(sc: Scoring, apply: bool, ids: seq<string>)
    requires Symmetric(sc) && Apart(sc, ids)
    ensures Sweep(sc, apply, ids) == Progress(ids, [])
  {
    if ids != [] {
      var before, id := ids[..|ids| - 1], ids[|ids| - 1];
      ApartMeansNoPairs(sc, apply, before);
      forall i | 0 <= i < |before| ensures !Alike(sc, id, before[i]) {
        assert ids[i] == before[i] && sc.cosine(id, before[i]) == sc.cosine(before[i], id);
      }
      assert ids == before + [id];
    }
  }

  /** Nothing is reported exactly when no two records swept are alike. */
  lemma NothingToReportIff(store: seq<Record>, settings: Settings, sc: Scoring, apply: bool, prune: bool)
    requires Symmetric(sc)
    ensures Consolidated(store, settings, sc, apply, prune).report.duplicates == 0 <==> Apart(sc, Ids(Candidates(store, settings.limit)))
  {
    var ids := Ids(Candidates(store, settings.limit));
    if Apart(sc, ids) { ApartMeansNoPairs(sc, apply, ids); }
    if Sweep(sc, apply, ids).pairs == [] { NoPairsMeansApart(sc, apply, ids); }
  }

  /** With room for all, two records that are not archived and look alike never go unreported. */
  lemma LookAlikesAreReported(store: seq<Record>, settings: Settings, sc: Scoring, apply: bool, prune: bool, a: Record, b: Record)
    requires DistinctIds(store) && Symmetric(sc) && |Unarchived(store)| <= settings.limit
    requires a in store && b in store && a.id != b.id && !a.archived && !b.archived
    requires a.id in sc.vectors && b.id in sc.vectors && sc.cosine(a.id, b.id) >= sc.threshold
    ensures Consolidated(store, settings, sc, apply, prune).report.duplicates > 0
  {
    var candidates := Candidates(store, settings.limit);
    NothingToReportIff(store, settings, sc, apply, prune);
    EveryoneIsSwept(store, settings.limit, a);
    EveryoneIsSwept(store, settings.limit, b);
    var i :| 0 <= i < |candidates| && candidates[i] == a;
    var j :| 0 <= j < |candidates| && candidates[j] == b;
    assert Ids(candidates)[i] == a.id && Ids(candidates)[j] == b.id;
    assert sc.cosine(a.id, b.id) == sc.cosine(b.id, a.id);
  }

  lemma EveryoneIsSwept(store: seq<Record>, limit: nat, r: Record)
    requires DistinctIds(store) && |Unarchived(store)| <= limit && r in store && !r.archived
    ensures r in Candidates(store, limit)
  {
    ActiveAreActive(store);
    ActiveCount(store);
    NewerFirstIsTotal();
    SortSorts(Active(store), NewerFirst);
    assert |multiset(Sort(Active(store), NewerFirst))| == |multiset(Active(store))|;
    assert r in multiset(Active(store));
    assert r in multiset(Sort(Active(store), NewerFirst));
  }

  lemma NewerFirstIsTotal()
    ensures TotalPreorder(NewerFirst)
  {
  }

  // ---- the report -----------------------------------------------------------------

  /** The archived records past retention. */
  ghost function PastRetention(store: seq<Record>, retention: int): set<Record> {
    set r | r in store && r.archived && r.age >= retention
  }

  lemma {:induction false} KeptCount(store: seq<Record>, retention: int)
    requires DistinctIds(store)
    ensures |store| - |Kept(store, retention)| == |PastRetention(store, retention)|
  {
    if store != [] {
      var rest, last := store[..|store| - 1], store[|store| - 1];
      KeptCount(rest, retention);
      NotAmong(store, last);
      assert store == rest + [last];
      if last.archived && last.age >= retention {
        assert PastRetention(store, retention) == PastRetention(rest, retention) + {last};
      } else {
        assert PastRetention(store, retention) == PastRetention(rest, retention);
      }
    }
  }

  lemma MarkKeepsIds(store: seq<Record>, pairs: seq<Pair>)
    requires DistinctIds(store)
    ensures DistinctIds(MarkAll(store, pairs))
  {
    var marked := MarkAll(store, pairs);
    forall i | 0 <= i < |store| ensures marked[i].id == store[i].id { MarkAllAt(store, pairs, i); }
  }

  /** A run that is not applied leaves the store; an applied one leaves what the same run leaves without pruning, less the
      archived records past retention when it prunes. */
  lemma WhatIsLeft(store: seq<Record>, settings: Settings, sc: Scoring, prune: bool)
    requires DistinctIds(store)
    ensures Consolidated(store, settings, sc, false, prune).store == store
    ensures
      var all, left := Consolidated(store, settings, sc, true, false).store, Consolidated(store, settings, sc, true, prune).store;
      forall r :: r in left <==> r in all && !(prune && r.archived && r.age >= settings.retention)
  {
    var pairs := Sweep(sc, true, Ids(Candidates(store, settings.limit))).pairs;
    MarkKeepsIds(store, pairs);
    KeptOf(MarkAll(store, pairs), settings.retention);
  }

  /** The report counts the records swept and those of them that did not survive; the archived records past retention, when
      asked to prune; what was archived and pruned, when applied; and shows the first twenty pairs. */
  lemma ReportCounts(store: seq<Record>, settings: Settings, sc: Scoring, apply: bool, prune: bool)
    requires DistinctIds(store)
    ensures
      var report := Consolidated(store, settings, sc, apply, prune).report;
      var unpruned := Consolidated(store, settings, sc, apply, false).store;
      var p := Sweep(sc, apply, Ids(Candidates(store, settings.limit)));
      && report.scanned == (if |Unarchived(store)| > settings.limit then settings.limit else |Unarchived(store)|)
      && report.duplicates == report.scanned - |p.survivors|
      && report.prunable == (if prune then |PastRetention(unpruned, settings.retention)| else 0)
      && report.archived == (if apply then report.duplicates else 0)
      && report.pruned == (if apply then report.prunable else 0)
      && report.applied == apply
      && report.pairs <= p.pairs && (|report.pairs| == |p.pairs| || |report.pairs| == 20) && |report.pairs| <= 20
  {
    var ids := Ids(Candidates(store, settings.limit));
    CandidatesAreTheNewest(store, settings.limit);
    PairsCountTheRest(sc, apply, ids);
    MarkKeepsIds(store, Sweep(sc, apply, ids).pairs);
    KeptCount(Consolidated(store, settings, sc, apply, false).store, settings.retention);
  }
}
