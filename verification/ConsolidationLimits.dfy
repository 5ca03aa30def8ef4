/** When survivors are pairwise unlike, and when a dry run foretells the applied one. */
module ConsolidationLimits {
  import opened Wrappers
  import opened Consolidation
  import opened ConsolidationForest

  /** No two of them are alike. */
  ghost predicate Apart(sc: Scoring, survivors: seq<string>) {
    forall i, j :: 0 <= i < j < |survivors| ==>
      survivors[i] !in sc.vectors || survivors[j] !in sc.vectors || sc.cosine(survivors[i], survivors[j]) < sc.threshold
  }

  lemma AppendApart(sc: Scoring, survivors: seq<string>, id: string)
    requires Symmetric(sc) && Apart(sc, survivors) && forall s <- survivors :: !Alike(sc, id, s)
    ensures Apart(sc, survivors + [id])
  {
    forall i | 0 <= i < |survivors| ensures !Alike(sc, survivors[i], id) {
      assert survivors[i] in survivors && sc.cosine(survivors[i], id) == sc.cosine(id, survivors[i]);
    }
  }

  lemma NoTwinNoneAlike(sc: Scoring, survivors: seq<string>, id: string)
    requires TwinAt(sc, survivors, id) == |survivors|
    ensures forall s <- survivors :: !Alike(sc, id, s)
  {
  }

  /** A dry run's survivors are always pairwise unlike: it never replaces one. */
  lemma {:induction false} DryRunSurvivorsAreApart(sc: Scoring, ids: seq<string>)
    requires Symmetric(sc)
    ensures Apart(sc, Sweep(sc, false, ids).survivors)
  {
    if ids != [] {
      DryRunSurvivorsAreApart(sc, ids[..|ids| - 1]);
      var survivors, id := Sweep(sc, false, ids[..|ids| - 1]).survivors, ids[|ids| - 1];
      if TwinAt(sc, survivors, id) == |survivors| {
        NoTwinNoneAlike(sc, survivors, id);
        AppendApart(sc, survivors, id);
      }
    }
  }

  // ---- dry run and applied run ------------------------------------------------------

  /** Every loser the dry run reports is the record that came later. */
  ghost predicate NoUpset(dry: Progress) {
    forall pair <- dry.pairs :: pair.loser !in dry.survivors
  }

  lemma {:induction false} DrySurvivorsAreSwept(sc: Scoring, ids: seq<string>)
    ensures forall id <- Sweep(sc, false, ids).survivors :: id in ids
  {
    if ids != [] { DrySurvivorsAreSwept(sc, ids[..|ids| - 1]); }
  }

  lemma StepAlike(sc: Scoring, p: Progress, id: string)
    requires id !in p.survivors
    ensures Step(sc, true, p, id) == Step(sc, false, p, id) <==> NoneOvertaken(sc, p.survivors, id)
    ensures var q := Step(sc, false, p, id);
      NoneOvertaken(sc, p.survivors, id) <==> |q.pairs| == |p.pairs| || q.pairs[|p.pairs|].loser !in q.survivors
  {
    var at := TwinAt(sc, p.survivors, id);
    if at < |p.survivors| {
      assert p.survivors[at] in p.survivors;
      var swapped := Without(p.survivors, at) + [id];
      assert swapped[|swapped| - 1] == id;
    }
  }

  /** The survivor like the record, if any, is at least as salient. */
  ghost predicate NoneOvertaken(sc: Scoring, survivors: seq<string>, id: string) {
    var at := TwinAt(sc, survivors, id);
    at < |survivors| ==> sc.salience(survivors[at]) >= sc.salience(id)
  }

  lemma UpsetsAddUp(sc: Scoring, ids: seq<string>, p: Progress, id: string)
    requires id !in ids && forall s <- p.survivors :: s in ids
    requires forall pair <- p.pairs :: pair.loser in ids
    ensures NoUpset(Step(sc, false, p, id)) <==> NoUpset(p) && NoneOvertaken(sc, p.survivors, id)
    ensures forall pair <- Step(sc, false, p, id).pairs :: pair.loser in ids + [id]
  {
    StepAlike(sc, p, id);
    var q := Step(sc, false, p, id);
    assert forall pair <- p.pairs :: pair in q.pairs;
    if |q.pairs| > |p.pairs| { assert q.pairs[|p.pairs|] in q.pairs; }
  }

  /** Someone the applied run lost is still standing in the dry run. */
  ghost predicate LostOne(applied: Progress, dry: Progress, ids: seq<string>) {
    exists id <- dry.survivors :: id in ids && id !in applied.survivors
  }

  lemma {:induction false} Parting(sc: Scoring, ids: seq<string>)
    requires Distinct(ids)
    ensures var applied, dry := Sweep(sc, true, ids), Sweep(sc, false, ids);
      && (if NoUpset(dry) then applied == dry else LostOne(applied, dry, ids))
      && forall pair <- dry.pairs :: pair.loser in ids
  {
    if ids != [] {
      var before, id := ids[..|ids| - 1], ids[|ids| - 1];
      Parting(sc, before);
      DrySurvivorsAreSwept(sc, before);
      SweepSplits(sc, before);
      var applied, dry := Sweep(sc, true, before), Sweep(sc, false, before);
      UpsetsAddUp(sc, before, dry, id);
      StepAlike(sc, dry, id);
      assert ids == before + [id];
      if !NoUpset(dry) {
        StaysLost(sc, applied, dry, before, id);
      } else if !NoneOvertaken(sc, dry.survivors, id) {
        NewlyLost(sc, dry, before, id);
      }
    }
  }

  lemma StaysLost(sc: Scoring, applied: Progress, dry: Progress, before: seq<string>, id: string)
    requires LostOne(applied, dry, before) && id !in before
    ensures LostOne(Step(sc, true, applied, id), Step(sc, false, dry, id), before + [id])
  {
    var lost :| lost in dry.survivors && lost in before && lost !in applied.survivors;
    assert lost in Step(sc, false, dry, id).survivors;
  }

  lemma NewlyLost(sc: Scoring, p: Progress, before: seq<string>, id: string)
    requires Distinct(p.survivors) && (forall s <- p.survivors :: s in before) && id !in before
    requires !NoneOvertaken(sc, p.survivors, id)
    ensures LostOne(Step(sc, true, p, id), Step(sc, false, p, id), before + [id])
  {
    var at := TwinAt(sc, p.survivors, id);
    WithoutOne(p.survivors, at);
    assert p.survivors[at] in p.survivors && p.survivors[at] != id;
  }

  /** The applied run ends as the dry run foretold exactly when no loser the dry run reports is among its survivors. */
  lemma AppliedAsForetoldIff(sc: Scoring, ids: seq<string>)
    requires Distinct(ids)
    ensures Sweep(sc, true, ids) == Sweep(sc, false, ids) <==> NoUpset(Sweep(sc, false, ids))
  {
    Parting(sc, ids);
  }

  ghost predicate NeverRises(sc: Scoring, ids: seq<string>) {
    forall i, j :: 0 <= i < j < |ids| ==> sc.salience(ids[i]) >= sc.salience(ids[j])
  }

  lemma {:induction false} NothingOvertaken(sc: Scoring, ids: seq<string>)
    requires Distinct(ids) && NeverRises(sc, ids)
    ensures NoUpset(Sweep(sc, false, ids))
  {
    if ids != [] {
      var before, id := ids[..|ids| - 1], ids[|ids| - 1];
      NothingOvertaken(sc, before);
      Parting(sc, before);
      DrySurvivorsAreSwept(sc, before);
      var dry := Sweep(sc, false, before);
      forall s | s in dry.survivors ensures sc.salience(s) >= sc.salience(id) {
        var i :| 0 <= i < |before| && before[i] == s;
        assert ids[i] == s;
      }
      UpsetsAddUp(sc, before, dry, id);
    }
  }

  /** If salience never rises along the sweep, the applied run is the dry run and its survivors are pairwise unlike. */
  lemma NeverRisingIsForetold(sc: Scoring, ids: seq<string>)
    requires Symmetric(sc) && Distinct(ids) && NeverRises(sc, ids)
    ensures Sweep(sc, true, ids) == Sweep(sc, false, ids) && Apart(sc, Sweep(sc, true, ids).survivors)
  {
    NothingOvertaken(sc, ids);
    AppliedAsForetoldIff(sc, ids);
    DryRunSurvivorsAreApart(sc, ids);
  }

  // ---- for every salience -------------------------------------------------------------

  /** The survivors under a given salience. */
  function SurvivorsUnder(sc: Scoring, salience: string -> int, ids: seq<string>): seq<string> {
    Sweep(sc.(salience := salience), true, ids).survivors
  }

  /** Whenever two earlier records are both like a later one, they are like each other. */
  ghost predicate LookAlikesAgree(sc: Scoring, ids: seq<string>) {
    forall i, j, k :: 0 <= i < j < k < |ids| && Alike(sc, ids[k], ids[i]) && Alike(sc, ids[k], ids[j]) ==> Alike(sc, ids[i], ids[j])
  }

  ghost predicate AgreeOn(sc: Scoring, earlier: seq<string>, id: string) {
    forall s <- earlier, t <- earlier :: s != t && Alike(sc, id, s) && Alike(sc, id, t) ==> Alike(sc, s, t)
  }

  lemma AgreeingSwapStaysApart(sc: Scoring, survivors: seq<string>, at: nat, id: string)
    requires Symmetric(sc) && Apart(sc, survivors) && Distinct(survivors) && at < |survivors|
    requires Alike(sc, id, survivors[at]) && AgreeOn(sc, survivors, id)
    ensures Apart(sc, Without(survivors, at) + [id])
  {
    var left := Without(survivors, at);
    forall s | s in left ensures !Alike(sc, id, s) {
      WithoutOne(survivors, at);
      var i :| 0 <= i < |survivors| && survivors[i] == s;
      assert survivors[at] in survivors && s in survivors;
      assert sc.cosine(survivors[at], s) == sc.cosine(s, survivors[at]);
      if i < at { assert !Alike(sc, survivors[i], survivors[at]); } else { assert !Alike(sc, survivors[at], survivors[i]); }
    }
    AppendApart(sc, left, id);
  }

  lemma AgreeOnSurvivors(sc: Scoring, ids: seq<string>, earlier: seq<string>)
    requires Symmetric(sc) && ids != [] && LookAlikesAgree(sc, ids)
    requires forall s <- earlier :: s in ids[..|ids| - 1]
    ensures AgreeOn(sc, earlier, ids[|ids| - 1])
  {
    var n := |ids| - 1;
    forall s, t | s in earlier && t in earlier && s != t && Alike(sc, ids[n], s) && Alike(sc, ids[n], t) ensures Alike(sc, s, t) {
      var i :| 0 <= i < n && ids[..n][i] == s;
      var j :| 0 <= j < n && ids[..n][j] == t;
      assert ids[i] == s && ids[j] == t;
      assert sc.cosine(s, t) == sc.cosine(t, s);
      if i < j { assert Alike(sc, ids[i], ids[j]); } else { assert Alike(sc, ids[j], ids[i]); }
    }
  }

  lemma {:induction false} AgreementKeepsApart(sc: Scoring, ids: seq<string>)
    requires Symmetric(sc) && Distinct(ids) && LookAlikesAgree(sc, ids)
    ensures Apart(sc, Sweep(sc, true, ids).survivors)
  {
    if ids != [] {
      var before, id := ids[..|ids| - 1], ids[|ids| - 1];
      AgreementKeepsApart(sc, before);
      SweepSplits(sc, before);
      var survivors := Sweep(sc, true, before).survivors;
      var at := TwinAt(sc, survivors, id);
      if at == |survivors| {
        NoTwinNoneAlike(sc, survivors, id);
        AppendApart(sc, survivors, id);
      } else {
        AgreeOnSurvivors(sc, ids, survivors);
        AgreeingSwapStaysApart(sc, survivors, at, id);
      }
    }
  }

  /** A survivor is only ever replaced by a more salient record. */
  lemma SalientStays(sc: Scoring, p: Progress, id: string, s: string)
    requires s in p.survivors && sc.salience(s) >= sc.salience(id)
    ensures s in Step(sc, true, p, id).survivors
  {
    var at := TwinAt(sc, p.survivors, id);
    if at < |p.survivors| && Judged(sc, p.survivors[at], id).loser != id {
      StaysWithout(p.survivors, at, s);
    }
  }

  lemma StaysWithout(survivors: seq<string>, at: nat, s: string)
    requires at < |survivors| && s in survivors && s != survivors[at]
    ensures s in Without(survivors, at)
  {
    var i :| 0 <= i < |survivors| && survivors[i] == s;
    assert Without(survivors, at)[if i < at then i else i - 1] == s;
  }

  /** A newcomer more salient than every survivor like it gets in. */
  lemma SalientEnters(sc: Scoring, p: Progress, id: string)
    requires forall s <- p.survivors :: Alike(sc, id, s) ==> sc.salience(s) < sc.salience(id)
    ensures id in Step(sc, true, p, id).survivors
  {
    var at := TwinAt(sc, p.survivors, id);
    if at < |p.survivors| { assert p.survivors[at] in p.survivors; }
  }

  /** The salience that keeps `a` and `c` in until `b` replaces at most one of them. */
  ghost function Favouring(a: string, b: string, c: string): string -> int {
    (s: string) => if s == b then 2 else if s == a || s == c then 1 else 0
  }

  lemma {:induction false} BothStayIn(sc: Scoring, ids: seq<string>, a: string, b: string, c: string)
    requires Symmetric(sc) && Distinct(ids) && b !in ids && !Alike(sc, a, c) && sc.salience == Favouring(a, b, c)
    ensures var s := Sweep(sc, true, ids).survivors; (a in ids ==> a in s) && (c in ids ==> c in s)
  {
    if ids != [] {
      var before, id := ids[..|ids| - 1], ids[|ids| - 1];
      BothStayIn(sc, before, a, b, c);
      SweepSplits(sc, before);
      var p := Sweep(sc, true, before);
      assert ids == before + [id];
      if a in before { SalientStays(sc, p, id, a); }
      if c in before { SalientStays(sc, p, id, c); }
      if id == a || id == c {
        assert sc.cosine(a, c) == sc.cosine(c, a);
        SalientEnters(sc, p, id);
      }
    }
  }

  /** A survivor at least as salient as everything that follows stays one. */
  lemma {:induction false} SalientStaysUpTo(sc: Scoring, ids: seq<string>, n: nat, m: nat, x: string)
    requires n <= m <= |ids| && x in Sweep(sc, true, ids[..n]).survivors
    requires forall i :: n <= i < |ids| ==> sc.salience(ids[i]) <= sc.salience(x)
    ensures x in Sweep(sc, true, ids[..m]).survivors
    decreases m
  {
    if n < m {
      SalientStaysUpTo(sc, ids, n, m - 1, x);
      SalientStays(sc, Sweep(sc, true, ids[..m - 1]), ids[m - 1], x);
      SweepOneMore(sc, true, ids, m - 1);
    }
  }

  /** When `b` arrives it pushes out at most one of the two. */
  lemma OneOfTwoStays(sc: Scoring, p: Progress, a: string, b: string, c: string)
    requires sc.salience == Favouring(a, b, c) && a != c && a != b && c != b && b !in p.survivors
    requires a in p.survivors && c in p.survivors
    ensures var s := Step(sc, true, p, b).survivors; b in s && (a in s || c in s)
  {
    SalientEnters(sc, p, b);
    var at := TwinAt(sc, p.survivors, b);
    if at < |p.survivors| {
      var x := if p.survivors[at] == a then c else a;
      StaysWithout(p.survivors, at, x);
    }
  }

  lemma AfterArrival(sc: Scoring, ids: seq<string>, i: nat, j: nat, k: nat)
    requires Symmetric(sc) && Distinct(ids) && i < j < k < |ids| && !Alike(sc, ids[i], ids[j])
    requires sc.salience == Favouring(ids[i], ids[k], ids[j])
    ensures var s := Sweep(sc, true, ids[..k + 1]).survivors; ids[k] in s && (ids[i] in s || ids[j] in s)
  {
    var before := ids[..k];
    assert before[i] in before && before[j] in before;
    BothStayIn(sc, before, ids[i], ids[k], ids[j]);
    SweepSplits(sc, before);
    OneOfTwoStays(sc, Sweep(sc, true, before), ids[i], ids[k], ids[j]);
    SweepOneMore(sc, true, ids, k);
  }

  lemma LaterAreLessSalient(ids: seq<string>, i: nat, j: nat, k: nat, m: nat)
    requires Distinct(ids) && i < j < k < m < |ids|
    ensures Favouring(ids[i], ids[k], ids[j])(ids[m]) == 0
  {
  }

  lemma BothAtTheEnd(sc: Scoring, ids: seq<string>, i: nat, j: nat, k: nat) returns (x: string)
    requires Symmetric(sc) && Distinct(ids) && i < j < k < |ids| && !Alike(sc, ids[i], ids[j])
    requires sc.salience == Favouring(ids[i], ids[k], ids[j])
    ensures (x == ids[i] || x == ids[j]) && ids[k] in Sweep(sc, true, ids).survivors && x in Sweep(sc, true, ids).survivors
  {
    AfterArrival(sc, ids, i, j, k);
    x := if ids[i] in Sweep(sc, true, ids[..k + 1]).survivors then ids[i] else ids[j];
    forall m | k + 1 <= m < |ids| ensures sc.salience(ids[m]) <= sc.salience(x) && sc.salience(ids[m]) <= sc.salience(ids[k]) {
      LaterAreLessSalient(ids, i, j, k, m);
    }
    SalientStaysUpTo(sc, ids, k + 1, |ids|, ids[k]);
    SalientStaysUpTo(sc, ids, k + 1, |ids|, x);
    assert ids[..|ids|] == ids;
  }

  /** If `b` comes after two records that are both like it and not like each other, some salience leaves look-alikes. */
  lemma DisagreementBreaksApart(sc: Scoring, ids: seq<string>, i: nat, j: nat, k: nat)
    requires Symmetric(sc) && Distinct(ids) && i < j < k < |ids|
    requires Alike(sc, ids[k], ids[i]) && Alike(sc, ids[k], ids[j]) && !Alike(sc, ids[i], ids[j])
    ensures !Apart(sc, SurvivorsUnder(sc, Favouring(ids[i], ids[k], ids[j]), ids))
  {
    var fav := sc.(salience := Favouring(ids[i], ids[k], ids[j]));
    var x := BothAtTheEnd(fav, ids, i, j, k);
    AlikeAmong(sc, Sweep(fav, true, ids).survivors, ids[k], x);
  }

  lemma AlikeAmong(sc: Scoring, survivors: seq<string>, b: string, x: string)
    requires Symmetric(sc) && b in survivors && x in survivors && b != x && Alike(sc, b, x)
    ensures !Apart(sc, survivors)
  {
    var i :| 0 <= i < |survivors| && survivors[i] == b;
    var j :| 0 <= j < |survivors| && survivors[j] == x;
    assert sc.cosine(b, x) == sc.cosine(x, b);
    assert if i < j then Alike(sc, survivors[i], survivors[j]) else Alike(sc, survivors[j], survivors[i]);
  }

  /** For a given order of records: whatever the saliences, survivors end up pairwise unlike exactly when the earlier
      look-alikes of every record are alike themselves. */
  lemma ApartForEverySalienceIff(sc: Scoring, ids: seq<string>)
    requires Symmetric(sc) && Distinct(ids)
    ensures (forall salience: string -> int :: Apart(sc, SurvivorsUnder(sc, salience, ids))) <==> LookAlikesAgree(sc, ids)
  {
    if LookAlikesAgree(sc, ids) {
      forall salience: string -> int ensures Apart(sc, SurvivorsUnder(sc, salience, ids)) {
        AgreementKeepsApart(sc.(salience := salience), ids);
      }
    } else {
      var i, j, k :| 0 <= i < j < k < |ids| && Alike(sc, ids[k], ids[i]) && Alike(sc, ids[k], ids[j]) && !Alike(sc, ids[i], ids[j]);
      DisagreementBreaksApart(sc, ids, i, j, k);
    }
  }

  /** Three records, the last and most salient one like both others: it replaces the first and stays beside the second. */
  lemma SwapLeavesLookAlikes()
    ensures
      var sc := Scoring({"a", "b", "c"}, (x, y) => if x == y || x == "b" || y == "b" then 1 else 0, 1, Favouring("a", "b", "c"));
      && Sweep(sc, true, ["a", "c", "b"]).survivors == ["c", "b"] && Alike(sc, "c", "b")
      && Sweep(sc, false, ["a", "c", "b"]).survivors == ["a", "c"]
  {
    var sc := Scoring({"a", "b", "c"}, (x, y) => if x == y || x == "b" || y == "b" then 1 else 0, 1, Favouring("a", "b", "c"));
    var ids := ["a", "c", "b"];
    assert ids[..2][..1] == ["a"] && ids[..2] == ["a", "c"];
    assert "a" != "b" && "a" != "c" && "b" != "c";
    forall apply ensures Sweep(sc, apply, ["a", "c"]).survivors == ["a", "c"] {
      assert Sweep(sc, apply, ["a"]).survivors == ["a"];
      assert ["a", "c"][..1] == ["a"];
    }
  }
}
