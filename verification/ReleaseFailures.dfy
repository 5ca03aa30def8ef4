/** Why a deploy is refused, and what a deploy or a rollback that stops half-way leaves behind. */
module ReleaseFailures {
  import opened Wrappers
  import opened Versions
  import opened Releases
  import opened ReleaseRuns
  import opened ReleaseDeploy
  import opened ReleaseOutcomes

  // ---- reasons --------------------------------------------------------------------

  /** The release with the evidence there is now. */
  function Today(sys: System, id: nat, facts: Facts): Release
    requires id < |sys.releases|
  {
    sys.releases[id].(evidence := Evidence(sys.releases[id].items, facts))
  }

  ghost predicate SameAsVoted(sys: System, id: nat, facts: Facts, c: Crypto) {
    id < |sys.releases| && sys.releases[id].approvedManifest in {None, Some(""), Some(c.hash(ManifestOf(id, Today(sys, id, facts))))}
  }

  ghost predicate SignedWhereAsked(sys: System, id: nat, facts: Facts, u: Setup) {
    id < |sys.releases| && (sys.releases[id].target in u.cfg.signed ==> SignatureValid(id, Today(sys, id, facts), sys.key, u.crypto))
  }

  ghost function DeployReasons(sys: System, id: nat, facts: Facts, u: Setup): seq<Reason> {
    [Reason(!SameAsVoted(sys, id, facts, u.crypto), ChangedSinceApproval), Reason(!SignedWhereAsked(sys, id, facts, u), InvalidSignature),
     Reason(!AllRevised(sys, id), SnapshotMissing)]
  }

  lemma ProblemsIff(sys: System, id: nat, facts: Facts)
    requires id < |sys.releases|
    ensures Checked(sys.releases[id], sys.releases, facts).problems == [] <==> AllReady(sys, id, facts)
  {
    GatesAreClearIff(sys.releases[id].items, sys.releases[id].target, sys.releases, facts);
  }

  /** Why a deploy is refused: first for its status and its gates, then because something changed since the vote, the signature
      does not hold, or a snapshot is missing. */
  lemma DeployIsRefusedFor(sys: System, id: nat, facts: Facts, u: Setup)
    requires SystemOk(sys, u)
    ensures Try(sys, Op.Deploy(id, facts), u).1 ==
      if id >= |sys.releases| then Err(UnknownRelease)
      else if sys.releases[id].status != Status.Approved then Err(WrongStatus)
      else if !AllReady(sys, id, facts) then Err(GatesFailed)
      else FirstReason(DeployReasons(sys, id, facts, u))
  {
    if id < |sys.releases| {
      assert sys.releases[id] in sys.releases;
      ProblemsIff(sys, id, facts);
      PromotionIsRefusedFor(sys, id, facts, u);
    }
  }

  lemma PromotionIsRefusedFor(sys: System, id: nat, facts: Facts, u: Setup)
    requires SystemOk(sys, u) && id < |sys.releases|
    ensures
      var checked := Releases.Check(sys, id, facts).0;
      && id < |checked.releases|
      && (checked.releases[id].status == Status.Approved && checked.releases[id].problems == [] ==>
            Promote(checked, id, u.cfg, u.crypto, u.rd).1 == FirstReason(DeployReasons(sys, id, facts, u)))
  {
    var r := Checked(sys.releases[id], sys.releases, facts);
    assert sys.releases[id] in sys.releases;
    assert ManifestOf(id, r) == ManifestOf(id, Today(sys, id, facts));
    SnapshotsExistIff(sys.store, r.items, r.target, u.rd);
    FirstOfList(DeployReasons(sys, id, facts, u));
  }

  // ---- half-way -------------------------------------------------------------------

  /** The first item without a revision. */
  ghost predicate StopsAt(items: seq<Item>, k: nat) {
    k < |items| && items[k].revision == 0 && forall i :: 0 <= i < k ==> items[i].revision > 0
  }

  lemma {:induction false} DeployStops(s: Store, items: seq<Item>, target: Environment, rd: Reader) returns (k: nat)
    requires WellFormed(s, rd) && ItemsMatch(items, s) && !DeployItems(s, items, target, rd).1
    ensures StopsAt(items, k) && DeployItems(s, items[..k], target, rd) == (DeployItems(s, items, target, rd).0, true)
  {
    var rest, last := items[..|items| - 1], items[|items| - 1];
    assert items == rest + [last] && last in items;
    if DeployItems(s, rest, target, rd).1 {
      k := |rest|;
      SnapshotsExistIff(s, rest, target, rd);
      SnapshotsExistIff(s, items, target, rd);
      forall i | 0 <= i < k ensures items[i].revision > 0 { assert rest[i] in rest; }
    } else {
      k := DeployStops(s, rest, target, rd);
      assert rest[..k] == items[..k];
    }
  }

  /** A deploy that misses a snapshot has written every item before the one without a revision, and leaves the release approved. */
  lemma StoppedDeployWrites(sys: System, id: nat, facts: Facts, u: Setup) returns (k: nat)
    requires SystemOk(sys, u) && id < |sys.releases| && Try(sys, Op.Deploy(id, facts), u).1 == Err(SnapshotMissing)
    ensures
      var r, next := sys.releases[id], Apply(sys, Op.Deploy(id, facts), u);
      && StopsAt(r.items, k) && Wrote(sys.store, next.store, r.items[..k], Forward(r.target)) && Keeps(sys.store, next.store)
      && next.key == sys.key && next.releases == sys.releases[id := Checked(r, sys.releases, facts)] && r.status == Status.Approved
  {
    var r := sys.releases[id];
    assert r in sys.releases;
    StoppedDeployIs(sys, id, facts, u);
    k := DeployStops(sys.store, r.items, r.target, u.rd);
    assert ItemsMatch(r.items[..k], sys.store);
    DeployItemsWrite(sys.store, r.items[..k], r.target, u.rd);
    DeployItemsKeep(sys.store, r.items, r.target, u.rd);
  }

  lemma StoppedDeployIs(sys: System, id: nat, facts: Facts, u: Setup)
    requires id < |sys.releases| && Try(sys, Op.Deploy(id, facts), u).1 == Err(SnapshotMissing)
    ensures
      var r := sys.releases[id];
      var (store, done) := DeployItems(sys.store, r.items, r.target, u.rd);
      !done && r.status == Status.Approved
      && Apply(sys, Op.Deploy(id, facts), u) == System(sys.releases[id := Checked(r, sys.releases, facts)], store, sys.key)
  {
    StoppedPromotionIs(Releases.Check(sys, id, facts).0, id, u);
  }

  lemma StoppedPromotionIs(sys: System, id: nat, u: Setup)
    requires id < |sys.releases| && Promote(sys, id, u.cfg, u.crypto, u.rd).1 == Err(SnapshotMissing)
    ensures
      var r := sys.releases[id];
      var (store, done) := DeployItems(sys.store, r.items, r.target, u.rd);
      !done && r.status == Status.Approved && Promote(sys, id, u.cfg, u.crypto, u.rd).0 == sys.(store := store)
  {
  }

  lemma {:induction false} RestoreStops(s: Store, items: seq<Item>) returns (k: nat)
    requires ItemsMatch(items, s) && !RestoreItems(s, items).1
    ensures StopsAt(items, k) && RestoreItems(s, items[..k]) == (RestoreItems(s, items).0, true)
  {
    var rest, last := items[..|items| - 1], items[|items| - 1];
    assert items == rest + [last] && last in items;
    if RestoreItems(s, rest).1 {
      k := |rest|;
      RestoresIff(s, rest);
      RestoresIff(s, items);
      forall i | 0 <= i < k ensures items[i].revision > 0 { assert rest[i] in rest; }
    } else {
      k := RestoreStops(s, rest);
      assert rest[..k] == items[..k];
    }
  }

  /** So with a rollback: every item before is put back, and the release stays deployed. */
  lemma StoppedRollbackWrites(sys: System, id: nat, author: string, u: Setup) returns (k: nat)
    requires SystemOk(sys, u) && id < |sys.releases| && Try(sys, Op.Rollback(id, author), u).1 == Err(SnapshotMissing)
    ensures
      var r, next := sys.releases[id], Apply(sys, Op.Rollback(id, author), u);
      && StopsAt(r.items, k) && Wrote(sys.store, next.store, r.items[..k], Back) && next.store.history == sys.store.history
      && next.key == sys.key && next.releases == sys.releases && r.status == Deployed
  {
    var r := sys.releases[id];
    assert ItemsMatch(r.items, sys.store) by { assert r in sys.releases; }
    StoppedRollbackIs(sys, id, author, u);
    k := RestoreStops(sys.store, r.items);
    RestoreItemsWrite(sys.store, r.items[..k]);
    RestoreItemsKeep(sys.store, r.items);
  }

  lemma StoppedRollbackIs(sys: System, id: nat, author: string, u: Setup)
    requires id < |sys.releases| && Try(sys, Op.Rollback(id, author), u).1 == Err(SnapshotMissing)
    ensures
      var (store, done) := RestoreItems(sys.store, sys.releases[id].items);
      !done && sys.releases[id].status == Deployed && Apply(sys, Op.Rollback(id, author), u) == sys.(store := store)
  {
  }
}
