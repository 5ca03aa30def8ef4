/** What every run of the release manager keeps: quorum, veto, immutable releases, append-only history. */
module ReleaseRuns {
  import opened Wrappers
  import opened Versions
  import opened Releases

  // ---- runs -------------------------------------------------------------------

  datatype Setup = Setup(cfg: Config, crypto: Crypto, rd: Reader)

  /** What can happen next; workspace files and the master key may change behind the manager's back. */
  datatype Op =
    | Create(artifacts: seq<Artifact>, target: Environment, author: string, facts: Facts)
    | Check(id: nat, facts: Facts)
    | Submit(id: nat, facts: Facts)
    | Approve(id: nat, voter: Option<string>, roles: set<string>)
    | Sign(id: nat)
    | Reject(id: nat, actor: string)
    | Deploy(id: nat, facts: Facts)
    | Rollback(id: nat, author: string)
    | ChangeKey(key: Option<Key>)
    | EditFile(artifact: Artifact, content: string)
    | DeleteFile(artifact: Artifact)

  function Try(sys: System, op: Op, u: Setup): (System, Outcome) {
    match op
    case Create(artifacts, target, author, facts) => Releases.Create(sys, artifacts, target, author, facts, u.rd)
    case Check(id, facts) => Releases.Check(sys, id, facts)
    case Submit(id, facts) => Releases.Submit(sys, id, facts)
    case Approve(id, voter, roles) => Releases.Approve(sys, id, voter, roles, u.cfg, u.crypto)
    case Sign(id) => SignRelease(sys, id, u.crypto)
    case Reject(id, actor) => Releases.Reject(sys, id, actor)
    case Deploy(id, facts) => Releases.Deploy(sys, id, facts, u.cfg, u.crypto, u.rd)
    case Rollback(id, author) => Releases.Rollback(sys, id, author)
    case ChangeKey(key) => (sys.(key := key), Ok(()))
    case EditFile(a, content) => (sys.(store := Write(sys.store, a, content)), Ok(()))
    case DeleteFile(a) => (sys.(store := sys.store.(files := sys.store.files - {a})), Ok(()))
  }

  function Apply(sys: System, op: Op, u: Setup): System {
    Try(sys, op, u).0
  }

  function Exec(sys: System, ops: seq<Op>, u: Setup): System {
    if ops == [] then sys else Apply(Exec(sys, ops[..|ops| - 1], u), ops[|ops| - 1], u)
  }

  function Empty(files: map<Artifact, string>, key: Option<Key>): System {
    System([], Store(files, map[]), key)
  }

  // ---- quorum means distinct people ---------------------------------------------

  ghost predicate Distinct(names: seq<string>) {
    forall i, j :: 0 <= i < j < |names| ==> names[i] != names[j]
  }

  ghost predicate Approved(votes: seq<Vote>, name: string) {
    exists v <- votes :: v.approved && Plainly(v.actor) == name
  }

  /** The counted names are exactly the people who approved, less the excluded one, each counted once. */
  lemma {:induction false} ApproversAreDistinctPeople(votes: seq<Vote>, excluded: Option<string>)
    ensures Distinct(Approvers(votes, excluded))
    ensures forall name :: name in Approvers(votes, excluded) <==> Approved(votes, name) && excluded != Some(name)
  {
    if votes != [] {
      var rest, last := votes[..|votes| - 1], votes[|votes| - 1];
      ApproversAreDistinctPeople(rest, excluded);
      assert votes == rest + [last];
      forall name ensures Approved(votes, name) <==> Approved(rest, name) || (last.approved && Plainly(last.actor) == name) {
        if Approved(rest, name) {
          var v :| v in rest && v.approved && Plainly(v.actor) == name;
          assert v in votes;
        }
        if last.approved && Plainly(last.actor) == name { assert last in votes; }
      }
    }
  }

  // ---- the invariant --------------------------------------------------------------

  ghost predicate NobodyVotedTwice(votes: seq<Vote>) {
    forall i, j :: 0 <= i < j < |votes| && votes[i].approved && votes[j].approved ==> votes[i].actor != votes[j].actor
  }

  ghost predicate ReleaseOk(r: Release, cfg: Config) {
    && (r.status == Status.Rejected <==> Vetoed(r))
    && (r.status == Draft ==> r.votes == [])
    && (r.status == Status.Approved || r.status == Deployed ==> QuorumMet(r, cfg) && r.approvedManifest.Some?)
    && (r.status == Deployed ==> forall item <- r.items :: Rank(r.target) == Rank(item.origin) + 1)
    && (forall item <- r.items :: item.target == r.target)
    && NobodyVotedTwice(r.votes)
  }

  /** Each item that has a revision names a snapshot, and carries its fingerprint and version. */
  ghost predicate ItemsMatch(items: seq<Item>, s: Store) {
    forall item <- items :: item.revision > 0 ==> ItemMatches(item, s)
  }

  ghost predicate ItemMatches(item: Item, s: Store) {
    var found := Find(s, item.artifact, item.revision);
    found.Some? && found.value.fingerprint == item.fingerprint && found.value.version == item.version
  }

  ghost predicate SystemOk(sys: System, u: Setup) {
    && WellFormed(sys.store, u.rd)
    && forall r <- sys.releases :: ReleaseOk(r, u.cfg) && ItemsMatch(r.items, sys.store)
  }

  /** What a release never takes back: what it promotes, who made it, its votes, a veto, a rollback. */
  ghost predicate Evolves(r: Release, t: Release) {
    && t.items == r.items && t.target == r.target && t.createdBy == r.createdBy && t.rollbackOf == r.rollbackOf
    && r.votes <= t.votes
    && (r.status == Status.Rejected ==> t.status == Status.Rejected)
    && (r.status == RolledBack ==> t.status == RolledBack)
  }

  ghost predicate SystemEvolves(sys: System, next: System) {
    && |sys.releases| <= |next.releases|
    && Keeps(sys.store, next.store)
    && forall id :: 0 <= id < |sys.releases| ==> Evolves(sys.releases[id], next.releases[id])
  }

  // ---- the store --------------------------------------------------------------------

  lemma KeepsIsTransitive(s: Store, t: Store, v: Store)
    requires Keeps(s, t) && Keeps(t, v)
    ensures Keeps(s, v)
  {
    forall a ensures History(s, a) <= History(v, a) {
      assert History(s, a) <= History(t, a) <= History(v, a);
    }
  }

  lemma ItemsStayMatched(items: seq<Item>, s: Store, t: Store)
    requires ItemsMatch(items, s) && Keeps(s, t)
    ensures ItemsMatch(items, t)
  {
    forall item <- items | item.revision > 0 ensures ItemMatches(item, t) {
      assert ItemMatches(item, s);
      FoundStaysFound(s, t, item.artifact, item.revision);
    }
  }

  lemma CollectOneKeeps(s: Store, a: Artifact, target: Environment, rd: Reader)
    requires WellFormed(s, rd)
    ensures var (t, item) := CollectOne(s, a, target, rd);
      && WellFormed(t, rd) && Keeps(s, t) && t.files == s.files
      && item.target == target && item.artifact == a && (item.revision > 0 ==> ItemMatches(item, t))
  {
    if a in s.files { TakeKeeps(s, a, rd); }
  }

  lemma {:induction false} CollectKeeps(s: Store, artifacts: seq<Artifact>, target: Environment, rd: Reader)
    requires WellFormed(s, rd)
    ensures var (t, items) := Collect(s, artifacts, target, rd);
      && WellFormed(t, rd) && Keeps(s, t) && t.files == s.files && ItemsMatch(items, t)
      && |items| == |artifacts|
      && forall i :: 0 <= i < |items| ==> items[i].target == target && items[i].artifact == artifacts[i]
  {
    if artifacts != [] {
      var rest, a := artifacts[..|artifacts| - 1], artifacts[|artifacts| - 1];
      CollectKeeps(s, rest, target, rd);
      var (before, items) := Collect(s, rest, target, rd);
      CollectOneKeeps(before, a, target, rd);
      var after := CollectOne(before, a, target, rd).0;
      KeepsIsTransitive(s, before, after);
      ItemsStayMatched(items, before, after);
    }
  }

  lemma DeployItemKeeps(s: Store, item: Item, target: Environment, rd: Reader)
    requires WellFormed(s, rd) && Find(s, item.artifact, item.revision).Some?
    ensures var t := DeployItem(s, item, target, rd);
      && WellFormed(t, rd) && Keeps(s, t)
      && t.files == s.files[item.artifact := WithEnvironment(item.artifact, Find(s, item.artifact, item.revision).value.content, target)]
      && Latest(t, item.artifact).Some?
      && Latest(t, item.artifact).value.fingerprint == rd.fingerprint(t.files[item.artifact])
      && forall b :: b != item.artifact ==> History(t, b) == History(s, b)
  {
    var written := SetEnvironment(Write(s, item.artifact, Find(s, item.artifact, item.revision).value.content), item.artifact, target);
    assert WellFormed(written, rd);
    TakeKeeps(written, item.artifact, rd);
    KeepsIsTransitive(s, written, Take(written, item.artifact, rd));
  }

  lemma {:induction false} DeployItemsKeep(s: Store, items: seq<Item>, target: Environment, rd: Reader)
    requires WellFormed(s, rd)
    ensures var t := DeployItems(s, items, target, rd).0; WellFormed(t, rd) && Keeps(s, t)
  {
    if items != [] {
      var rest, item := items[..|items| - 1], items[|items| - 1];
      DeployItemsKeep(s, rest, target, rd);
      var (before, ok) := DeployItems(s, rest, target, rd);
      if ok && Find(before, item.artifact, item.revision).Some? {
        DeployItemKeeps(before, item, target, rd);
        KeepsIsTransitive(s, before, DeployItem(before, item, target, rd));
      }
    }
  }

  lemma {:induction false} RestoreItemsKeep(s: Store, items: seq<Item>)
    ensures RestoreItems(s, items).0.history == s.history
  {
    if items != [] { RestoreItemsKeep(s, items[..|items| - 1]); }
  }

  // ---- one operation ------------------------------------------------------------------

  lemma PutKeeps(sys: System, id: nat, t: Release, u: Setup)
    requires SystemOk(sys, u) && id < |sys.releases|
    requires Evolves(sys.releases[id], t) && ReleaseOk(t, u.cfg)
    ensures SystemOk(Put(sys, id, t), u) && SystemEvolves(sys, Put(sys, id, t))
  {
    assert sys.releases[id] in sys.releases;
  }

  lemma StoreKeeps(sys: System, t: Store, u: Setup)
    requires SystemOk(sys, u) && WellFormed(t, u.rd) && Keeps(sys.store, t)
    ensures SystemOk(sys.(store := t), u) && SystemEvolves(sys, sys.(store := t))
  {
    forall r <- sys.releases ensures ItemsMatch(r.items, t) {
      ItemsStayMatched(r.items, sys.store, t);
    }
  }

  lemma AppendKeeps(sys: System, t: Release, u: Setup)
    requires SystemOk(sys, u) && ReleaseOk(t, u.cfg) && ItemsMatch(t.items, sys.store)
    ensures SystemOk(sys.(releases := sys.releases + [t]), u) && SystemEvolves(sys, sys.(releases := sys.releases + [t]))
  {
  }

  lemma EvolvesTransitively(a: System, b: System, c: System)
    requires SystemEvolves(a, b) && SystemEvolves(b, c)
    ensures SystemEvolves(a, c)
  {
    KeepsIsTransitive(a.store, b.store, c.store);
    forall id | 0 <= id < |a.releases| ensures Evolves(a.releases[id], c.releases[id]) {
      assert Evolves(a.releases[id], b.releases[id]) && Evolves(b.releases[id], c.releases[id]);
    }
  }

  lemma CheckKeeps(sys: System, id: nat, facts: Facts, u: Setup)
    requires SystemOk(sys, u)
    ensures SystemOk(Releases.Check(sys, id, facts).0, u) && SystemEvolves(sys, Releases.Check(sys, id, facts).0)
  {
    if id < |sys.releases| {
      assert sys.releases[id] in sys.releases;
      PutKeeps(sys, id, Checked(sys.releases[id], sys.releases, facts), u);
    }
  }

  lemma CreateKeeps(sys: System, artifacts: seq<Artifact>, target: Environment, author: string, facts: Facts, u: Setup)
    requires SystemOk(sys, u)
    ensures var next := Releases.Create(sys, artifacts, target, author, facts, u.rd).0; SystemOk(next, u) && SystemEvolves(sys, next)
  {
    if target != Development && artifacts != [] {
      var (store, items) := Collect(sys.store, artifacts, target, u.rd);
      CollectKeeps(sys.store, artifacts, target, u.rd);
      StoreKeeps(sys, store, u);
      var draft := Checked(Release(items, target, Draft, [], [], author, [], None, None, None), sys.releases, facts);
      AppendKeeps(sys.(store := store), draft, u);
      EvolvesTransitively(sys, sys.(store := store), sys.(store := store, releases := sys.releases + [draft]));
    }
  }

  lemma SubmitKeeps(sys: System, id: nat, facts: Facts, u: Setup)
    requires SystemOk(sys, u)
    ensures var next := Releases.Submit(sys, id, facts).0; SystemOk(next, u) && SystemEvolves(sys, next)
  {
    CheckKeeps(sys, id, facts, u);
    var checked := Releases.Check(sys, id, facts).0;
    if id < |sys.releases| && checked.releases[id].status == Draft && checked.releases[id].problems == [] {
      assert checked.releases[id] in checked.releases;
      PutKeeps(checked, id, checked.releases[id].(status := Submitted), u);
      EvolvesTransitively(sys, checked, Releases.Submit(sys, id, facts).0);
    }
  }

  /** A vote keeps a release in order: it closes the quorum only when enough distinct people approved. */
  lemma VoteKeeps(r: Release, name: string, manifest: string, cfg: Config)
    requires ReleaseOk(r, cfg) && r.status == Submitted && forall v <- r.votes :: v.actor != name
    ensures
      var voted := r.(votes := r.votes + [Vote(name, true)]);
      && Evolves(r, voted) && ReleaseOk(voted, cfg)
      && (QuorumMet(voted, cfg) ==> ReleaseOk(voted.(status := Status.Approved, approvedManifest := Some(manifest)), cfg))
  {
    var voted := r.(votes := r.votes + [Vote(name, true)]);
    assert forall v <- voted.votes :: v in r.votes || v == Vote(name, true);
  }

  lemma ApproveKeeps(sys: System, id: nat, voter: Option<string>, roles: set<string>, u: Setup)
    requires SystemOk(sys, u)
    ensures var next := Releases.Approve(sys, id, voter, roles, u.cfg, u.crypto).0; SystemOk(next, u) && SystemEvolves(sys, next)
  {
    if id < |sys.releases| && sys.releases[id].status == Submitted && voter.Some? {
      var r, name := sys.releases[id], VoterName(voter.value);
      assert r in sys.releases;
      if forall v <- r.votes :: v.actor != name {
        var voted := r.(votes := r.votes + [Vote(name, true)]);
        var digest := u.crypto.hash(ManifestOf(id, voted));
        VoteKeeps(r, name, digest, u.cfg);
        PutKeeps(sys, id, voted, u);
        if QuorumMet(voted, u.cfg) {
          PutKeeps(sys, id, voted.(status := Status.Approved, approvedManifest := Some(digest)), u);
        }
      }
    }
  }

  lemma SignKeeps(sys: System, id: nat, u: Setup)
    requires SystemOk(sys, u)
    ensures var next := SignRelease(sys, id, u.crypto).0; SystemOk(next, u) && SystemEvolves(sys, next)
  {
    if id < |sys.releases| && sys.key.Some? {
      var r := sys.releases[id];
      assert r in sys.releases;
      PutKeeps(sys, id, r.(signature := Some(Releases.Sign(id, r, sys.key.value, u.crypto))), u);
    }
  }

  lemma RejectKeeps(sys: System, id: nat, actor: string, u: Setup)
    requires SystemOk(sys, u)
    ensures var next := Releases.Reject(sys, id, actor).0; SystemOk(next, u) && SystemEvolves(sys, next)
  {
    if id < |sys.releases| && sys.releases[id].status != Deployed && sys.releases[id].status != RolledBack {
      var r := sys.releases[id];
      assert r in sys.releases;
      var vetoed := r.(votes := r.votes + [Vote(Plainly(actor), false)], status := Status.Rejected);
      assert vetoed.votes[|r.votes|] in vetoed.votes;
      PutKeeps(sys, id, vetoed, u);
    }
  }

  /** The newest evaluation of the artifact passed; evaluations come newest first. */
  ghost predicate NewestPassed(evaluations: seq<EvaluationRun>, a: Artifact) {
    exists k :: 0 <= k < |evaluations| && evaluations[k].artifact == a && evaluations[k].passed && NoneBefore(evaluations, a, k)
  }

  ghost predicate NoneBefore(evaluations: seq<EvaluationRun>, a: Artifact, k: nat)
    requires k <= |evaluations|
  {
    forall j :: 0 <= j < k ==> evaluations[j].artifact != a
  }

  lemma {:induction false} FirstRunIsNewest(evaluations: seq<EvaluationRun>, a: Artifact)
    ensures RunsOf(evaluations, a) != [] && RunsOf(evaluations, a)[0].passed <==> NewestPassed(evaluations, a)
  {
    if evaluations != [] && evaluations[0].artifact != a {
      var rest := evaluations[1..];
      FirstRunIsNewest(rest, a);
      if NewestPassed(rest, a) {
        var k :| 0 <= k < |rest| && rest[k].artifact == a && rest[k].passed && NoneBefore(rest, a, k);
        assert evaluations[k + 1] == rest[k] && NoneBefore(evaluations, a, k + 1);
      }
      if NewestPassed(evaluations, a) {
        var k :| 0 <= k < |evaluations| && evaluations[k].artifact == a && evaluations[k].passed && NoneBefore(evaluations, a, k);
        assert rest[k - 1] == evaluations[k] && NoneBefore(rest, a, k - 1);
      }
    } else if evaluations != [] {
      assert evaluations[0].passed ==> NoneBefore(evaluations, a, 0);
    }
  }

  /** What it takes for an item to raise no problem. */
  ghost predicate ItemIsReady(item: Item, target: Environment, releases: seq<Release>, facts: Facts) {
    && ((item.origin == Development && target == Staging) || (item.origin == Staging && target == Production))
    && (target == Production ==>
          exists r <- releases :: r.status == Deployed && r.target == Staging && exists other <- r.items :: other.artifact == item.artifact)
    && item.artifact in facts.known && item.artifact !in facts.blocked
    && NewestPassed(facts.evaluations, item.artifact)
  }

  lemma ItemIsReadyIff(item: Item, target: Environment, releases: seq<Release>, facts: Facts)
    ensures ItemProblems(item, target, releases, facts) == [] <==> ItemIsReady(item, target, releases, facts)
  {
    FirstRunIsNewest(facts.evaluations, item.artifact);
    var ladder, rest := LadderProblems(item, target, releases), ArtifactProblems(item, facts);
    assert ladder + rest == [] <==> ladder == [] && rest == [];
  }

  /** The gates are clear exactly when there are items, and each climbs one rung, was in staging before production,
      exists, passed its last evaluation and is not blocked. */
  lemma {:induction false} GatesAreClearIff(items: seq<Item>, target: Environment, releases: seq<Release>, facts: Facts)
    ensures AllItemProblems(items, target, releases, facts) == [] <==> forall item <- items :: ItemIsReady(item, target, releases, facts)
  {
    if items != [] {
      var rest, last := items[..|items| - 1], items[|items| - 1];
      GatesAreClearIff(rest, target, releases, facts);
      ItemIsReadyIff(last, target, releases, facts);
      assert items == rest + [last];
      var before, more := AllItemProblems(rest, target, releases, facts), ItemProblems(last, target, releases, facts);
      assert before + more == [] <==> before == [] && more == [];
    }
  }

  /** Releases with their gates checked, and the releases they were checked against. */
  lemma PromoteKeeps(checked: System, id: nat, releases: seq<Release>, facts: Facts, u: Setup)
    requires SystemOk(checked, u) && id < |checked.releases|
    requires checked.releases[id].problems == Gates(checked.releases[id], releases, facts)
    ensures var next := Promote(checked, id, u.cfg, u.crypto, u.rd).0; SystemOk(next, u) && SystemEvolves(checked, next)
  {
    var r := checked.releases[id];
    assert r in checked.releases;
    var store := DeployItems(checked.store, r.items, r.target, u.rd).0;
    DeployItemsKeep(checked.store, r.items, r.target, u.rd);
    StoreKeeps(checked, store, u);
    if r.status == Status.Approved && r.problems == [] {
      GatesAreClearIff(r.items, r.target, releases, facts);
      PutKeeps(checked.(store := store), id, r.(status := Deployed), u);
      EvolvesTransitively(checked, checked.(store := store), Put(checked.(store := store), id, r.(status := Deployed)));
    }
  }

  lemma DeployKeeps(sys: System, id: nat, facts: Facts, u: Setup)
    requires SystemOk(sys, u)
    ensures var next := Releases.Deploy(sys, id, facts, u.cfg, u.crypto, u.rd).0; SystemOk(next, u) && SystemEvolves(sys, next)
  {
    if id < |sys.releases| {
      var checked := Releases.Check(sys, id, facts).0;
      CheckKeeps(sys, id, facts, u);
      PromoteKeeps(checked, id, sys.releases, facts, u);
      EvolvesTransitively(sys, checked, Promote(checked, id, u.cfg, u.crypto, u.rd).0);
    }
  }

  lemma RollbackKeeps(sys: System, id: nat, author: string, u: Setup)
    requires SystemOk(sys, u)
    ensures var next := Releases.Rollback(sys, id, author).0; SystemOk(next, u) && SystemEvolves(sys, next)
  {
    if id < |sys.releases| && sys.releases[id].status == Deployed {
      var r := sys.releases[id];
      assert r in sys.releases;
      var (store, ok) := RestoreItems(sys.store, r.items);
      RestoreItemsKeep(sys.store, r.items);
      assert forall a :: History(store, a) == History(sys.store, a);
      var restored := sys.(store := store);
      StoreKeeps(sys, store, u);
      if ok {
        var back := Put(restored, id, r.(status := RolledBack));
        PutKeeps(restored, id, r.(status := RolledBack), u);
        EvolvesTransitively(sys, restored, back);
        AppendKeeps(back, Release(r.items, r.target, RolledBack, [], [], author, [], None, None, Some(id)), u);
        EvolvesTransitively(sys, back, Releases.Rollback(sys, id, author).0);
      }
    }
  }

  lemma OperationKeeps(sys: System, op: Op, u: Setup)
    requires SystemOk(sys, u)
    ensures SystemOk(Apply(sys, op, u), u) && SystemEvolves(sys, Apply(sys, op, u))
  {
    match op
    case Create(artifacts, target, author, facts) => CreateKeeps(sys, artifacts, target, author, facts, u);
    case Check(id, facts) => CheckKeeps(sys, id, facts, u);
    case Submit(id, facts) => SubmitKeeps(sys, id, facts, u);
    case Approve(id, voter, roles) => ApproveKeeps(sys, id, voter, roles, u);
    case Sign(id) => SignKeeps(sys, id, u);
    case Reject(id, actor) => RejectKeeps(sys, id, actor, u);
    case Deploy(id, facts) => DeployKeeps(sys, id, facts, u);
    case Rollback(id, author) => RollbackKeeps(sys, id, author, u);
    case ChangeKey(key) =>
    case EditFile(a, content) => StoreKeeps(sys, Write(sys.store, a, content), u);
    case DeleteFile(a) => StoreKeeps(sys, sys.store.(files := sys.store.files - {a}), u);
  }

  // ---- whole runs -----------------------------------------------------------------------

  lemma {:induction false} RunsKeepInvariant(sys: System, ops: seq<Op>, u: Setup)
    requires SystemOk(sys, u)
    ensures SystemOk(Exec(sys, ops, u), u) && SystemEvolves(sys, Exec(sys, ops, u))
  {
    if ops != [] {
      var before := Exec(sys, ops[..|ops| - 1], u);
      RunsKeepInvariant(sys, ops[..|ops| - 1], u);
      OperationKeeps(before, ops[|ops| - 1], u);
      EvolvesTransitively(sys, before, Exec(sys, ops, u));
    }
  }

  /** An approved or deployed release has no veto, and enough distinct people other than an excluded author
      approved it; a release is rejected exactly when someone vetoed it. */
  lemma PromotionHasQuorum(files: map<Artifact, string>, key: Option<Key>, ops: seq<Op>, u: Setup, id: nat)
    requires id < |Exec(Empty(files, key), ops, u).releases|
    ensures
      var r := Exec(Empty(files, key), ops, u).releases[id];
      && (r.status == Status.Rejected <==> Vetoed(r))
      && NobodyVotedTwice(r.votes)
      && (r.status == Status.Approved || r.status == Deployed ==>
            && !Vetoed(r)
            && var required := if r.target == Production then u.cfg.minApprovalsProduction else u.cfg.minApprovals;
            && Distinct(Counted(r, u.cfg)) && |Counted(r, u.cfg)| >= required
            && (forall name <- Counted(r, u.cfg) :: Approved(r.votes, name))
            && (required > 1 && !u.cfg.allowSelfApproval ==> Plainly(r.createdBy) !in Counted(r, u.cfg)))
  {
    RunsKeepInvariant(Empty(files, key), ops, u);
    var r := Exec(Empty(files, key), ops, u).releases[id];
    assert r in Exec(Empty(files, key), ops, u).releases;
    ApproversAreDistinctPeople(r.votes, if AuthorExcluded(r, u.cfg) then Some(Plainly(r.createdBy)) else None);
  }

  /** Rejection and rollback are final, votes are never withdrawn, and what a release promotes never changes. */
  lemma ReleasesOnlyEvolve(sys: System, ops: seq<Op>, u: Setup, id: nat)
    requires SystemOk(sys, u) && id < |sys.releases|
    ensures id < |Exec(sys, ops, u).releases| && Evolves(sys.releases[id], Exec(sys, ops, u).releases[id])
  {
    RunsKeepInvariant(sys, ops, u);
  }

  /** An id `kind:name@revision` names the same content for ever, and neighbouring revisions differ. */
  lemma HistoryIsAppendOnly(sys: System, ops: seq<Op>, u: Setup, a: Artifact, revision: nat)
    requires SystemOk(sys, u) && Find(sys.store, a, revision).Some?
    ensures
      var next := Exec(sys, ops, u).store;
      && Find(next, a, revision) == Find(sys.store, a, revision)
      && Find(next, a, revision).value.revision == revision
      && (Find(next, a, revision + 1).Some? ==>
            Find(next, a, revision + 1).value.fingerprint != Find(next, a, revision).value.fingerprint)
  {
    RunsKeepInvariant(sys, ops, u);
    var next := Exec(sys, ops, u).store;
    FoundStaysFound(sys.store, next, a, revision);
    assert a in next.history && HistoryOk(next.history[a], u.rd);
  }
}
