/** The release manager as it runs: stored releases, workspace files and snapshots updated in place. Each method
    is proved to leave the system its `Releases` function describes, on refusal as well. */
module ReleaseManager {
  import opened Wrappers
  import opened Versions
  import opened Releases

  // ---- read-only loops --------------------------------------------------------

  method CollectProblems(r: Release, releases: seq<Release>, facts: Facts) returns (problems: seq<Problem>)
    ensures problems == Gates(r, releases, facts)
  {
    if r.items == [] { return [NoItems]; }
    problems := [];
    for i := 0 to |r.items|
      invariant problems == AllItemProblems(r.items[..i], r.target, releases, facts)
    {
      assert r.items[..i + 1][..i] == r.items[..i];
      var found := CheckItem(r.items[i], r.target, releases, facts);
      problems := problems + found;
    }
    assert r.items[..|r.items|] == r.items;
  }

  method Holds(items: seq<Item>, a: Artifact) returns (found: bool)
    ensures found <==> exists item <- items :: item.artifact == a
  {
    var i := 0;
    while i < |items| && items[i].artifact != a
      invariant i <= |items| && forall j :: 0 <= j < i ==> items[j].artifact != a
    {
      i := i + 1;
    }
    found := i < |items|;
  }

  /** Some release that is still deployed put the artifact into staging. */
  method DeployedTo(releases: seq<Release>, a: Artifact) returns (found: bool)
    ensures found <==> DeployedToStaging(releases, a)
  {
    for i := 0 to |releases|
      invariant !DeployedToStaging(releases[..i], a)
    {
      assert releases[..i + 1] == releases[..i] + [releases[i]];
      if releases[i].status == Deployed && releases[i].target == Staging {
        var held := Holds(releases[i].items, a);
        if held {
          assert releases[i] in releases;
          return true;
        }
      }
    }
    assert releases[..|releases|] == releases;
    found := false;
  }

  /** Nothing is found exactly when the target is one rung above the origin and, for production, staging has the
      artifact; each problem is found exactly when it is there. */
  method CheckLadder(item: Item, target: Environment, releases: seq<Release>) returns (found: seq<Problem>)
    ensures found == LadderProblems(item, target, releases)
    ensures found == [] <==>
      (item.origin == Development && target == Staging)
      || (item.origin == Staging && target == Production && DeployedToStaging(releases, item.artifact))
    ensures DoesNotClimb(item) in found <==> target == Development || target == item.origin || item.origin == Production
    ensures SkipsARung(item) in found <==> item.origin == Development && target == Production
    ensures NotDeployedToStaging(item) in found <==> target == Production && !DeployedToStaging(releases, item.artifact)
  {
    found := [];
    if Rank(target) <= Rank(item.origin) { found := found + [DoesNotClimb(item)]; }
    if Rank(target) - Rank(item.origin) > 1 { found := found + [SkipsARung(item)]; }
    var staged := DeployedTo(releases, item.artifact);
    if target == Production && !staged { found := found + [NotDeployedToStaging(item)]; }
  }

  method CheckItem(item: Item, target: Environment, releases: seq<Release>, facts: Facts) returns (found: seq<Problem>)
    ensures found == ItemProblems(item, target, releases, facts)
  {
    found := CheckLadder(item, target, releases);
    if item.artifact !in facts.known { return found + [DoesNotExist(item)]; }
    var more := EvidenceProblems(item, facts);
    if item.artifact in facts.blocked { more := more + [BlockedBySecurity(item)]; }
    found := found + more;
  }

  method CollectEvidence(items: seq<Item>, facts: Facts) returns (ids: seq<string>)
    ensures ids == Evidence(items, facts)
  {
    ids := [];
    for i := 0 to |items|
      invariant ids == Evidence(items[..i], facts)
    {
      assert items[..i + 1][..i] == items[..i];
      var runs, k := RunsOf(facts.evaluations, items[i].artifact), 0;
      while k < |runs| && !runs[k].passed
        invariant k <= |runs|
        invariant PassedRun(runs[k..]) == PassedRun(runs)
      {
        k := k + 1;
      }
      if k < |runs| && runs[k].id !in ids { ids := ids + [runs[k].id]; }
    }
    assert items[..|items|] == items;
  }

  /** The distinct names that approved, in voting order. */
  method CountApprovers(votes: seq<Vote>, excluded: Option<string>) returns (names: seq<string>)
    ensures names == Approvers(votes, excluded)
  {
    names := [];
    for i := 0 to |votes|
      invariant names == Approvers(votes[..i], excluded)
    {
      assert votes[..i + 1][..i] == votes[..i];
      if votes[i].approved {
        var name := Plainly(votes[i].actor);
        if excluded != Some(name) && name !in names { names := names + [name]; }
      }
    }
    assert votes[..|votes|] == votes;
  }

  // ---- the manager --------------------------------------------------------------

  class Manager {
    var releases: seq<Release>
    var files: map<Artifact, string>
    var history: map<Artifact, seq<Snapshot>>
    var key: Option<Key>
    const cfg: Config
    const crypto: Crypto
    const rd: Reader

    function Now(): System
      reads this
    {
      System(releases, Disk(), key)
    }

    function Disk(): Store
      reads this
    {
      Store(files, history)
    }

    constructor (cfg: Config, crypto: Crypto, rd: Reader, files: map<Artifact, string>, key: Option<Key>)
      ensures Now() == System([], Store(files, map[]), key)
      ensures this.cfg == cfg
    {
      this.cfg, this.crypto, this.rd := cfg, crypto, rd;
      this.releases, this.files, this.history, this.key := [], files, map[], key;
    }

    method TakeSnapshot(a: Artifact)
      requires a in files
      modifies this`history
      ensures Disk() == Take(old(Disk()), a, rd)
    {
      var content, past := files[a], if a in history then history[a] else [];
      if past != [] && past[|past| - 1].fingerprint == rd.fingerprint(content) { return; }
      var revision := |past| + 1;
      var declared := if a.kind == Tool then "" else rd.version(a.kind, content);
      history := history[a := past + [Snapshot(revision, VersionLabel(declared, revision), content, rd.fingerprint(content))]];
    }

    method Create(artifacts: seq<Artifact>, target: Environment, author: string, facts: Facts) returns (out: Outcome)
      modifies this
      ensures (Now(), out) == Releases.Create(old(Now()), artifacts, target, author, facts, rd)
    {
      if target == Development || artifacts == [] { return Err(BadRequest); }
      var items: seq<Item> := [];
      for i := 0 to |artifacts|
        invariant (Disk(), items) == Collect(old(Disk()), artifacts[..i], target, rd)
        invariant releases == old(releases) && key == old(key)
      {
        assert artifacts[..i + 1][..i] == artifacts[..i];
        var a := artifacts[i];
        if a in files {
          TakeSnapshot(a);
          var snap := history[a][|history[a]| - 1];
          items := items + [Item(a, snap.version, snap.revision, snap.fingerprint, rd.environment(a.kind, snap.content), target)];
        } else {
          items := items + [Item(a, "", 0, "", Development, target)];
        }
      }
      assert artifacts[..|artifacts|] == artifacts;
      var draft := Release(items, target, Draft, [], [], author, [], None, None, None);
      var checked := Recheck(draft, facts);
      releases := releases + [checked];
      out := Ok(());
    }

    method Recheck(r: Release, facts: Facts) returns (checked: Release)
      ensures checked == Checked(r, releases, facts)
    {
      var problems := CollectProblems(r, releases, facts);
      var evidence := CollectEvidence(r.items, facts);
      checked := r.(problems := problems, evidence := evidence);
    }

    method Check(id: nat, facts: Facts) returns (out: Outcome)
      modifies this`releases
      ensures (Now(), out) == Releases.Check(old(Now()), id, facts)
    {
      if id >= |releases| { return Err(UnknownRelease); }
      var checked := Recheck(releases[id], facts);
      releases := releases[id := checked];
      out := Ok(());
    }

    method Submit(id: nat, facts: Facts) returns (out: Outcome)
      modifies this`releases
      ensures (Now(), out) == Releases.Submit(old(Now()), id, facts)
    {
      out := Check(id, facts);
      if out.Err? { return; }
      if releases[id].status != Draft { return Err(WrongStatus); }
      if releases[id].problems != [] { return Err(GatesFailed); }
      releases := releases[id := releases[id].(status := Submitted)];
    }

    method Quorum(r: Release) returns (complete: bool)
      ensures complete == QuorumMet(r, cfg)
    {
      var excluded := if AuthorExcluded(r, cfg) then Some(Plainly(r.createdBy)) else None;
      var counted := CountApprovers(r.votes, excluded);
      complete := |counted| >= Required(r, cfg) && !Vetoed(r);
    }

    method Approve(id: nat, voter: Option<string>, roles: set<string>) returns (out: Outcome)
      modifies this`releases
      ensures (Now(), out) == Releases.Approve(old(Now()), id, voter, roles, cfg, crypto)
    {
      if id >= |releases| { return Err(UnknownRelease); }
      var r := releases[id];
      if r.status != Submitted { return Err(WrongStatus); }
      if voter.None? { return Err(NotAuthorized); }
      var name := VoterName(voter.value);
      if exists v <- r.votes :: v.actor == name { return Err(VotedBefore); }
      if cfg.approverRoles != {} && roles != {} && roles !! cfg.approverRoles { return Err(RoleMayNotVote); }
      r := r.(votes := r.votes + [Vote(name, true)]);
      var complete := Quorum(r);
      if complete {
        r := r.(approvedManifest := Some(crypto.hash(ManifestOf(id, r))), status := Approved);
      }
      releases := releases[id := r];
      out := Ok(());
    }

    method SignRelease(id: nat) returns (out: Outcome)
      modifies this`releases
      ensures (Now(), out) == Releases.SignRelease(old(Now()), id, crypto)
    {
      if id >= |releases| { return Err(UnknownRelease); }
      var r := releases[id];
      if r.status in {Draft, Rejected, RolledBack} { return Err(WrongStatus); }
      if key.None? { return Err(NoKey); }
      var digest := crypto.hash(ManifestOf(id, r));
      releases := releases[id := r.(signature := Some(Signature(digest, key.value.id, crypto.mac(key.value, digest))))];
      out := Ok(());
    }

    method Reject(id: nat, actor: string) returns (out: Outcome)
      modifies this`releases
      ensures (Now(), out) == Releases.Reject(old(Now()), id, actor)
    {
      if id >= |releases| { return Err(UnknownRelease); }
      var r := releases[id];
      if r.status == Deployed || r.status == RolledBack { return Err(WrongStatus); }
      releases := releases[id := r.(votes := r.votes + [Vote(Plainly(actor), false)], status := Rejected)];
      out := Ok(());
    }

    method VerifyPromotion(id: nat) returns (out: Outcome)
      requires id < |releases|
      ensures out == Releases.VerifyPromotion(id, releases[id], key, cfg, crypto)
    {
      var r := releases[id];
      var current := crypto.hash(ManifestOf(id, r));
      if r.approvedManifest.Some? && r.approvedManifest.value != "" && r.approvedManifest.value != current {
        return Err(ChangedSinceApproval);
      }
      if r.target !in cfg.signed { return Ok(()); }
      var valid := SignatureValid(id, r, key, crypto);
      out := if valid then Ok(()) else Err(InvalidSignature);
    }

    method ApplyItem(item: Item, target: Environment) returns (ok: bool)
      modifies this`files, this`history
      ensures ok <==> Find(old(Disk()), item.artifact, item.revision).Some?
      ensures Disk() == if ok then DeployItem(old(Disk()), item, target, rd) else old(Disk())
    {
      var a := item.artifact;
      var past := if a in history then history[a] else [];
      if !(1 <= item.revision <= |past|) { return false; }
      files := files[a := past[item.revision - 1].content];
      files := files[a := WithEnvironment(a, files[a], target)];
      TakeSnapshot(a);
      ok := true;
    }

    method ApplyItems(items: seq<Item>, target: Environment) returns (ok: bool)
      modifies this`files, this`history
      ensures (Disk(), ok) == DeployItems(old(Disk()), items, target, rd)
    {
      ok := true;
      var i := 0;
      while i < |items| && ok
        invariant i <= |items|
        invariant (Disk(), ok) == DeployItems(old(Disk()), items[..i], target, rd)
      {
        assert items[..i + 1][..i] == items[..i];
        var item := items[i];
        ok := ApplyItem(item, target);
        i := i + 1;
      }
      if !ok { StoppedStaysStopped(old(Disk()), items, i, target, rd); }
      assert items[..|items|] == items;
    }

    method Deploy(id: nat, facts: Facts) returns (out: Outcome)
      modifies this
      ensures (Now(), out) == Releases.Deploy(old(Now()), id, facts, cfg, crypto, rd)
    {
      out := Check(id, facts);
      if out.Err? { return; }
      if releases[id].status != Approved { return Err(WrongStatus); }
      if releases[id].problems != [] { return Err(GatesFailed); }
      out := VerifyPromotion(id);
      if out.Err? { return; }
      var ok := ApplyItems(releases[id].items, releases[id].target);
      if !ok { return Err(SnapshotMissing); }
      releases := releases[id := releases[id].(status := Deployed)];
    }

    method UndoItem(item: Item) returns (ok: bool)
      modifies this`files
      ensures ok <==> Find(old(Disk()), item.artifact, item.revision).Some?
      ensures Disk() == if ok then RestoreItem(old(Disk()), item) else old(Disk())
    {
      var a := item.artifact;
      var past := if a in history then history[a] else [];
      if !(1 <= item.revision <= |past|) { return false; }
      files := files[a := past[item.revision - 1].content];
      files := files[a := WithEnvironment(a, files[a], item.origin)];
      ok := true;
    }

    method UndoItems(items: seq<Item>) returns (ok: bool)
      modifies this`files
      ensures (Disk(), ok) == RestoreItems(old(Disk()), items)
    {
      ok := true;
      var i := 0;
      while i < |items| && ok
        invariant i <= |items|
        invariant (Disk(), ok) == RestoreItems(old(Disk()), items[..i])
      {
        assert items[..i + 1][..i] == items[..i];
        var item := items[i];
        ok := UndoItem(item);
        i := i + 1;
      }
      if !ok { StoppedUndoStaysStopped(old(Disk()), items, i); }
      assert items[..|items|] == items;
    }

    method Rollback(id: nat, author: string) returns (out: Outcome)
      modifies this
      ensures (Now(), out) == Releases.Rollback(old(Now()), id, author)
    {
      if id >= |releases| { return Err(UnknownRelease); }
      var r := releases[id];
      if r.status != Deployed { return Err(WrongStatus); }
      var ok := UndoItems(r.items);
      if !ok { return Err(SnapshotMissing); }
      var undone := Release(r.items, r.target, RolledBack, [], [], author, [], None, None, Some(id));
      assert (releases + [undone])[id := r.(status := RolledBack)] == releases[id := r.(status := RolledBack)] + [undone];
      releases := releases + [undone];
      releases := releases[id := r.(status := RolledBack)];
      out := Ok(());
    }
  }

  lemma {:induction false} StoppedStaysStopped(s: Store, items: seq<Item>, i: nat, target: Environment, rd: Reader)
    requires i <= |items| && !DeployItems(s, items[..i], target, rd).1
    ensures DeployItems(s, items, target, rd) == DeployItems(s, items[..i], target, rd)
    decreases |items| - i
  {
    if i < |items| {
      assert items[..i + 1][..i] == items[..i];
      StoppedStaysStopped(s, items, i + 1, target, rd);
    } else {
      assert items[..i] == items;
    }
  }

  lemma {:induction false} StoppedUndoStaysStopped(s: Store, items: seq<Item>, i: nat)
    requires i <= |items| && !RestoreItems(s, items[..i]).1
    ensures RestoreItems(s, items) == RestoreItems(s, items[..i])
    decreases |items| - i
  {
    if i < |items| {
      assert items[..i + 1][..i] == items[..i];
      StoppedUndoStaysStopped(s, items, i + 1);
    } else {
      assert items[..i] == items;
    }
  }
}
