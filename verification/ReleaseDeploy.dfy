/** What a successful deploy writes and what it has to have seen before, and what a rollback puts back. */
module ReleaseDeploy {
  import opened Wrappers
  import opened Versions
  import opened Releases
  import opened ReleaseRuns
  import Texts
  import EnvironmentLine

  /** The digests never collide and are never empty. */
  ghost predicate CollisionFree(c: Crypto) {
    && (forall m, n :: c.hash(m) == c.hash(n) ==> m == n)
    && (forall m :: c.hash(m) != "")
    && (forall k, l, d, e :: c.mac(k, d) == c.mac(l, e) ==> k == l && d == e)
    && (forall k, d :: c.mac(k, d) != "")
  }

  // ---- signatures -----------------------------------------------------------------

  /** A signature stays valid exactly as long as the manifest and the master key stay what they were. */
  lemma SignatureCoversManifestAndKey(id: nat, signed: Release, now: Release, key: Key, current: Option<Key>, c: Crypto)
    requires CollisionFree(c) && now.signature == Some(Releases.Sign(id, signed, key, c))
    ensures SignatureValid(id, now, current, c) <==> ManifestOf(id, now) == ManifestOf(id, signed) && current == Some(key)
  {
  }

  /** Whatever is on record as a signature is valid exactly when it is not empty, names the manifest's hash, carries that
      hash's digest under the key there is, and names that key or none. */
  lemma SignatureIsValidIff(id: nat, r: Release, key: Option<Key>, c: Crypto)
    ensures SignatureValid(id, r, key, c) <==>
      match (r.signature, key)
      case (Some(on), Some(k)) =>
        var digest := c.hash(ManifestOf(id, r));
        on.value != "" && on.manifestHash == digest && on.value == c.mac(k, digest) && on.keyId in {"", k.id}
      case _ => false
  {
  }

  // ---- the vote that closed the quorum ----------------------------------------------

  function Approval(sys: System, id: nat): Option<string> {
    if id < |sys.releases| then sys.releases[id].approvedManifest else None
  }

  /** The operation at `k` is the vote that closed the quorum of release `id`. */
  ghost predicate ClosesQuorum(start: System, ops: seq<Op>, u: Setup, id: nat, k: nat)
    requires k < |ops|
  {
    var before, after := Exec(start, ops[..k], u), Exec(start, ops[..k + 1], u);
    && ops[k].Approve? && ops[k].id == id
    && id < |before.releases| && before.releases[id].status == Submitted
    && id < |after.releases| && after.releases[id].status == Status.Approved
  }

  /** The manifest that vote saw. */
  ghost function VotedManifest(start: System, ops: seq<Op>, u: Setup, id: nat, k: nat): Manifest
    requires k < |ops| && ClosesQuorum(start, ops, u, id, k)
  {
    ManifestOf(id, Exec(start, ops[..k + 1], u).releases[id])
  }

  lemma PutDoesNotApprove(sys: System, i: nat, r: Release, id: nat)
    requires i < |sys.releases| && r.approvedManifest == sys.releases[i].approvedManifest
    ensures Approval(Put(sys, i, r), id) == Approval(sys, id)
  {
  }

  lemma PromoteDoesNotApprove(sys: System, i: nat, u: Setup, id: nat)
    requires i < |sys.releases|
    ensures Approval(Promote(sys, i, u.cfg, u.crypto, u.rd).0, id) == Approval(sys, id)
  {
  }

  lemma OthersDoNotApprove(sys: System, op: Op, u: Setup, id: nat)
    requires op.Create? || op.Check? || op.Submit? || op.Deploy?
    ensures Approval(Apply(sys, op, u), id) == Approval(sys, id)
  {
    if op.Create? {
      CreateDoesNotApprove(sys, op.artifacts, op.target, op.author, op.facts, u, id);
    } else if op.id < |sys.releases| {
      var checked := Releases.Check(sys, op.id, op.facts).0;
      PutDoesNotApprove(sys, op.id, Checked(sys.releases[op.id], sys.releases, op.facts), id);
      if op.Deploy? { PromoteDoesNotApprove(checked, op.id, u, id); }
      if op.Submit? { PutDoesNotApprove(checked, op.id, checked.releases[op.id].(status := Submitted), id); }
    }
  }

  lemma CreateDoesNotApprove(sys: System, artifacts: seq<Artifact>, target: Environment, author: string, facts: Facts, u: Setup, id: nat)
    ensures Approval(Releases.Create(sys, artifacts, target, author, facts, u.rd).0, id) == Approval(sys, id)
  {
  }

  /** Only a closing vote records an approved manifest, and it records the manifest it saw. */
  lemma OnlyVotesApprove(sys: System, op: Op, u: Setup, id: nat)
    requires Approval(Apply(sys, op, u), id) != Approval(sys, id)
    ensures
      var next := Apply(sys, op, u);
      && op.Approve? && op.id == id && id < |sys.releases| && sys.releases[id].status == Submitted
      && id < |next.releases| && next.releases[id].status == Status.Approved
      && Approval(next, id) == Some(u.crypto.hash(ManifestOf(id, next.releases[id])))
  {
    if op.Create? || op.Check? || op.Submit? || op.Deploy? { OthersDoNotApprove(sys, op, u, id); }
  }

  lemma {:induction false} ApprovalComesFromAVote(start: System, ops: seq<Op>, u: Setup, id: nat)
    requires start.releases == [] && Approval(Exec(start, ops, u), id).Some?
    ensures exists k :: 0 <= k < |ops| && ClosesQuorum(start, ops, u, id, k) &&
                        Approval(Exec(start, ops, u), id) == Some(u.crypto.hash(VotedManifest(start, ops, u, id, k)))
  {
    if ops != [] {
      var rest, last := ops[..|ops| - 1], ops[|ops| - 1];
      if Approval(Exec(start, rest, u), id) == Approval(Exec(start, ops, u), id) {
        ApprovalComesFromAVote(start, rest, u, id);
        var k :| 0 <= k < |rest| && ClosesQuorum(start, rest, u, id, k) &&
                 Approval(Exec(start, rest, u), id) == Some(u.crypto.hash(VotedManifest(start, rest, u, id, k)));
        assert rest[..k + 1] == ops[..k + 1] && rest[..k] == ops[..k];
        assert ClosesQuorum(start, ops, u, id, k);
      } else {
        OnlyVotesApprove(Exec(start, rest, u), last, u, id);
        assert ops[..|ops| - 1 + 1] == ops;
        assert ClosesQuorum(start, ops, u, id, |ops| - 1);
      }
    }
  }

  // ---- the signature on record --------------------------------------------------------

  function SignatureOn(sys: System, id: nat): Option<Signature> {
    if id < |sys.releases| then sys.releases[id].signature else None
  }

  /** The operation at `k` put this signature on release `id`, over its manifest and with the key of that moment. */
  ghost predicate Signs(start: System, ops: seq<Op>, u: Setup, id: nat, k: nat, signature: Signature)
    requires k < |ops|
  {
    var before := Exec(start, ops[..k], u);
    && ops[k] == Op.Sign(id) && id < |before.releases| && before.key.Some?
    && signature == Releases.Sign(id, before.releases[id], before.key.value, u.crypto)
  }

  lemma PromoteDoesNotSign(sys: System, i: nat, u: Setup, id: nat)
    requires i < |sys.releases|
    ensures SignatureOn(Promote(sys, i, u.cfg, u.crypto, u.rd).0, id) == SignatureOn(sys, id)
  {
  }

  lemma OthersDoNotSign(sys: System, op: Op, u: Setup, id: nat)
    requires op.Create? || op.Check? || op.Submit? || op.Deploy?
    ensures SignatureOn(Apply(sys, op, u), id) in {SignatureOn(sys, id), None}
  {
    if !op.Create? && op.id < |sys.releases| {
      var checked := Releases.Check(sys, op.id, op.facts).0;
      assert SignatureOn(checked, id) == SignatureOn(sys, id);
      if op.Deploy? { PromoteDoesNotSign(checked, op.id, u, id); }
    }
  }

  /** Only signing puts a signature on a release. */
  lemma OnlySigningSigns(sys: System, op: Op, u: Setup, id: nat)
    requires SignatureOn(Apply(sys, op, u), id).Some? && SignatureOn(Apply(sys, op, u), id) != SignatureOn(sys, id)
    ensures op == Op.Sign(id) && id < |sys.releases| && sys.key.Some?
    ensures SignatureOn(Apply(sys, op, u), id) == Some(Releases.Sign(id, sys.releases[id], sys.key.value, u.crypto))
  {
    if op.Create? || op.Check? || op.Submit? || op.Deploy? { OthersDoNotSign(sys, op, u, id); }
  }

  lemma {:induction false} SignatureComesFromASign(start: System, ops: seq<Op>, u: Setup, id: nat)
    requires start.releases == [] && SignatureOn(Exec(start, ops, u), id).Some?
    ensures exists k :: 0 <= k < |ops| && Signs(start, ops, u, id, k, SignatureOn(Exec(start, ops, u), id).value)
  {
    if ops != [] {
      var rest, last := ops[..|ops| - 1], ops[|ops| - 1];
      var signature := SignatureOn(Exec(start, ops, u), id);
      if SignatureOn(Exec(start, rest, u), id) == signature {
        SignatureComesFromASign(start, rest, u, id);
        var k :| 0 <= k < |rest| && Signs(start, rest, u, id, k, signature.value);
        assert rest[..k] == ops[..k];
        assert Signs(start, ops, u, id, k, signature.value);
      } else {
        OnlySigningSigns(Exec(start, rest, u), last, u, id);
        assert Signs(start, ops, u, id, |ops| - 1, signature.value);
      }
    }
  }

  // ---- what is written ------------------------------------------------------------------

  /** No later item names the same artifact. */
  ghost predicate LastFor(items: seq<Item>, i: nat)
    requires i < |items|
  {
    forall j :: i < j < |items| ==> items[j].artifact != items[i].artifact
  }

  ghost predicate Named(items: seq<Item>, a: Artifact) {
    exists item <- items :: item.artifact == a
  }

  /** Forward to the release's target, or back to where each item came from. */
  datatype Direction = Forward(target: Environment) | Back

  function Where(d: Direction, item: Item): Environment {
    if d.Forward? then d.target else item.origin
  }

  /** `t` has the item's snapshot text, with the environment line moved. */
  ghost predicate ItemWritten(s: Store, t: Store, item: Item, d: Direction) {
    var a := item.artifact;
    && a in t.files && Find(s, a, item.revision).Some?
    && t.files[a] == WithEnvironment(a, Find(s, a, item.revision).value.content, Where(d, item))
  }

  ghost predicate Untouched(s: Store, t: Store, a: Artifact) {
    (a in t.files <==> a in s.files) && (a in s.files ==> t.files[a] == s.files[a])
  }

  /** Every item is written, the last item that names an artifact deciding, and no other file is touched. */
  ghost predicate Wrote(s: Store, t: Store, items: seq<Item>, d: Direction) {
    && (forall i :: 0 <= i < |items| && LastFor(items, i) ==> ItemWritten(s, t, items[i], d))
    && (forall a :: !Named(items, a) ==> Untouched(s, t, a))
  }

  lemma WroteOneMore(s: Store, mid: Store, t: Store, items: seq<Item>, item: Item, d: Direction)
    requires Wrote(s, mid, items, d) && ItemWritten(s, t, item, d)
    requires forall a :: a != item.artifact ==> Untouched(mid, t, a)
    ensures Wrote(s, t, items + [item], d)
  {
    var longer := items + [item];
    forall i | 0 <= i < |longer| && LastFor(longer, i) ensures ItemWritten(s, t, longer[i], d) {
      if i < |items| {
        LastForShorter(items, item, i);
        assert ItemWritten(s, mid, items[i], d) && Untouched(mid, t, items[i].artifact);
      }
    }
    forall a | !Named(longer, a) ensures Untouched(s, t, a) {
      NamedLonger(items, item, a);
      assert Untouched(s, mid, a) && Untouched(mid, t, a);
    }
  }

  lemma LastForShorter(items: seq<Item>, item: Item, i: nat)
    requires i < |items| && LastFor(items + [item], i)
    ensures LastFor(items, i) && items[i].artifact != item.artifact
  {
    var longer := items + [item];
    assert longer[|items|] == item;
    forall j | i < j < |items| ensures items[j].artifact != items[i].artifact {
      assert longer[j] == items[j];
    }
  }

  lemma NamedLonger(items: seq<Item>, item: Item, a: Artifact)
    requires !Named(items + [item], a)
    ensures !Named(items, a) && a != item.artifact
  {
    assert item in items + [item];
    forall x <- items ensures x.artifact != a { assert x in items + [item]; }
  }

  /** An item has a snapshot, and the newest snapshot of its artifact is of what is on disk now. */
  ghost predicate Captured(t: Store, item: Item, rd: Reader) {
    && item.revision > 0
    && item.artifact in t.files && Latest(t, item.artifact).Some?
    && Latest(t, item.artifact).value.fingerprint == rd.fingerprint(t.files[item.artifact])
  }

  lemma DeployItemWrites(s: Store, mid: Store, item: Item, target: Environment, rd: Reader)
    requires WellFormed(mid, rd) && Keeps(s, mid) && Find(s, item.artifact, item.revision).Some?
    ensures Find(mid, item.artifact, item.revision).Some?
    ensures
      var t := DeployItem(mid, item, target, rd);
      ItemWritten(s, t, item, Forward(target)) && forall a :: a != item.artifact ==> Untouched(mid, t, a)
  {
    FoundStaysFound(s, mid, item.artifact, item.revision);
    DeployItemKeeps(mid, item, target, rd);
  }

  lemma WroteWithOneMore(s: Store, mid: Store, rest: seq<Item>, item: Item, target: Environment, rd: Reader)
    requires WellFormed(mid, rd) && Keeps(s, mid) && Wrote(s, mid, rest, Forward(target))
    requires item.revision > 0 ==> ItemMatches(item, s)
    requires Find(mid, item.artifact, item.revision).Some?
    ensures Wrote(s, DeployItem(mid, item, target, rd), rest + [item], Forward(target))
  {
    DeployItemWrites(s, mid, item, target, rd);
    WroteOneMore(s, mid, DeployItem(mid, item, target, rd), rest, item, Forward(target));
  }

  lemma {:induction false} DeployItemsWrite(s: Store, items: seq<Item>, target: Environment, rd: Reader)
    requires WellFormed(s, rd) && ItemsMatch(items, s) && DeployItems(s, items, target, rd).1
    ensures Wrote(s, DeployItems(s, items, target, rd).0, items, Forward(target))
  {
    if items != [] {
      var rest, item := items[..|items| - 1], items[|items| - 1];
      var mid := DeployItems(s, rest, target, rd).0;
      assert items == rest + [item];
      DeployItemsWrite(s, rest, target, rd);
      WroteWithOneMore(s, mid, rest, item, target, rd) by {
        DeployItemsKeep(s, rest, target, rd);
        assert item in items && (item.revision > 0 ==> ItemMatches(item, s));
      }
    }
  }

  lemma StaysCaptured(mid: Store, item: Item, last: Item, target: Environment, rd: Reader)
    requires WellFormed(mid, rd) && Captured(mid, item, rd) && Find(mid, last.artifact, last.revision).Some?
    ensures Captured(DeployItem(mid, last, target, rd), item, rd)
  {
    DeployItemKeeps(mid, last, target, rd);
    assert item.artifact != last.artifact ==> History(DeployItem(mid, last, target, rd), item.artifact) == History(mid, item.artifact);
  }

  lemma {:induction false} DeployItemsCapture(s: Store, items: seq<Item>, target: Environment, rd: Reader)
    requires WellFormed(s, rd) && DeployItems(s, items, target, rd).1
    ensures forall item <- items :: Captured(DeployItems(s, items, target, rd).0, item, rd)
  {
    if items != [] {
      var rest, last := items[..|items| - 1], items[|items| - 1];
      assert items == rest + [last];
      DeployItemsCapture(s, rest, target, rd);
      var mid := DeployItems(s, rest, target, rd).0;
      AllCaptured(mid, rest, last, target, rd) by {
        DeployItemsKeep(s, rest, target, rd);
      }
    }
  }

  lemma AllCaptured(mid: Store, rest: seq<Item>, last: Item, target: Environment, rd: Reader)
    requires WellFormed(mid, rd) && Find(mid, last.artifact, last.revision).Some?
    requires forall item <- rest :: Captured(mid, item, rd)
    ensures forall item <- rest + [last] :: Captured(DeployItem(mid, last, target, rd), item, rd)
  {
    DeployItemKeeps(mid, last, target, rd);
    forall item <- rest + [last] ensures Captured(DeployItem(mid, last, target, rd), item, rd) {
      if item in rest { StaysCaptured(mid, item, last, target, rd); }
    }
  }

  lemma RestoreItemWrites(s: Store, mid: Store, item: Item)
    requires mid.history == s.history && Find(s, item.artifact, item.revision).Some?
    ensures
      var t := RestoreItem(mid, item);
      ItemWritten(s, t, item, Back) && forall a :: a != item.artifact ==> Untouched(mid, t, a)
  {
  }

  lemma {:induction false} RestoreItemsWrite(s: Store, items: seq<Item>)
    requires RestoreItems(s, items).1
    ensures Wrote(s, RestoreItems(s, items).0, items, Back)
  {
    if items != [] {
      var rest, item := items[..|items| - 1], items[|items| - 1];
      var mid := RestoreItems(s, rest).0;
      RestoreItemsWrite(s, rest);
      RestoreItemsKeep(s, rest);
      RestoreItemWrites(s, mid, item);
      WroteOneMore(s, mid, RestoreItem(mid, item), rest, item, Back);
      assert items == rest + [item];
    }
  }

  // ---- main results ---------------------------------------------------------------------------

  /** What has to hold for a deploy to succeed; `r` is the release with its gates and evidence checked again. */
  ghost predicate MayDeploy(sys: System, id: nat, r: Release, u: Setup) {
    && r.status == Status.Approved && r.problems == []
    && VerifyPromotion(id, r, sys.key, u.cfg, u.crypto).Ok?
    && DeployItems(sys.store, r.items, r.target, u.rd).1
  }

  lemma PromoteSucceedsIff(sys: System, id: nat, u: Setup)
    requires id < |sys.releases|
    ensures
      var r := sys.releases[id];
      && (Promote(sys, id, u.cfg, u.crypto, u.rd).1.Ok? <==> MayDeploy(sys, id, r, u))
      && (MayDeploy(sys, id, r, u) ==>
            Promote(sys, id, u.cfg, u.crypto, u.rd).0 ==
              System(sys.releases[id := r.(status := Deployed)], DeployItems(sys.store, r.items, r.target, u.rd).0, sys.key))
  {
  }

  /** A deploy succeeds exactly when these conditions hold, and then it does this. */
  lemma DeploySucceedsIff(sys: System, id: nat, facts: Facts, u: Setup)
    requires id < |sys.releases|
    ensures
      var r := Checked(sys.releases[id], sys.releases, facts);
      && (Try(sys, Op.Deploy(id, facts), u).1.Ok? <==> MayDeploy(sys, id, r, u))
      && (MayDeploy(sys, id, r, u) ==>
            Apply(sys, Op.Deploy(id, facts), u) ==
              System(sys.releases[id := r.(status := Deployed)], DeployItems(sys.store, r.items, r.target, u.rd).0, sys.key))
  {
    var checked := Releases.Check(sys, id, facts).0;
    PromoteSucceedsIff(checked, id, u);
  }

  /** Every item can be applied exactly when every item has a revision: then its snapshot exists, and still does when
      the items before it have been written. */
  lemma {:induction false} SnapshotsExistIff(s: Store, items: seq<Item>, target: Environment, rd: Reader)
    requires WellFormed(s, rd) && ItemsMatch(items, s)
    ensures DeployItems(s, items, target, rd).1 <==> forall item <- items :: item.revision > 0
    ensures DeployItems(s, items, target, rd).1 <==> forall item <- items :: Find(s, item.artifact, item.revision).Some?
  {
    if items != [] {
      var rest, last := items[..|items| - 1], items[|items| - 1];
      assert items == rest + [last] && last in items;
      SnapshotsExistIff(s, rest, target, rd);
      DeployItemsKeep(s, rest, target, rd);
      if last.revision > 0 {
        assert ItemMatches(last, s);
        FoundStaysFound(s, DeployItems(s, rest, target, rd).0, last.artifact, last.revision);
      }
    }
  }

  /** What can be seen before a deploy: the release is approved; every item has a revision, climbs one rung, was in staging
      before production, exists, passed its newest evaluation and is not blocked; the hash recorded at the vote, if any,
      is that of the manifest with today's evidence; and where a signature is required it is valid for that manifest. */
  ghost predicate ReadyToDeploy(sys: System, id: nat, facts: Facts, u: Setup)
    requires id < |sys.releases|
  {
    var r := sys.releases[id];
    var today := r.(evidence := Evidence(r.items, facts));
    && r.status == Status.Approved && r.items != []
    && (forall item <- r.items :: item.revision > 0 && ItemIsReady(item, r.target, sys.releases, facts))
    && r.approvedManifest in {None, Some(""), Some(u.crypto.hash(ManifestOf(id, today)))}
    && (r.target in u.cfg.signed ==> SignatureValid(id, today, sys.key, u.crypto))
  }

  lemma ReadyIffMayDeploy(sys: System, id: nat, facts: Facts, u: Setup)
    requires SystemOk(sys, u) && id < |sys.releases|
    ensures ReadyToDeploy(sys, id, facts, u) <==> MayDeploy(sys, id, Checked(sys.releases[id], sys.releases, facts), u)
  {
    var r := Checked(sys.releases[id], sys.releases, facts);
    assert sys.releases[id] in sys.releases;
    GatesAreClearIff(r.items, r.target, sys.releases, facts);
    SnapshotsExistIff(sys.store, r.items, r.target, u.rd);
    PromotionVerifiesIff(id, sys.releases[id].(evidence := r.evidence), r, sys.key, u);
  }

  /** A deploy goes through exactly when the release is ready; then every item is written and the release deployed. */
  lemma DeployGoesThroughIff(sys: System, id: nat, facts: Facts, u: Setup)
    requires SystemOk(sys, u) && id < |sys.releases|
    ensures Try(sys, Op.Deploy(id, facts), u).1.Ok? <==> ReadyToDeploy(sys, id, facts, u)
    ensures Try(sys, Op.Deploy(id, facts), u).1.Ok? ==>
      var next := Apply(sys, Op.Deploy(id, facts), u);
      id < |next.releases| && next.releases[id].status == Deployed && Wrote(sys.store, next.store, sys.releases[id].items, Forward(sys.releases[id].target))
  {
    DeploySucceedsIff(sys, id, facts, u);
    ReadyIffMayDeploy(sys, id, facts, u);
    if ReadyToDeploy(sys, id, facts, u) {
      assert sys.releases[id] in sys.releases;
      DeployItemsWrite(sys.store, sys.releases[id].items, sys.releases[id].target, u.rd);
    }
  }

  lemma PromotionVerifiesIff(id: nat, today: Release, r: Release, key: Option<Key>, u: Setup)
    requires r == today.(problems := r.problems)
    ensures VerifyPromotion(id, r, key, u.cfg, u.crypto).Ok? <==>
      && r.approvedManifest in {None, Some(""), Some(u.crypto.hash(ManifestOf(id, today)))}
      && (r.target in u.cfg.signed ==> SignatureValid(id, today, key, u.crypto))
  {
    assert ManifestOf(id, r) == ManifestOf(id, today);
  }

  /** The manifest on record at a deploy that succeeds is the manifest that is deployed. */
  lemma DeployedManifestIsOnRecord(sys: System, id: nat, facts: Facts, u: Setup)
    requires SystemOk(sys, u) && id < |sys.releases| && Try(sys, Op.Deploy(id, facts), u).1.Ok?
    requires Approval(sys, id) != Some("")
    ensures
      var next := Apply(sys, Op.Deploy(id, facts), u);
      id < |next.releases| && Approval(sys, id) == Some(u.crypto.hash(ManifestOf(id, next.releases[id])))
  {
    DeploySucceedsIff(sys, id, facts, u);
    assert sys.releases[id] in sys.releases;
  }

  /** After any run, a deploy that succeeds promotes the very manifest the quorum-closing vote saw. */
  lemma DeployIsWhatWasVoted(start: System, ops: seq<Op>, u: Setup, id: nat, facts: Facts)
    requires CollisionFree(u.crypto) && start.releases == [] && WellFormed(start.store, u.rd)
    requires id < |Exec(start, ops, u).releases| && Try(Exec(start, ops, u), Op.Deploy(id, facts), u).1.Ok?
    ensures
      var next := Apply(Exec(start, ops, u), Op.Deploy(id, facts), u);
      id < |next.releases| &&
      exists k :: 0 <= k < |ops| && ClosesQuorum(start, ops, u, id, k) &&
                  VotedManifest(start, ops, u, id, k) == ManifestOf(id, next.releases[id])
  {
    RunsKeepInvariant(start, ops, u);
    if Approval(Exec(start, ops, u), id) == Some("") { ApprovalComesFromAVote(start, ops, u, id); }
    DeployedManifestIsOnRecord(Exec(start, ops, u), id, facts, u);
    ApprovalComesFromAVote(start, ops, u, id);
  }

  /** The manifest release `id` had, and the key there was, before the operation at `k`. */
  ghost predicate SignedThen(start: System, ops: seq<Op>, u: Setup, id: nat, k: nat, manifest: Manifest, key: Option<Key>)
    requires k < |ops|
  {
    var before := Exec(start, ops[..k], u);
    ops[k] == Op.Sign(id) && id < |before.releases| && ManifestOf(id, before.releases[id]) == manifest && before.key == key
  }

  /** After any run, a deploy that succeeds where a signature is required promotes a manifest that was signed with the key
      there is now. */
  lemma DeployIsWhatWasSigned(start: System, ops: seq<Op>, u: Setup, id: nat, facts: Facts)
    requires CollisionFree(u.crypto) && start.releases == [] && WellFormed(start.store, u.rd)
    requires id < |Exec(start, ops, u).releases| && Try(Exec(start, ops, u), Op.Deploy(id, facts), u).1.Ok?
    requires Exec(start, ops, u).releases[id].target in u.cfg.signed
    ensures
      var sys := Exec(start, ops, u);
      var next := Apply(sys, Op.Deploy(id, facts), u);
      id < |next.releases| &&
      exists k :: 0 <= k < |ops| && SignedThen(start, ops, u, id, k, ManifestOf(id, next.releases[id]), sys.key)
  {
    var sys := Exec(start, ops, u);
    RunsKeepInvariant(start, ops, u);
    SuccessfulDeploy(sys, id, facts, u);
    DeploySucceedsIff(sys, id, facts, u);
    var r := Apply(sys, Op.Deploy(id, facts), u).releases[id];
    assert r.signature == SignatureOn(sys, id);
    SignatureComesFromASign(start, ops, u, id);
    var k :| 0 <= k < |ops| && Signs(start, ops, u, id, k, r.signature.value);
    var before := Exec(start, ops[..k], u);
    SignatureCoversManifestAndKey(id, before.releases[id], r, before.key.value, sys.key, u.crypto);
    assert SignedThen(start, ops, u, id, k, ManifestOf(id, r), sys.key);
  }

  /** Everything a successful deploy of `r` rests on, item by item. */
  ghost predicate WasReady(sys: System, r: Release, item: Item, facts: Facts) {
    ItemMatches(item, sys.store) && ItemIsReady(item, r.target, sys.releases, facts)
  }

  lemma ReadyItems(sys: System, id: nat, r: Release, facts: Facts, u: Setup)
    requires SystemOk(sys, u) && id < |sys.releases| && r == Checked(sys.releases[id], sys.releases, facts) && MayDeploy(sys, id, r, u)
    ensures
      var t := DeployItems(sys.store, r.items, r.target, u.rd).0;
      && Wrote(sys.store, t, r.items, Forward(r.target)) && Keeps(sys.store, t)
      && forall item <- r.items :: WasReady(sys, r, item, facts) && Captured(t, item, u.rd)
  {
    assert sys.releases[id] in sys.releases;
    DeployItemsWrite(sys.store, r.items, r.target, u.rd);
    DeployItemsKeep(sys.store, r.items, r.target, u.rd);
    DeployItemsCapture(sys.store, r.items, r.target, u.rd);
    GatesAreClearIff(r.items, r.target, sys.releases, facts);
  }

  /** A deploy that succeeds: each artifact has its snapshot's text with the environment line moved, a snapshot of
      the result is kept, nothing else is touched; every gate held, and where a signature is required it is valid. */
  lemma SuccessfulDeploy(sys: System, id: nat, facts: Facts, u: Setup)
    requires SystemOk(sys, u) && id < |sys.releases| && Try(sys, Op.Deploy(id, facts), u).1.Ok?
    ensures
      var next := Apply(sys, Op.Deploy(id, facts), u);
      id < |next.releases| &&
      var r := next.releases[id];
      && sys.releases[id].status == Status.Approved && r.status == Deployed
      && r.items == sys.releases[id].items && r.target == sys.releases[id].target
      && Wrote(sys.store, next.store, r.items, Forward(r.target)) && Keeps(sys.store, next.store)
      && (forall item <- r.items :: WasReady(sys, r, item, facts) && Captured(next.store, item, u.rd))
      && (r.target in u.cfg.signed ==> SignatureValid(id, r, sys.key, u.crypto))
  {
    DeploySucceedsIff(sys, id, facts, u);
    var r := Checked(sys.releases[id], sys.releases, facts);
    ReadyItems(sys, id, r, facts, u);
    forall item <- r.items ensures WasReady(sys, r.(status := Deployed), item, facts) {
      assert WasReady(sys, r, item, facts);
    }
  }

  /** What a rollback leaves of one item. */
  ghost predicate PutBack(s: Store, t: Store, item: Item) {
    var a, captured := item.artifact, Find(s, item.artifact, item.revision);
    && captured.Some? && a in t.files
    && t.files[a] == WithEnvironment(a, captured.value.content, item.origin)
    && (t.files[a] == captured.value.content <==>
          a.kind == Tool || EnvironmentLine.Canonical(captured.value.content, EnvironmentName(item.origin)))
  }

  lemma RestoredItemIsPutBack(s: Store, items: seq<Item>, i: nat)
    requires RestoreItems(s, items).1 && i < |items| && LastFor(items, i)
    ensures PutBack(s, RestoreItems(s, items).0, items[i])
  {
    RestoreItemsWrite(s, items);
    EnvironmentLine.SetLineIsIdentityIff(Find(s, items[i].artifact, items[i].revision).value.content, EnvironmentName(items[i].origin));
  }

  /** A rollback that succeeds puts back the snapshot the release itself captured, with the environment line set to
      where the item came from: the captured text exactly when that line was there in canonical spelling. */
  lemma SuccessfulRollback(sys: System, id: nat, author: string, u: Setup, i: nat)
    requires id < |sys.releases| && Try(sys, Op.Rollback(id, author), u).1.Ok?
    requires i < |sys.releases[id].items| && LastFor(sys.releases[id].items, i)
    ensures
      var next := Apply(sys, Op.Rollback(id, author), u);
      && PutBack(sys.store, next.store, sys.releases[id].items[i])
      && next.store.history == sys.store.history
      && |next.releases| == |sys.releases| + 1
      && next.releases[id].status == RolledBack
      && next.releases[|sys.releases|].rollbackOf == Some(id)
  {
    RestoredItemIsPutBack(sys.store, sys.releases[id].items, i);
    RestoreItemsKeep(sys.store, sys.releases[id].items);
  }

  /** Undoing what a deploy just wrote only moves its environment line: it does not bring back what was on disk
      before the deploy. */
  lemma UndoMovesOnlyTheEnvironmentLine(s: Store, items: seq<Item>, target: Environment, rd: Reader, i: nat)
    requires WellFormed(s, rd) && ItemsMatch(items, s) && DeployItems(s, items, target, rd).1
    requires i < |items| && LastFor(items, i)
    ensures
      var a, deployed := items[i].artifact, DeployItems(s, items, target, rd).0;
      var (undone, ok) := RestoreItems(deployed, items);
      && ok && a in deployed.files && a in undone.files
      && undone.files[a] == WithEnvironment(a, deployed.files[a], items[i].origin)
  {
    var item, deployed := items[i], DeployItems(s, items, target, rd).0;
    DeployItemsWrite(s, items, target, rd);
    DeployItemsKeep(s, items, target, rd);
    DeployItemsCapture(s, items, target, rd);
    forall it <- items ensures Find(deployed, it.artifact, it.revision).Some? {
      assert ItemMatches(it, s);
      FoundStaysFound(s, deployed, it.artifact, it.revision);
    }
    AllFoundAllRestored(deployed, items);
    RestoredItemIsPutBack(deployed, items, i);
    FoundStaysFound(s, deployed, item.artifact, item.revision);
    LastEnvironmentWins(item.artifact, Find(s, item.artifact, item.revision).value.content, target, item.origin);
  }

  lemma {:induction false} AllFoundAllRestored(s: Store, items: seq<Item>)
    requires forall item <- items :: Find(s, item.artifact, item.revision).Some?
    ensures RestoreItems(s, items).1
  {
    if items != [] {
      AllFoundAllRestored(s, items[..|items| - 1]);
      RestoreItemsKeep(s, items[..|items| - 1]);
      assert items[|items| - 1] in items;
    }
  }

  /** A deploy undone brings a file back exactly when, before the deploy, it already was the release's snapshot with the
      environment line set to where the item came from. Any other edit made since the release was created is gone. */
  lemma UndoRestoresTheFileIff(s: Store, items: seq<Item>, target: Environment, rd: Reader, i: nat)
    requires WellFormed(s, rd) && ItemsMatch(items, s) && DeployItems(s, items, target, rd).1
    requires i < |items| && LastFor(items, i) && items[i].artifact in s.files
    ensures
      var a, undone := items[i].artifact, RestoreItems(DeployItems(s, items, target, rd).0, items).0;
      && a in undone.files && Find(s, a, items[i].revision).Some?
      && (undone.files[a] == s.files[a] <==> s.files[a] == WithEnvironment(a, Find(s, a, items[i].revision).value.content, items[i].origin))
  {
    UndoMovesOnlyTheEnvironmentLine(s, items, target, rd, i);
    DeployItemsWrite(s, items, target, rd);
    LastEnvironmentWins(items[i].artifact, Find(s, items[i].artifact, items[i].revision).value.content, target, items[i].origin);
  }

  /** Deployed and rolled back, the file holds the text. */
  predicate ComesBackAs(sys: System, id: nat, facts: Facts, author: string, u: Setup, a: Artifact, text: string) {
    var (undone, outcome) := Try(Apply(sys, Op.Deploy(id, facts), u), Op.Rollback(id, author), u);
    Try(sys, Op.Deploy(id, facts), u).1.Ok? && outcome.Ok? && a in undone.store.files && undone.store.files[a] == text
  }

  /** The same for whole operations: a deploy that succeeds can be rolled back, which leaves the captured text with the
      environment line set to where the item came from. */
  lemma RollbackWritesTheCapture(sys: System, id: nat, facts: Facts, author: string, u: Setup, i: nat)
    requires SystemOk(sys, u) && id < |sys.releases| && Try(sys, Op.Deploy(id, facts), u).1.Ok?
    requires i < |sys.releases[id].items| && LastFor(sys.releases[id].items, i)
    ensures
      var item := sys.releases[id].items[i];
      && Find(sys.store, item.artifact, item.revision).Some?
      && ComesBackAs(sys, id, facts, author, u, item.artifact,
                     WithEnvironment(item.artifact, Find(sys.store, item.artifact, item.revision).value.content, item.origin))
  {
    assert sys.releases[id] in sys.releases;
    DeployedStore(sys, id, facts, u);
    RolledBackText(sys.store, sys.releases[id].items, sys.releases[id].target, u.rd, i);
    RolledBackStore(Apply(sys, Op.Deploy(id, facts), u), id, author, u);
  }

  lemma RolledBackText(s: Store, items: seq<Item>, target: Environment, rd: Reader, i: nat)
    requires WellFormed(s, rd) && ItemsMatch(items, s) && DeployItems(s, items, target, rd).1
    requires i < |items| && LastFor(items, i)
    ensures
      var item, (undone, ok) := items[i], RestoreItems(DeployItems(s, items, target, rd).0, items);
      && ok && item.artifact in undone.files && Find(s, item.artifact, item.revision).Some?
      && undone.files[item.artifact] == WithEnvironment(item.artifact, Find(s, item.artifact, item.revision).value.content, item.origin)
  {
    UndoMovesOnlyTheEnvironmentLine(s, items, target, rd, i);
    DeployItemsWrite(s, items, target, rd);
    LastEnvironmentWins(items[i].artifact, Find(s, items[i].artifact, items[i].revision).value.content, target, items[i].origin);
  }

  /** So the file is what it was before the deploy exactly when it was that text already. */
  lemma RollbackRestoresTheFileIff(sys: System, id: nat, facts: Facts, author: string, u: Setup, i: nat)
    requires SystemOk(sys, u) && id < |sys.releases| && Try(sys, Op.Deploy(id, facts), u).1.Ok?
    requires i < |sys.releases[id].items| && LastFor(sys.releases[id].items, i) && sys.releases[id].items[i].artifact in sys.store.files
    ensures
      var item := sys.releases[id].items[i];
      var (undone, outcome) := Try(Apply(sys, Op.Deploy(id, facts), u), Op.Rollback(id, author), u);
      && outcome.Ok? && item.artifact in undone.store.files && Find(sys.store, item.artifact, item.revision).Some?
      && (undone.store.files[item.artifact] == sys.store.files[item.artifact] <==>
            sys.store.files[item.artifact]
              == WithEnvironment(item.artifact, Find(sys.store, item.artifact, item.revision).value.content, item.origin))
  {
    RollbackWritesTheCapture(sys, id, facts, author, u, i);
  }

  lemma DeployedStore(sys: System, id: nat, facts: Facts, u: Setup)
    requires id < |sys.releases| && Try(sys, Op.Deploy(id, facts), u).1.Ok?
    ensures
      var r, next := sys.releases[id], Apply(sys, Op.Deploy(id, facts), u);
      && id < |next.releases| && next.releases[id].status == Deployed && next.releases[id].items == r.items
      && DeployItems(sys.store, r.items, r.target, u.rd) == (next.store, true)
  {
    DeploySucceedsIff(sys, id, facts, u);
  }

  lemma RolledBackStore(sys: System, id: nat, author: string, u: Setup)
    requires id < |sys.releases| && sys.releases[id].status == Deployed && RestoreItems(sys.store, sys.releases[id].items).1
    ensures Try(sys, Op.Rollback(id, author), u).1.Ok?
    ensures Try(sys, Op.Rollback(id, author), u).0.store == RestoreItems(sys.store, sys.releases[id].items).0
  {
  }

  /** Whether a release is ready does not depend on the files. */
  lemma ReadinessIgnoresFiles(sys: System, store: Store, id: nat, facts: Facts, u: Setup)
    requires id < |sys.releases|
    ensures ReadyToDeploy(sys.(store := store), id, facts, u) <==> ReadyToDeploy(sys, id, facts, u)
  {
  }

  lemma EditedIs(sys: System, a: Artifact, edit: string, u: Setup)
    ensures Apply(sys, Op.EditFile(a, edit), u) == sys.(store := Write(sys.store, a, edit))
  {
  }

  lemma EditedDeploys(sys: System, id: nat, facts: Facts, u: Setup, a: Artifact, edit: string)
    requires SystemOk(sys, u) && id < |sys.releases| && Try(sys, Op.Deploy(id, facts), u).1.Ok?
    ensures var edited := sys.(store := Write(sys.store, a, edit)); SystemOk(edited, u) && Try(edited, Op.Deploy(id, facts), u).1.Ok?
  {
    var edited := sys.(store := Write(sys.store, a, edit));
    assert SystemOk(edited, u) by { OperationKeeps(sys, Op.EditFile(a, edit), u); }
    assert ReadyToDeploy(sys, id, facts, u) by { DeployGoesThroughIff(sys, id, facts, u); }
    ReadinessIgnoresFiles(sys, edited.store, id, facts, u);
    assert Try(edited, Op.Deploy(id, facts), u).1.Ok? by { DeployGoesThroughIff(edited, id, facts, u); }
  }

  /** An edit between the vote and the deploy neither stops the deploy nor survives it: whatever was written, the rollback
      leaves the captured text with the environment line set to where the item came from. */
  lemma EditBeforeDeployIsLost(sys: System, id: nat, facts: Facts, author: string, u: Setup, i: nat, edit: string)
    requires SystemOk(sys, u) && id < |sys.releases| && Try(sys, Op.Deploy(id, facts), u).1.Ok?
    requires i < |sys.releases[id].items| && LastFor(sys.releases[id].items, i)
    ensures
      var item := sys.releases[id].items[i];
      && Find(sys.store, item.artifact, item.revision).Some?
      && ComesBackAs(Apply(sys, Op.EditFile(item.artifact, edit), u), id, facts, author, u, item.artifact,
                     WithEnvironment(item.artifact, Find(sys.store, item.artifact, item.revision).value.content, item.origin))
  {
    var item := sys.releases[id].items[i];
    var edited := sys.(store := Write(sys.store, item.artifact, edit));
    EditedDeploys(sys, id, facts, u, item.artifact, edit);
    RollbackWritesTheCapture(edited, id, facts, author, u, i);
    EditedIs(sys, item.artifact, edit, u);
  }

  const LOOKUP := Artifact(Tool, "lookup")

  /** A tool whose text is read as its own fingerprint; one vote is enough and nothing is signed. */
  function PlainSetup(c: Crypto): Setup {
    Setup(Config(1, 1, false, {}, {}), c, Reader(text => text, (kind, text) => "", (kind, text) => Development))
  }

  const PASSED := Facts({LOOKUP}, [EvaluationRun("e1", LOOKUP, true)], {})

  /** Created, submitted and approved. */
  function UpToTheVote(): seq<Op> {
    [Op.Create([LOOKUP], Staging, "ana", PASSED), Op.Submit(0, PASSED), Op.Approve(0, Some("bia"), {})]
  }

  function VotedRelease(c: Crypto): Release {
    var r := Release([Item(LOOKUP, "r1", 1, "captured", Development, Staging)], Staging, Status.Submitted, [], ["e1"], "ana",
                     [Vote("bia", true)], None, None, None);
    r.(status := Status.Approved, approvedManifest := Some(c.hash(ManifestOf(0, r))))
  }

  function CapturedStore(): Store {
    Store(map[LOOKUP := "captured"], map[LOOKUP := [Snapshot(1, "r1", "captured", "captured")]])
  }

  function DraftRelease(): Release {
    Release([Item(LOOKUP, "r1", 1, "captured", Development, Staging)], Staging, Draft, [], ["e1"], "ana", [], None, None, None)
  }

  lemma RunUpToTheVote(c: Crypto)
    ensures Exec(Empty(map[LOOKUP := "captured"], None), UpToTheVote(), PlainSetup(c)) == System([VotedRelease(c)], CapturedStore(), None)
  {
    ExecOfThree(Empty(map[LOOKUP := "captured"], None), Op.Create([LOOKUP], Staging, "ana", PASSED), Op.Submit(0, PASSED),
                Op.Approve(0, Some("bia"), {}), PlainSetup(c));
    CreatedRelease(c);
    SubmittedRelease();
    ApprovedRelease(c);
  }

  lemma ExecOfOneMore(sys: System, ops: seq<Op>, op: Op, u: Setup)
    ensures Exec(sys, ops + [op], u) == Apply(Exec(sys, ops, u), op, u)
  {
    assert (ops + [op])[..|ops|] == ops;
  }

  lemma ExecOfThree(sys: System, first: Op, second: Op, third: Op, u: Setup)
    ensures Exec(sys, [first, second, third], u) == Apply(Apply(Apply(sys, first, u), second, u), third, u)
  {
    ExecOfOneMore(sys, [], first, u);
    ExecOfOneMore(sys, [first], second, u);
    ExecOfOneMore(sys, [first, second], third, u);
    assert [] + [first] == [first] && [first] + [second] == [first, second] && [first, second] + [third] == [first, second, third];
  }

  lemma PlainGates(r: Release, releases: seq<Release>)
    requires r.items == DraftRelease().items && r.target == Staging
    ensures Checked(r, releases, PASSED) == r.(problems := [], evidence := ["e1"])
  {
    var item := r.items[0];
    assert r.items[..0] == [];
    assert PASSED.evaluations[1..] == [];
    assert RunsOf(PASSED.evaluations, LOOKUP) == PASSED.evaluations;
    assert AllItemProblems(r.items, Staging, releases, PASSED) == [] + ItemProblems(item, Staging, releases, PASSED);
    assert Evidence(r.items, PASSED) == [] + ["e1"];
  }

  function NewStore(): Store {
    Store(map[LOOKUP := "captured"], map[])
  }

  lemma CollectedItem(c: Crypto)
    ensures CollectOne(NewStore(), LOOKUP, Staging, PlainSetup(c).rd) == (CapturedStore(), DraftRelease().items[0])
  {
    var s, rd := NewStore(), PlainSetup(c).rd;
    assert Texts.Digits(1) == "1";
    assert VersionLabel("", 1) == "r1";
    assert NewSnapshot(s, LOOKUP, rd) == Snapshot(1, "r1", "captured", "captured");
    assert [] + [NewSnapshot(s, LOOKUP, rd)] == CapturedStore().history[LOOKUP];
    assert Take(s, LOOKUP, rd) == CapturedStore();
  }

  lemma CollectOfOne(s: Store, a: Artifact, target: Environment, rd: Reader)
    ensures Collect(s, [a], target, rd) == (CollectOne(s, a, target, rd).0, [CollectOne(s, a, target, rd).1])
  {
    assert [a][..0] == [];
    assert [] + [CollectOne(s, a, target, rd).1] == [CollectOne(s, a, target, rd).1];
  }

  lemma CreatedRelease(c: Crypto)
    ensures Releases.Create(System([], NewStore(), None), [LOOKUP], Staging, "ana", PASSED, PlainSetup(c).rd)
      == (System([DraftRelease()], CapturedStore(), None), Ok(()))
  {
    CollectOfOne(NewStore(), LOOKUP, Staging, PlainSetup(c).rd);
    CollectedItem(c);
    PlainGates(DraftRelease().(evidence := []), []);
    assert [] + [DraftRelease()] == [DraftRelease()];
  }

  lemma SubmittedRelease()
    ensures Releases.Submit(System([DraftRelease()], CapturedStore(), None), 0, PASSED)
      == (System([DraftRelease().(status := Status.Submitted)], CapturedStore(), None), Ok(()))
  {
    var draft := DraftRelease();
    PlainGates(draft, [draft]);
    assert [draft][0 := draft] == [draft] && [draft][0 := draft.(status := Status.Submitted)] == [draft.(status := Status.Submitted)];
  }

  lemma ApprovedRelease(c: Crypto)
    ensures Apply(System([DraftRelease().(status := Status.Submitted)], CapturedStore(), None), Op.Approve(0, Some("bia"), {}), PlainSetup(c))
      == System([VotedRelease(c)], CapturedStore(), None)
  {
    var votes := [Vote("bia", true)];
    assert Plainly("bia") == "bia" by { PlainBia(); }
    assert votes[..0] == [];
    assert Approvers(votes, None) == ["bia"];
  }

  lemma PlainBia()
    ensures Plainly("bia") == "bia"
  {
    assert "bia"[1..] == "ia" && "ia"[1..] == "a" && "a"[1..] == "";
    assert Plainly("a") == "a";
    assert Plainly("ia") == "ia";
  }

  lemma VotedIsReady(c: Crypto)
    ensures ReadyToDeploy(System([VotedRelease(c)], CapturedStore(), None), 0, PASSED, PlainSetup(c))
  {
    var r := VotedRelease(c);
    PlainGates(r, [r]);
    assert RunsOf(PASSED.evaluations, LOOKUP) == PASSED.evaluations;
    assert ItemIsReady(r.items[0], Staging, [r], PASSED);
  }

  /** A run that loses the edit. */
  lemma EditIsLostInARun(c: Crypto)
    ensures
      var u, voted := PlainSetup(c), Exec(Empty(map[LOOKUP := "captured"], None), UpToTheVote(), PlainSetup(c));
      ComesBackAs(Apply(voted, Op.EditFile(LOOKUP, "edited"), u), 0, PASSED, "ana", u, LOOKUP, "captured")
  {
    var u, voted := PlainSetup(c), System([VotedRelease(c)], CapturedStore(), None);
    assert SystemOk(Empty(map[LOOKUP := "captured"], None), u);
    RunsKeepInvariant(Empty(map[LOOKUP := "captured"], None), UpToTheVote(), u);
    RunUpToTheVote(c);
    VotedIsReady(c);
    DeployGoesThroughIff(voted, 0, PASSED, u);
    EditBeforeDeployIsLost(voted, 0, PASSED, "ana", u, 0, "edited");
  }
}
