/** Promotion of artifacts between environments: create, check, submit, vote, sign, reject, deploy, roll back.
    Each operation is a function on the whole system; refused operations say so and keep what the code keeps. */
module Releases {
  import opened Wrappers
  import opened Versions

  // ---- names ----------------------------------------------------------------

  const HUMAN := "human:"

  /** Remove every occurrence of the prefix, left to right. */
  function Plainly(name: string): string {
    if name == "" then ""
    else if HUMAN <= name then Plainly(name[|HUMAN|..])
    else [name[0]] + Plainly(name[1..])
  }

  /** How a voter is recorded: a name that is nothing but prefixes is kept whole. */
  function VoterName(name: string): string {
    if Plainly(name) == "" then name else Plainly(name)
  }

  // ---- data -----------------------------------------------------------------

  datatype Item = Item(
    artifact: Artifact, version: string, revision: nat, fingerprint: string, origin: Environment, target: Environment)

  datatype Vote = Vote(actor: string, approved: bool)

  datatype Status = Draft | Submitted | Approved | Deployed | Rejected | RolledBack

  /** Reasons why a release may not go on; only errors, warnings do not stop anything. */
  datatype Problem =
    | NoItems
    | DoesNotClimb(item: Item)
    | SkipsARung(item: Item)
    | NotDeployedToStaging(item: Item)
    | DoesNotExist(item: Item)
    | NeverEvaluated(item: Item)
    | LastEvaluationFailed(item: Item)
    | BlockedBySecurity(item: Item)

  datatype Manifest = Manifest(
    release: nat, target: Environment, items: seq<Item>, evidence: multiset<string>, createdBy: string)

  datatype Signature = Signature(manifestHash: string, keyId: string, value: string)

  datatype Key = Key(id: string, secret: string)

  datatype Release = Release(
    items: seq<Item>,
    target: Environment,
    status: Status,
    problems: seq<Problem>,
    evidence: seq<string>,
    createdBy: string,
    votes: seq<Vote>,
    signature: Option<Signature>,
    approvedManifest: Option<string>,
    rollbackOf: Option<nat>)

  datatype EvaluationRun = EvaluationRun(id: string, artifact: Artifact, passed: bool)

  /** What the rest of the runtime answers at the moment of an operation; evaluation runs come newest first. */
  datatype Facts = Facts(known: set<Artifact>, evaluations: seq<EvaluationRun>, blocked: set<Artifact>)

  datatype Config = Config(
    minApprovals: int,
    minApprovalsProduction: int,
    allowSelfApproval: bool,
    signed: set<Environment>,
    approverRoles: set<string>)

  /** The digests, idealised: `hash` of a manifest and `mac` of a hash under a key. */
  datatype Crypto = Crypto(hash: Manifest -> string, mac: (Key, string) -> string)

  /** A release's id is its position. */
  datatype System = System(releases: seq<Release>, store: Store, key: Option<Key>)

  datatype Refusal =
    | UnknownRelease | BadRequest | WrongStatus | GatesFailed | NotAuthorized | VotedBefore | RoleMayNotVote
    | ChangedSinceApproval | InvalidSignature | NoKey | SnapshotMissing

  type Outcome = Result<(), Refusal>

  // ---- gates ----------------------------------------------------------------

  predicate DeployedToStaging(releases: seq<Release>, a: Artifact) {
    exists r <- releases :: r.status == Deployed && r.target == Staging && exists item <- r.items :: item.artifact == a
  }

  function RunsOf(evaluations: seq<EvaluationRun>, a: Artifact): seq<EvaluationRun> {
    if evaluations == [] then []
    else (if evaluations[0].artifact == a then [evaluations[0]] else []) + RunsOf(evaluations[1..], a)
  }

  function EvidenceProblems(item: Item, facts: Facts): seq<Problem> {
    var runs := RunsOf(facts.evaluations, item.artifact);
    if runs == [] then [NeverEvaluated(item)] else if !runs[0].passed then [LastEvaluationFailed(item)] else []
  }

  function LadderProblems(item: Item, target: Environment, releases: seq<Release>): seq<Problem> {
    (if Rank(target) <= Rank(item.origin) then [DoesNotClimb(item)] else [])
    + (if Rank(target) - Rank(item.origin) > 1 then [SkipsARung(item)] else [])
    + (if target == Production && !DeployedToStaging(releases, item.artifact) then [NotDeployedToStaging(item)] else [])
  }

  function ArtifactProblems(item: Item, facts: Facts): seq<Problem> {
    if item.artifact !in facts.known then [DoesNotExist(item)]
    else EvidenceProblems(item, facts) + if item.artifact in facts.blocked then [BlockedBySecurity(item)] else []
  }

  function ItemProblems(item: Item, target: Environment, releases: seq<Release>, facts: Facts): seq<Problem> {
    LadderProblems(item, target, releases) + ArtifactProblems(item, facts)
  }

  function AllItemProblems(items: seq<Item>, target: Environment, releases: seq<Release>, facts: Facts): seq<Problem> {
    if items == [] then []
    else AllItemProblems(items[..|items| - 1], target, releases, facts) + ItemProblems(items[|items| - 1], target, releases, facts)
  }

  function Gates(r: Release, releases: seq<Release>, facts: Facts): seq<Problem> {
    if r.items == [] then [NoItems] else AllItemProblems(r.items, r.target, releases, facts)
  }

  /** The newest passed run of one artifact, if any. */
  function PassedRun(runs: seq<EvaluationRun>): Option<string> {
    if runs == [] then None else if runs[0].passed then Some(runs[0].id) else PassedRun(runs[1..])
  }

  /** Ids of the evaluations the release relies on, each once, in item order. */
  function Evidence(items: seq<Item>, facts: Facts): seq<string> {
    if items == [] then []
    else
      var ids := Evidence(items[..|items| - 1], facts);
      match PassedRun(RunsOf(facts.evaluations, items[|items| - 1].artifact))
      case None => ids
      case Some(id) => if id in ids then ids else ids + [id]
  }

  function Checked(r: Release, releases: seq<Release>, facts: Facts): Release {
    r.(problems := Gates(r, releases, facts), evidence := Evidence(r.items, facts))
  }

  // ---- quorum ---------------------------------------------------------------

  function Required(r: Release, cfg: Config): int {
    if r.target == Production then cfg.minApprovalsProduction else cfg.minApprovals
  }

  predicate AuthorExcluded(r: Release, cfg: Config) {
    Required(r, cfg) > 1 && !cfg.allowSelfApproval
  }

  /** The names that count, each once, in voting order. */
  function Approvers(votes: seq<Vote>, excluded: Option<string>): seq<string> {
    if votes == [] then []
    else
      var names, last := Approvers(votes[..|votes| - 1], excluded), votes[|votes| - 1];
      var name := Plainly(last.actor);
      if !last.approved || excluded == Some(name) || name in names then names else names + [name]
  }

  function Counted(r: Release, cfg: Config): seq<string> {
    Approvers(r.votes, if AuthorExcluded(r, cfg) then Some(Plainly(r.createdBy)) else None)
  }

  predicate Vetoed(r: Release) {
    exists v <- r.votes :: !v.approved
  }

  predicate QuorumMet(r: Release, cfg: Config) {
    |Counted(r, cfg)| >= Required(r, cfg) && !Vetoed(r)
  }

  // ---- manifest and signature -------------------------------------------------

  function ManifestOf(id: nat, r: Release): Manifest {
    Manifest(id, r.target, r.items, multiset(r.evidence), r.createdBy)
  }

  function Sign(id: nat, r: Release, key: Key, c: Crypto): Signature {
    var digest := c.hash(ManifestOf(id, r));
    Signature(digest, key.id, c.mac(key, digest))
  }

  predicate SignatureValid(id: nat, r: Release, key: Option<Key>, c: Crypto) {
    && r.signature.Some? && r.signature.value.value != ""
    && key.Some?
    && c.hash(ManifestOf(id, r)) == r.signature.value.manifestHash
    && (r.signature.value.keyId == "" || r.signature.value.keyId == key.value.id)
    && c.mac(key.value, c.hash(ManifestOf(id, r))) == r.signature.value.value
  }

  // ---- operations -------------------------------------------------------------

  /** Snapshot an artifact for a release; a missing one becomes an item without a revision. */
  function CollectOne(s: Store, a: Artifact, target: Environment, rd: Reader): (Store, Item) {
    if a !in s.files then (s, Item(a, "", 0, "", Development, target))
    else
      var after := Take(s, a, rd);
      var snap := History(after, a)[|History(after, a)| - 1];
      (after, Item(a, snap.version, snap.revision, snap.fingerprint, rd.environment(a.kind, snap.content), target))
  }

  function Collect(s: Store, artifacts: seq<Artifact>, target: Environment, rd: Reader): (Store, seq<Item>) {
    if artifacts == [] then (s, [])
    else
      var (before, items) := Collect(s, artifacts[..|artifacts| - 1], target, rd);
      var (after, item) := CollectOne(before, artifacts[|artifacts| - 1], target, rd);
      (after, items + [item])
  }

  function Create(sys: System, artifacts: seq<Artifact>, target: Environment, author: string, facts: Facts, rd: Reader): (System, Outcome) {
    if target == Development || artifacts == [] then (sys, Err(BadRequest))
    else
      var (store, items) := Collect(sys.store, artifacts, target, rd);
      var draft := Release(items, target, Draft, [], [], author, [], None, None, None);
      (sys.(store := store, releases := sys.releases + [Checked(draft, sys.releases, facts)]), Ok(()))
  }

  function Put(sys: System, id: nat, r: Release): System
    requires id < |sys.releases|
  {
    sys.(releases := sys.releases[id := r])
  }

  function Check(sys: System, id: nat, facts: Facts): (System, Outcome) {
    if id >= |sys.releases| then (sys, Err(UnknownRelease))
    else (Put(sys, id, Checked(sys.releases[id], sys.releases, facts)), Ok(()))
  }

  function Submit(sys: System, id: nat, facts: Facts): (System, Outcome) {
    var (checked, found) := Check(sys, id, facts);
    if found.Err? then (sys, found)
    else
      var r := checked.releases[id];
      if r.status != Draft then (checked, Err(WrongStatus))
      else if r.problems != [] then (checked, Err(GatesFailed))
      else (Put(checked, id, r.(status := Submitted)), Ok(()))
  }

  /** Who votes, once identity has been settled; `None` when it was refused. */
  function Approve(sys: System, id: nat, voter: Option<string>, roles: set<string>, cfg: Config, c: Crypto): (System, Outcome) {
    if id >= |sys.releases| then (sys, Err(UnknownRelease))
    else
      var r := sys.releases[id];
      if r.status != Submitted then (sys, Err(WrongStatus))
      else if voter.None? then (sys, Err(NotAuthorized))
      else
        var name := VoterName(voter.value);
        if exists v <- r.votes :: v.actor == name then (sys, Err(VotedBefore))
        else if cfg.approverRoles != {} && roles != {} && roles !! cfg.approverRoles then (sys, Err(RoleMayNotVote))
        else
          var voted := r.(votes := r.votes + [Vote(name, true)]);
          if QuorumMet(voted, cfg) then
            (Put(sys, id, voted.(status := Approved, approvedManifest := Some(c.hash(ManifestOf(id, voted))))), Ok(()))
          else (Put(sys, id, voted), Ok(()))
  }

  function SignRelease(sys: System, id: nat, c: Crypto): (System, Outcome) {
    if id >= |sys.releases| then (sys, Err(UnknownRelease))
    else
      var r := sys.releases[id];
      if r.status in {Draft, Rejected, RolledBack} then (sys, Err(WrongStatus))
      else if sys.key.None? then (sys, Err(NoKey))
      else (Put(sys, id, r.(signature := Some(Sign(id, r, sys.key.value, c)))), Ok(()))
  }

  function Reject(sys: System, id: nat, actor: string): (System, Outcome) {
    if id >= |sys.releases| then (sys, Err(UnknownRelease))
    else
      var r := sys.releases[id];
      if r.status == Deployed || r.status == RolledBack then (sys, Err(WrongStatus))
      else (Put(sys, id, r.(votes := r.votes + [Vote(Plainly(actor), false)], status := Rejected)), Ok(()))
  }

  /** Write one snapshot, move its environment line, and snapshot the result. */
  function DeployItem(s: Store, item: Item, target: Environment, rd: Reader): Store
    requires Find(s, item.artifact, item.revision).Some?
  {
    var content := Find(s, item.artifact, item.revision).value.content;
    Take(SetEnvironment(Write(s, item.artifact, content), item.artifact, target), item.artifact, rd)
  }

  /** Items in order; stops at the first whose snapshot is gone, keeping what was written before. */
  function DeployItems(s: Store, items: seq<Item>, target: Environment, rd: Reader): (Store, bool) {
    if items == [] then (s, true)
    else
      var (before, ok) := DeployItems(s, items[..|items| - 1], target, rd);
      var item := items[|items| - 1];
      if !ok || Find(before, item.artifact, item.revision).None? then (before, false)
      else (DeployItem(before, item, target, rd), true)
  }

  /** What is applied must be what was voted, and signed where the environment asks for it. */
  function VerifyPromotion(id: nat, r: Release, key: Option<Key>, cfg: Config, c: Crypto): Outcome {
    if r.approvedManifest.Some? && r.approvedManifest.value != "" && r.approvedManifest.value != c.hash(ManifestOf(id, r)) then
      Err(ChangedSinceApproval)
    else if r.target in cfg.signed && !SignatureValid(id, r, key, c) then Err(InvalidSignature)
    else Ok(())
  }

  /** Apply a release whose gates were just checked again. */
  function Promote(sys: System, id: nat, cfg: Config, c: Crypto, rd: Reader): (System, Outcome)
    requires id < |sys.releases|
  {
    var r := sys.releases[id];
    if r.status != Approved then (sys, Err(WrongStatus))
    else if r.problems != [] then (sys, Err(GatesFailed))
    else if VerifyPromotion(id, r, sys.key, cfg, c).Err? then (sys, VerifyPromotion(id, r, sys.key, cfg, c))
    else
      var (store, ok) := DeployItems(sys.store, r.items, r.target, rd);
      if !ok then (sys.(store := store), Err(SnapshotMissing))
      else (Put(sys, id, r.(status := Deployed)).(store := store), Ok(()))
  }

  function Deploy(sys: System, id: nat, facts: Facts, cfg: Config, c: Crypto, rd: Reader): (System, Outcome) {
    var (checked, found) := Check(sys, id, facts);
    if found.Err? then (sys, found) else Promote(checked, id, cfg, c, rd)
  }

  /** Write the captured snapshot back and set the environment line to where the item came from. */
  function RestoreItem(s: Store, item: Item): Store
    requires Find(s, item.artifact, item.revision).Some?
  {
    SetEnvironment(Write(s, item.artifact, Find(s, item.artifact, item.revision).value.content), item.artifact, item.origin)
  }

  function RestoreItems(s: Store, items: seq<Item>): (Store, bool) {
    if items == [] then (s, true)
    else
      var (before, ok) := RestoreItems(s, items[..|items| - 1]);
      var item := items[|items| - 1];
      if !ok || Find(before, item.artifact, item.revision).None? then (before, false)
      else (RestoreItem(before, item), true)
  }

  function Rollback(sys: System, id: nat, author: string): (System, Outcome) {
    if id >= |sys.releases| then (sys, Err(UnknownRelease))
    else
      var r := sys.releases[id];
      if r.status != Deployed then (sys, Err(WrongStatus))
      else
        var (store, ok) := RestoreItems(sys.store, r.items);
        if !ok then (sys.(store := store), Err(SnapshotMissing))
        else
          var undone := Release(r.items, r.target, RolledBack, [], [], author, [], None, None, Some(id));
          (System(sys.releases[id := r.(status := RolledBack)] + [undone], store, sys.key), Ok(()))
  }
}
