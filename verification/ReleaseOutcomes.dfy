/** When each operation on a release goes through, and what it leaves: votes, vetoes, signatures, submissions, creations. */
module ReleaseOutcomes {
  import opened Wrappers
  import opened Versions
  import opened Releases
  import opened ReleaseRuns

  // ---- names --------------------------------------------------------------------

  /** The prefix goes wherever it leads a name, and however often. */
  lemma PrefixIsDropped(name: string)
    ensures Plainly("human:" + name) == Plainly(name)
  {
    assert ("human:" + name)[..|HUMAN|] == HUMAN;
    assert ("human:" + name)[|HUMAN|..] == name;
  }

  ghost predicate Mentions(name: string, i: nat) {
    i + |"human:"| <= |name| && name[i..i + |"human:"|] == "human:"
  }

  /** A name without the prefix anywhere in it is left as it is. */
  lemma {:induction false} PlainNameStays(name: string)
    requires forall i: nat :: !Mentions(name, i)
    ensures Plainly(name) == name
  {
    if name != "" {
      assert !Mentions(name, 0);
      forall i: nat ensures !Mentions(name[1..], i) {
        assert !Mentions(name, i + 1);
        if i + |HUMAN| <= |name[1..]| { assert name[1..][i..i + |HUMAN|] == name[i + 1..i + 1 + |HUMAN|]; }
      }
      PlainNameStays(name[1..]);
    }
  }

  // ---- people -------------------------------------------------------------------

  /** The people who approved, less the excluded one. */
  ghost function People(votes: seq<Vote>, excluded: Option<string>): set<string> {
    set v | v in votes && v.approved && excluded != Some(Plainly(v.actor)) :: Plainly(v.actor)
  }

  lemma {:induction false} DistinctNamesCount(names: seq<string>)
    requires Distinct(names)
    ensures |names| == |set name | name in names|
  {
    if names != [] {
      var rest, last := names[..|names| - 1], names[|names| - 1];
      DistinctNamesCount(rest);
      assert names == rest + [last];
      assert (set name | name in names) == (set name | name in rest) + {last};
    }
  }

  lemma CountedArePeople(votes: seq<Vote>, excluded: Option<string>)
    ensures |Approvers(votes, excluded)| == |People(votes, excluded)|
  {
    var names := Approvers(votes, excluded);
    ApproversAreDistinctPeople(votes, excluded);
    DistinctNamesCount(names);
    forall name ensures name in names <==> name in People(votes, excluded) {
      if ReleaseRuns.Approved(votes, name) && excluded != Some(name) {
        var v :| v in votes && v.approved && Plainly(v.actor) == name;
        assert name in People(votes, excluded);
      }
    }
    assert (set name | name in names) == People(votes, excluded);
  }

  function Needed(target: Environment, cfg: Config): int {
    match target
    case Production => cfg.minApprovalsProduction
    case _ => cfg.minApprovals
  }

  /** As many people as the target needs approved, the author not among them where one person is not enough and self-approval
      is off, and nobody vetoed. */
  ghost predicate EnoughPeople(r: Release, cfg: Config) {
    && (forall v <- r.votes :: v.approved)
    && var n := Needed(r.target, cfg);
    |People(r.votes, if n > 1 && !cfg.allowSelfApproval then Some(Plainly(r.createdBy)) else None)| >= n
  }

  lemma QuorumIsEnoughPeople(r: Release, cfg: Config)
    ensures QuorumMet(r, cfg) <==> EnoughPeople(r, cfg)
  {
    CountedArePeople(r.votes, None);
    CountedArePeople(r.votes, Some(Plainly(r.createdBy)));
  }

  // ---- votes --------------------------------------------------------------------

  /** A voter whose roles are known has one of the approver roles, if there are any. */
  ghost predicate RoleMayVote(roles: set<string>, cfg: Config) {
    cfg.approverRoles == {} || roles == {} || exists role :: role in roles && role in cfg.approverRoles
  }

  /** The name a voter votes under: without the prefixes, unless nothing would be left. */
  ghost predicate VotesAs(voter: string, name: string) {
    (Plainly(voter) != "" && name == Plainly(voter)) || (Plainly(voter) == "" && name == voter)
  }

  ghost predicate MayVote(r: Release, voter: Option<string>, roles: set<string>, name: string, cfg: Config) {
    && r.status == Submitted && voter.Some? && VotesAs(voter.value, name)
    && (forall v <- r.votes :: v.actor != name)
    && RoleMayVote(roles, cfg)
  }

  /** A vote is accepted exactly on a submitted release, from an identified voter nobody voted as before, with a fitting role. */
  lemma VoteIsAcceptedIff(sys: System, id: nat, voter: Option<string>, roles: set<string>, u: Setup)
    ensures Try(sys, Op.Approve(id, voter, roles), u).1.Ok? <==>
      id < |sys.releases| && exists name :: MayVote(sys.releases[id], voter, roles, name, u.cfg)
    ensures Try(sys, Op.Approve(id, voter, roles), u).1.Err? ==> Apply(sys, Op.Approve(id, voter, roles), u) == sys
  {
    if id < |sys.releases| && voter.Some? && sys.releases[id].status == Submitted {
      var name := VoterName(voter.value);
      assert VotesAs(voter.value, name);
      assert RoleMayVote(roles, u.cfg) <==> !(u.cfg.approverRoles != {} && roles != {} && roles !! u.cfg.approverRoles);
      if (forall v <- sys.releases[id].votes :: v.actor != name) && RoleMayVote(roles, u.cfg) {
        assert MayVote(sys.releases[id], voter, roles, name, u.cfg);
      }
    }
  }

  /** An accepted vote adds itself; it approves the release, and records the manifest, exactly when enough people have
      now approved, and changes nothing else. */
  lemma AcceptedVote(sys: System, id: nat, voter: Option<string>, roles: set<string>, name: string, u: Setup)
    requires id < |sys.releases| && MayVote(sys.releases[id], voter, roles, name, u.cfg)
    ensures
      var r, next := sys.releases[id], Apply(sys, Op.Approve(id, voter, roles), u);
      var voted := r.(votes := r.votes + [Vote(name, true)]);
      && next.store == sys.store && next.key == sys.key && |next.releases| == |sys.releases|
      && (forall other :: 0 <= other < |sys.releases| && other != id ==> next.releases[other] == sys.releases[other])
      && next.releases[id] == if EnoughPeople(voted, u.cfg)
                                then voted.(status := Status.Approved, approvedManifest := Some(u.crypto.hash(ManifestOf(id, voted))))
                                else voted
  {
    var r := sys.releases[id];
    QuorumIsEnoughPeople(r.(votes := r.votes + [Vote(name, true)]), u.cfg);
    assert name == VoterName(voter.value);
    assert !(exists v <- r.votes :: v.actor == name);
  }

  /** The operation cast the vote. */
  ghost predicate Casts(op: Op, id: nat, v: Vote, cfg: Config) {
    if v.approved then op.Approve? && op.id == id && op.voter.Some? && VotesAs(op.voter.value, v.actor) && RoleMayVote(op.roles, cfg)
    else op.Reject? && op.id == id && v.actor == Plainly(op.actor)
  }

  ghost predicate WasCast(ops: seq<Op>, id: nat, v: Vote, cfg: Config) {
    exists op <- ops :: Casts(op, id, v, cfg)
  }

  function Votes(sys: System, id: nat): seq<Vote> {
    if id < |sys.releases| then sys.releases[id].votes else []
  }

  /** The votes stayed, or one was added that the operation cast. */
  ghost predicate AddsWhatItCasts(before: seq<Vote>, after: seq<Vote>, op: Op, id: nat, cfg: Config) {
    after == before || (|after| == |before| + 1 && after[..|before|] == before && Casts(op, id, after[|before|], cfg))
  }

  /** One operation adds at most the one vote it casts. */
  lemma OneVoteAtATime(sys: System, op: Op, u: Setup, id: nat)
    ensures AddsWhatItCasts(Votes(sys, id), Votes(Apply(sys, op, u), id), op, id, u.cfg)
  {
    match op
    case Approve(at, voter, roles) => ApproveCasts(sys, at, voter, roles, u, id);
    case Reject(at, actor) => RejectCasts(sys, at, actor, u, id);
    case Create(artifacts, target, author, facts) => CreateCastsNothing(sys, artifacts, target, author, facts, u, id);
    case Submit(at, facts) => SubmitCastsNothing(sys, at, facts, u, id);
    case Deploy(at, facts) => DeployCastsNothing(sys, at, facts, u, id);
    case Rollback(at, author) => RollbackCastsNothing(sys, at, author, u, id);
    case _ =>
  }

  lemma RejectCasts(sys: System, at: nat, actor: string, u: Setup, id: nat)
    ensures AddsWhatItCasts(Votes(sys, id), Votes(Apply(sys, Op.Reject(at, actor), u), id), Op.Reject(at, actor), id, u.cfg)
  {
  }

  lemma CreateCastsNothing(sys: System, artifacts: seq<Artifact>, target: Environment, author: string, facts: Facts, u: Setup, id: nat)
    ensures Votes(Apply(sys, Op.Create(artifacts, target, author, facts), u), id) == Votes(sys, id)
  {
  }

  lemma SubmitCastsNothing(sys: System, at: nat, facts: Facts, u: Setup, id: nat)
    ensures Votes(Apply(sys, Op.Submit(at, facts), u), id) == Votes(sys, id)
  {
  }

  lemma RollbackCastsNothing(sys: System, at: nat, author: string, u: Setup, id: nat)
    ensures Votes(Apply(sys, Op.Rollback(at, author), u), id) == Votes(sys, id)
  {
  }

  lemma DeployCastsNothing(sys: System, at: nat, facts: Facts, u: Setup, id: nat)
    ensures Votes(Apply(sys, Op.Deploy(at, facts), u), id) == Votes(sys, id)
  {
    if at < |sys.releases| {
      var checked := Releases.Check(sys, at, facts).0;
      assert Votes(checked, id) == Votes(sys, id);
      PromoteCastsNothing(checked, at, u, id);
    }
  }

  lemma PromoteCastsNothing(sys: System, at: nat, u: Setup, id: nat)
    requires at < |sys.releases|
    ensures Votes(Promote(sys, at, u.cfg, u.crypto, u.rd).0, id) == Votes(sys, id)
  {
  }

  lemma ApproveCasts(sys: System, at: nat, voter: Option<string>, roles: set<string>, u: Setup, id: nat)
    ensures AddsWhatItCasts(Votes(sys, id), Votes(Apply(sys, Op.Approve(at, voter, roles), u), id), Op.Approve(at, voter, roles), id, u.cfg)
  {
    VoteIsAcceptedIff(sys, at, voter, roles, u);
    if at < |sys.releases| && exists name :: MayVote(sys.releases[at], voter, roles, name, u.cfg) {
      var name :| MayVote(sys.releases[at], voter, roles, name, u.cfg);
      AcceptedVote(sys, at, voter, roles, name, u);
    }
  }

  /** After any run: every approving vote was cast by an identified voter with a fitting role, every veto by a rejection. */
  lemma {:induction false} EveryVoteWasCast(start: System, ops: seq<Op>, u: Setup, id: nat)
    requires start.releases == []
    ensures forall v <- Votes(Exec(start, ops, u), id) :: WasCast(ops, id, v, u.cfg)
  {
    if ops != [] {
      var rest, last := ops[..|ops| - 1], ops[|ops| - 1];
      var before := Exec(start, rest, u);
      EveryVoteWasCast(start, rest, u, id);
      OneVoteAtATime(before, last, u, id);
      forall v <- Votes(Exec(start, ops, u), id) ensures WasCast(ops, id, v, u.cfg) {
        if v in Votes(before, id) {
          var op :| op in rest && Casts(op, id, v, u.cfg);
          assert op in ops;
        } else {
          assert last in ops && Casts(last, id, v, u.cfg);
        }
      }
    }
  }

  // ---- the other operations ---------------------------------------------------------

  /** Only this release changed, to `t`. */
  ghost predicate OnlyChanged(sys: System, next: System, id: nat, t: Release) {
    && next.store == sys.store && next.key == sys.key && |next.releases| == |sys.releases| && id < |sys.releases|
    && next.releases[id] == t
    && forall other :: 0 <= other < |sys.releases| && other != id ==> next.releases[other] == sys.releases[other]
  }

  /** A veto goes through exactly before the deploy, and rejects the release for good. */
  lemma RejectGoesThroughIff(sys: System, id: nat, actor: string, u: Setup)
    ensures
      var (next, out) := Try(sys, Op.Reject(id, actor), u);
      && (out.Ok? <==> id < |sys.releases| && sys.releases[id].status in {Draft, Submitted, Status.Approved, Status.Rejected})
      && (out.Ok? ==> OnlyChanged(sys, next, id, sys.releases[id].(votes := sys.releases[id].votes + [Vote(Plainly(actor), false)],
                                                                     status := Status.Rejected)))
      && (out.Err? ==> next == sys)
  {
  }

  /** Signing goes through exactly with a key, for a release submitted, approved or deployed; a signature that is not the
      empty text is then valid. */
  lemma SignGoesThroughIff(sys: System, id: nat, u: Setup)
    ensures
      var (next, out) := Try(sys, Op.Sign(id), u);
      && (out.Ok? <==> id < |sys.releases| && sys.key.Some? && sys.releases[id].status in {Submitted, Status.Approved, Deployed})
      && (out.Ok? ==> && next.releases[id].signature.Some?
                      && OnlyChanged(sys, next, id, sys.releases[id].(signature := next.releases[id].signature))
                      && (next.releases[id].signature.value.value != "" ==> SignatureValid(id, next.releases[id], sys.key, u.crypto)))
      && (out.Err? ==> next == sys)
  {
    if id < |sys.releases| {
      var r := sys.releases[id];
      assert r.status.Draft? || r.status.Rejected? || r.status.RolledBack? || r.status.Submitted? || r.status.Approved? || r.status.Deployed?;
      if sys.key.Some? {
        var signature := Releases.Sign(id, r, sys.key.value, u.crypto);
        assert ManifestOf(id, r.(signature := Some(signature))) == ManifestOf(id, r);
      }
    }
  }

  /** A draft is submitted exactly when it has items and each is ready. */
  lemma SubmitGoesThroughIff(sys: System, id: nat, facts: Facts, u: Setup)
    ensures
      var (next, out) := Try(sys, Op.Submit(id, facts), u);
      && (out.Ok? <==>
            && id < |sys.releases| && sys.releases[id].status == Draft && sys.releases[id].items != []
            && forall item <- sys.releases[id].items :: ItemIsReady(item, sys.releases[id].target, sys.releases, facts))
      && (out.Ok? ==> next.releases[id].status == Submitted)
  {
    if id < |sys.releases| {
      var r, checked := sys.releases[id], Releases.Check(sys, id, facts).0;
      GatesAreClearIff(r.items, r.target, sys.releases, facts);
      assert checked.releases[id] == Checked(r, sys.releases, facts);
      assert Gates(r, sys.releases, facts) == [] <==> r.items != [] && AllItemProblems(r.items, r.target, sys.releases, facts) == [];
    }
  }

  /** A rollback goes through exactly for a deployed release whose items all have a revision. */
  lemma RollbackGoesThroughIff(sys: System, id: nat, author: string, u: Setup)
    requires SystemOk(sys, u)
    ensures Try(sys, Op.Rollback(id, author), u).1.Ok? <==>
      id < |sys.releases| && sys.releases[id].status == Deployed && forall item <- sys.releases[id].items :: item.revision > 0
  {
    if id < |sys.releases| {
      assert sys.releases[id] in sys.releases;
      RestoresIff(sys.store, sys.releases[id].items);
    }
  }

  lemma {:induction false} RestoresIff(s: Store, items: seq<Item>)
    requires ItemsMatch(items, s)
    ensures RestoreItems(s, items).1 <==> forall item <- items :: item.revision > 0
  {
    if items != [] {
      var rest, last := items[..|items| - 1], items[|items| - 1];
      assert items == rest + [last] && last in items;
      RestoresIff(s, rest);
      RestoreItemsKeep(s, rest);
      assert last.revision > 0 ==> ItemMatches(last, s);
    }
  }

  // ---- evidence -------------------------------------------------------------------

  /** The newest evaluation that the artifact passed has this id. */
  ghost predicate NewestPass(evaluations: seq<EvaluationRun>, a: Artifact, id: string) {
    exists k :: 0 <= k < |evaluations| && evaluations[k] == EvaluationRun(id, a, true) && NonePassedBefore(evaluations, a, k)
  }

  ghost predicate NonePassedBefore(evaluations: seq<EvaluationRun>, a: Artifact, k: nat)
    requires k <= |evaluations|
  {
    forall j :: 0 <= j < k ==> evaluations[j].artifact != a || !evaluations[j].passed
  }

  lemma NewestPassLater(evaluations: seq<EvaluationRun>, a: Artifact, id: string)
    requires evaluations != [] && (evaluations[0].artifact != a || !evaluations[0].passed)
    ensures NewestPass(evaluations, a, id) <==> NewestPass(evaluations[1..], a, id)
  {
    var rest := evaluations[1..];
    if NewestPass(rest, a, id) {
      var k :| 0 <= k < |rest| && rest[k] == EvaluationRun(id, a, true) && NonePassedBefore(rest, a, k);
      assert evaluations[k + 1] == rest[k] && NonePassedBefore(evaluations, a, k + 1);
    }
    if NewestPass(evaluations, a, id) {
      var k :| 0 <= k < |evaluations| && evaluations[k] == EvaluationRun(id, a, true) && NonePassedBefore(evaluations, a, k);
      assert rest[k - 1] == evaluations[k] && NonePassedBefore(rest, a, k - 1);
    }
  }

  lemma NewestPassFirst(evaluations: seq<EvaluationRun>, a: Artifact, id: string)
    requires evaluations != [] && evaluations[0].artifact == a && evaluations[0].passed
    ensures NewestPass(evaluations, a, id) <==> evaluations[0].id == id
  {
    assert evaluations[0] == EvaluationRun(evaluations[0].id, a, true) && NonePassedBefore(evaluations, a, 0);
  }

  lemma {:induction false} PassedRunIsNewest(evaluations: seq<EvaluationRun>, a: Artifact, id: string)
    ensures PassedRun(RunsOf(evaluations, a)) == Some(id) <==> NewestPass(evaluations, a, id)
  {
    if evaluations != [] {
      var first, rest := evaluations[0], evaluations[1..];
      assert ([first] + RunsOf(rest, a))[1..] == RunsOf(rest, a);
      assert [] + RunsOf(rest, a) == RunsOf(rest, a);
      if first.artifact == a && first.passed {
        NewestPassFirst(evaluations, a, id);
      } else {
        PassedRunIsNewest(rest, a, id);
        NewestPassLater(evaluations, a, id);
      }
    }
  }

  ghost predicate Supports(items: seq<Item>, facts: Facts, id: string) {
    exists item <- items :: NewestPass(facts.evaluations, item.artifact, id)
  }

  /** The evidence is the newest passed evaluation of each item, each id once. */
  lemma {:induction false} EvidenceIsNewestPasses(items: seq<Item>, facts: Facts)
    ensures Distinct(Evidence(items, facts)) && forall id :: id in Evidence(items, facts) <==> Supports(items, facts, id)
  {
    if items != [] {
      var rest, last := items[..|items| - 1], items[|items| - 1];
      assert items == rest + [last];
      EvidenceIsNewestPasses(rest, facts);
      forall id ensures id in Evidence(items, facts) <==> Supports(items, facts, id) {
        PassedRunIsNewest(facts.evaluations, last.artifact, id);
        if Supports(rest, facts, id) {
          var item :| item in rest && NewestPass(facts.evaluations, item.artifact, id);
          assert item in items;
        }
        if NewestPass(facts.evaluations, last.artifact, id) { assert last in items; }
      }
    }
  }

  // ---- creation -------------------------------------------------------------------

  /** The item stands for the artifact as it was on disk: its snapshot has the fingerprint of the file and says which
      environment it comes from; an artifact without a file has no revision. */
  ghost predicate StandsFor(s: Store, t: Store, item: Item, a: Artifact, target: Environment, rd: Reader) {
    && item.artifact == a && item.target == target
    && (item.revision > 0 <==> a in s.files)
    && (a !in s.files ==> item.version == "" && item.fingerprint == "" && item.origin == Development)
    && (a in s.files ==>
          && item.fingerprint == rd.fingerprint(s.files[a])
          && Find(t, a, item.revision).Some?
          && var snap := Find(t, a, item.revision).value;
             snap.fingerprint == item.fingerprint && snap.version == item.version && rd.environment(a.kind, snap.content) == item.origin)
  }

  lemma StillStandsFor(s: Store, t: Store, v: Store, item: Item, a: Artifact, target: Environment, rd: Reader)
    requires StandsFor(s, t, item, a, target, rd) && Keeps(t, v)
    ensures StandsFor(s, v, item, a, target, rd)
  {
    if a in s.files { FoundStaysFound(t, v, a, item.revision); }
  }

  lemma OneStandsFor(s: Store, a: Artifact, target: Environment, rd: Reader)
    requires WellFormed(s, rd)
    ensures var (t, item) := CollectOne(s, a, target, rd); StandsFor(s, t, item, a, target, rd)
  {
    if a in s.files { TakeKeeps(s, a, rd); }
  }

  lemma {:induction false} AllStandFor(s: Store, artifacts: seq<Artifact>, target: Environment, rd: Reader)
    requires WellFormed(s, rd)
    ensures
      var (t, items) := Collect(s, artifacts, target, rd);
      |items| == |artifacts| && forall i :: 0 <= i < |items| ==> StandsFor(s, t, items[i], artifacts[i], target, rd)
  {
    if artifacts != [] {
      var n := |artifacts| - 1;
      AllStandFor(s, artifacts[..n], target, rd);
      CollectKeeps(s, artifacts[..n], target, rd);
      var (before, items) := Collect(s, artifacts[..n], target, rd);
      var (after, item) := CollectOne(before, artifacts[n], target, rd);
      OneStandsFor(before, artifacts[n], target, rd);
      CollectOneKeeps(before, artifacts[n], target, rd);
      forall i | 0 <= i < n ensures StandsFor(s, after, items[i], artifacts[i], target, rd) {
        StillStandsFor(s, before, after, items[i], artifacts[i], target, rd);
      }
    }
  }

  /** A release is created exactly with items and for another environment than development: a draft without votes whose
      items stand for the artifacts, in order; no file and no other release changes. */
  lemma CreateGoesThroughIff(sys: System, artifacts: seq<Artifact>, target: Environment, author: string, facts: Facts, u: Setup)
    requires SystemOk(sys, u)
    ensures
      var (next, out) := Try(sys, Op.Create(artifacts, target, author, facts), u);
      && (out.Ok? <==> target != Development && artifacts != [])
      && (out.Err? ==> next == sys)
      && (out.Ok? ==>
            && next.store.files == sys.store.files && next.key == sys.key
            && |next.releases| == |sys.releases| + 1 && next.releases[..|sys.releases|] == sys.releases
            && var r := next.releases[|sys.releases|];
            && r.status == Draft && r.votes == [] && r.createdBy == author && r.target == target
            && r.signature == None && r.approvedManifest == None && r.rollbackOf == None
            && |r.items| == |artifacts|
            && forall i :: 0 <= i < |artifacts| ==> StandsFor(sys.store, next.store, r.items[i], artifacts[i], target, u.rd))
  {
    AllStandFor(sys.store, artifacts, target, u.rd);
    CollectKeeps(sys.store, artifacts, target, u.rd);
  }

  // ---- refusals -------------------------------------------------------------------

  /** A reason that is given when nothing before it on the list was. */
  datatype Reason = Reason(given: bool, refusal: Refusal)

  function FirstReason(reasons: seq<Reason>): Outcome {
    if reasons == [] then Ok(()) else if reasons[0].given then Err(reasons[0].refusal) else FirstReason(reasons[1..])
  }

  ghost predicate InStatus(sys: System, id: nat, statuses: set<Status>) {
    id < |sys.releases| && sys.releases[id].status in statuses
  }

  ghost predicate VotedAs(sys: System, id: nat, voter: Option<string>) {
    id < |sys.releases| && voter.Some? && exists v <- sys.releases[id].votes :: VotesAs(voter.value, v.actor)
  }

  ghost function VoteReasons(sys: System, id: nat, voter: Option<string>, roles: set<string>, cfg: Config): seq<Reason> {
    [Reason(id >= |sys.releases|, UnknownRelease), Reason(!InStatus(sys, id, {Submitted}), WrongStatus), Reason(voter == None, NotAuthorized),
     Reason(VotedAs(sys, id, voter), VotedBefore), Reason(!RoleMayVote(roles, cfg), RoleMayNotVote)]
  }

  lemma FirstOf(a: Reason, rest: seq<Reason>)
    ensures FirstReason([a] + rest) == if a.given then Err(a.refusal) else FirstReason(rest)
  {
    assert ([a] + rest)[1..] == rest;
  }

  lemma FirstOfThree(a: Reason, b: Reason, c: Reason)
    ensures FirstReason([a, b, c]) ==
      if a.given then Err(a.refusal) else if b.given then Err(b.refusal) else if c.given then Err(c.refusal) else Ok(())
  {
    FirstOf(a, [b, c]);
    FirstOf(b, [c]);
    FirstOf(c, []);
    assert [a] + [b, c] == [a, b, c] && [b] + [c] == [b, c] && [c] + [] == [c];
  }

  lemma FirstOfFive(a: Reason, b: Reason, c: Reason, d: Reason, e: Reason)
    ensures FirstReason([a, b, c, d, e]) ==
      if a.given then Err(a.refusal) else if b.given then Err(b.refusal) else FirstReason([c, d, e])
  {
    FirstOf(a, [b, c, d, e]);
    FirstOf(b, [c, d, e]);
    assert [a] + [b, c, d, e] == [a, b, c, d, e] && [b] + [c, d, e] == [b, c, d, e];
  }

  lemma FirstOfList(reasons: seq<Reason>)
    requires |reasons| == 3 || |reasons| == 5
    ensures FirstReason(reasons) ==
      if reasons[0].given then Err(reasons[0].refusal) else if reasons[1].given then Err(reasons[1].refusal)
      else if reasons[2].given then Err(reasons[2].refusal)
      else if |reasons| == 3 then Ok(())
      else if reasons[3].given then Err(reasons[3].refusal) else if reasons[4].given then Err(reasons[4].refusal) else Ok(())
  {
    if |reasons| == 3 {
      FirstOfThree(reasons[0], reasons[1], reasons[2]);
      assert reasons == [reasons[0], reasons[1], reasons[2]];
    } else {
      FirstOfFive(reasons[0], reasons[1], reasons[2], reasons[3], reasons[4]);
      FirstOfThree(reasons[2], reasons[3], reasons[4]);
      assert reasons == [reasons[0], reasons[1], reasons[2], reasons[3], reasons[4]];
    }
  }

  /** Why a vote is refused, in the order in which reasons are looked at. */
  lemma VoteIsRefusedFor(sys: System, id: nat, voter: Option<string>, roles: set<string>, u: Setup)
    ensures Try(sys, Op.Approve(id, voter, roles), u).1 == FirstReason(VoteReasons(sys, id, voter, roles, u.cfg))
  {
    assert RoleMayVote(roles, u.cfg) <==> !(u.cfg.approverRoles != {} && roles != {} && roles !! u.cfg.approverRoles);
    if voter.Some? { assert forall name :: VotesAs(voter.value, name) <==> name == VoterName(voter.value); }
    FirstOfList(VoteReasons(sys, id, voter, roles, u.cfg));
  }

  ghost function SignReasons(sys: System, id: nat): seq<Reason> {
    [Reason(id >= |sys.releases|, UnknownRelease), Reason(!InStatus(sys, id, {Submitted, Status.Approved, Deployed}), WrongStatus),
     Reason(sys.key == None, NoKey)]
  }

  lemma SignIsRefusedFor(sys: System, id: nat, u: Setup)
    ensures Try(sys, Op.Sign(id), u).1 == FirstReason(SignReasons(sys, id))
  {
    FirstOfList(SignReasons(sys, id));
    if id < |sys.releases| {
      var r := sys.releases[id];
      assert r.status.Draft? || r.status.Rejected? || r.status.RolledBack? || r.status.Submitted? || r.status.Approved? || r.status.Deployed?;
    }
  }

  ghost function RejectReasons(sys: System, id: nat): seq<Reason> {
    [Reason(id >= |sys.releases|, UnknownRelease), Reason(InStatus(sys, id, {Deployed}), WrongStatus),
     Reason(InStatus(sys, id, {RolledBack}), WrongStatus)]
  }

  lemma RejectIsRefusedFor(sys: System, id: nat, actor: string, u: Setup)
    ensures Try(sys, Op.Reject(id, actor), u).1 == FirstReason(RejectReasons(sys, id))
  {
    FirstOfList(RejectReasons(sys, id));
  }

  ghost predicate AllReady(sys: System, id: nat, facts: Facts) {
    && id < |sys.releases| && sys.releases[id].items != []
    && forall item <- sys.releases[id].items :: ItemIsReady(item, sys.releases[id].target, sys.releases, facts)
  }

  ghost function SubmitReasons(sys: System, id: nat, facts: Facts): seq<Reason> {
    [Reason(id >= |sys.releases|, UnknownRelease), Reason(!InStatus(sys, id, {Draft}), WrongStatus), Reason(!AllReady(sys, id, facts), GatesFailed)]
  }

  lemma SubmitIsRefusedFor(sys: System, id: nat, facts: Facts, u: Setup)
    ensures Try(sys, Op.Submit(id, facts), u).1 == FirstReason(SubmitReasons(sys, id, facts))
  {
    FirstOfList(SubmitReasons(sys, id, facts));
    SubmitGoesThroughIff(sys, id, facts, u);
  }

  ghost predicate AllRevised(sys: System, id: nat) {
    id < |sys.releases| && forall item <- sys.releases[id].items :: item.revision > 0
  }

  ghost function RollbackReasons(sys: System, id: nat): seq<Reason> {
    [Reason(id >= |sys.releases|, UnknownRelease), Reason(!InStatus(sys, id, {Deployed}), WrongStatus), Reason(!AllRevised(sys, id), SnapshotMissing)]
  }

  lemma RollbackIsRefusedFor(sys: System, id: nat, author: string, u: Setup)
    requires SystemOk(sys, u)
    ensures Try(sys, Op.Rollback(id, author), u).1 == FirstReason(RollbackReasons(sys, id))
  {
    FirstOfList(RollbackReasons(sys, id));
    RollbackGoesThroughIff(sys, id, author, u);
  }
}
