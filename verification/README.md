# Governance core of the Enterprise AGI Runtime, modelled and proved

The runtime lets agents act only through it: a plan is executed step by step under policy, artifacts climb an environment
ladder under quorum, everything leaves a row in a hash-chained ledger, memory is consolidated by rule, and model calls are
routed, cut to size and paid for by one gateway. This project models those parts in Dafny and proves what they promise over
every input, every run and every interleaving, and where a promise fails, exactly when it holds.

Code that changes state step by step is a class whose methods are each proved to leave the state a specification function
gives; the properties are lemmas about those functions. What the environment decides (policy answers, tool results, human
votes, provider replies, clocks, thread schedules) is a parameter, so a lemma speaks about every possible answer.

Main operations have a second account that does not use the functions that specify them: a replay of events, a relation, a
grammar, sets of people, conditions on the input (`StepTrail`, `ReleaseOutcomes`, `ExportVerdict`, `ExportJson`,
`ConsolidationReport` and the files that end in `Meaning`). Lemmas over all inputs tie the two accounts together.

| files | what they hold |
|---|---|
| `StepMachine`, `StepEngine`, `StepRuns`, `StepTrail`, `StepLimits` | the governed task: specification, in-place engine, invariants over runs, what the trail of events says, where promises stop holding |
| `EnvironmentLine`, `Versions`, `Releases`, `ReleaseManager`, `ReleaseRuns`, `ReleaseDeploy`, `ReleaseOutcomes`, `ReleaseFailures` | snapshots, release life cycle, quorum, signature, deploy and rollback, refusals and failures |
| `CanonicalJson`, `JsonMeaning`, `Ledger`, `LedgerThreads`, `LedgerProgress`, `Export`, `ExportVerdict`, `ExportLines`, `ExportValues`, `ExportJson` | hash chain, concurrent recording, offline export |
| `Consolidation`, `ConsolidationForest`, `ConsolidationLimits`, `ConsolidationReport` | memory consolidation |
| `Values`, `Conditions`, `ValueMeaning`, `ConditionMeaning`, `ConditionFacts`, `PolicyEngine`, `PolicyMeaning`, `PolicyRuns`, `PolicyTable` | condition language and policy engine |
| `Truncation`, `TruncationMeaning`, `Gateway`, `GatewayMeaning`, `Budget` | model gateway |
| `Cron`, `CronMeaning`, `Scheduler`, `SchedulerMeaning`, `Packs`, `PackMeaning`, `PackEdits`, `CheckDigits` | schedules, packs, check digits |
| `Wrappers`, `Ordering`, `Texts` | shared vocabulary |

`dafny verify dfyconfig.toml` checks everything.

## What the code turns out not to promise

Each of these is a proved statement, not an opinion; the member is named.

- `approve` and `deny` test neither the task's status nor the request's. Outside a waiting task they can make the log leave
  the plan (`StepLimits.ApproveKeepsLogIff`, `RejectKeepsLogIff`) and execute a step already logged as denied
  (`SecondGrantRunsADeniedStep`). On a waiting task any request releases the wait; the execution stays governed exactly
  when it is the request waited for or policy then denies (`GrantIsGovernedIff`), and a request a human refused can release
  the next step (`RefusedRequestReleasesTheNextStep`). On a finished task a grant runs what was left pending and was denied,
  still at most once (`GrantAfterTheEndIsGovernedIff`).
- A tool run after a human grant never enters the tool cost (`StepLimits.GrantKeepsCostWholeIff`). Under a repeated step id
  a grant decides the waited step exactly when the first step with that id has the same tool
  (`GrantDecidesTheWaitedStepIff`, `RepeatedIdRunsTheWrongTool`).
- A rollback writes back the release's own snapshot, not what was on disk before the deploy, although the comment at
  `src/egr/release/manager.py:403` speaks of the state before the release. The file comes back exactly when it already was
  that snapshot with its old environment (`ReleaseDeploy.RollbackRestoresTheFileIff`); an edit made between creating and
  deploying a release is lost (`EditBeforeDeployIsLost`, `EditIsLostInARun`).
- A payload with integer keys whose numeric and textual order differ is reported as tampering when nobody touched it
  (`CanonicalJson.TwoAndTenDoNotSurvive`, `Ledger.RecordKeepsValidIff`). A deleted last row is not reported
  (`Ledger.DeletedLastRowMovesTheHead`).
- An export whose texts hold U+0085, U+2028 or U+2029 is not read back as it was written, and every other one is (`ExportValues.ValuesComeBackIff`).
- Consolidated survivors need not be pairwise unlike, and the dry run need not foretell the applied one
  (`ConsolidationLimits.SwapLeavesLookAlikes`, with the exact conditions beside it).
- `!=`, `not`, `== None` and the equality of two different names can be satisfied by a missing fact, against the comment at
  `src/egr/policies/conditions.py:136` (`ConditionFacts.ComparisonNeverGainedIff`, `NegatedComparisonNeverGainedIff`,
  `NegationNeverGainedIff`: exactly which comparisons, each with values of the facts that show it).
- Keyword arguments in a condition are not looked at, so an unsupported one passes (`ConditionFacts.KeywordsAreSteppedOver`).
- A rule without a condition and a rule with the condition text None share a table entry, and so do the ids a and a:b with the
  conditions b:c and c (`PolicyTable.KeysCollideIff`, `ColonsCollide`).
- With distinct provider names the capability of a request does not influence routing (`Gateway.CapabilityDoesNotMatter`); the branch of `truncate_to_fit`
  that shortens the largest system message cannot be reached (`Truncation.NothingKeptIff`); from 66 kept messages on, a
  truncated prompt may still not fit (`Truncation.AlwaysFitsIff`).
- Once a workflow was wanted in a later minute, every tick in an earlier minute runs it, however often; otherwise no minute
  is served twice (`Scheduler.OnceAMinuteUnlessTheClockReturns`, `TwoTicksInAnEarlierMinuteRunTwice`).
- An update that keeps the version number is refused when every file is there and unedited, even if the shipped text changed
  (`PackEdits.RefusedIff`). A version that drops an edited file loses its record; a later one that ships it again lets a
  removal delete the edit (`PackEdits.EditSurvivesIff`, `EditIsLostWhenDroppedAndShippedAgain`).
- The check of a personal tax number overlooks a first digit changed by one, because its second weight is eleven
  (`CheckDigits.SubstitutionMissedIff`).

## Assumptions

- SHA-256 and HMAC are functions without collisions where a lemma asks for it (`Ledger.CollisionFree`,
  `ReleaseDeploy.CollisionFree`); file fingerprints need no such assumption, because an edit is defined by its fingerprint.
- Repositories are sequences and maps in the order the queries give; ledger rows come in the order of their numbers, and the
  `limit=20` and `limit=100` caps of list queries never cut anything off.
- Costs are natural numbers; salience, similarity and provider unit costs are given numbers; cosine similarity is symmetric.
- Releases and approvals are identified by position instead of random ids, and creation times of approvals grow, so the first
  pending one is the oldest.
- Over a run of releases the configuration, the digests and the reader of texts stay the same, and an environment is one of the
  three: a name that is none of them, which makes the code fail, is not modelled.
- The scheduler's tick and the creation times of runs are instants of one time zone. The code compares the clock fields of the
  two without their zones (`src/egr/runtime/scheduler.py:115-120`).

## Model

| member | source | states |
|---|---|---|
| StepMachine.FindPending | src/egr/runtime/agent_engine.py:418-421 | finds the first open request for the step, and none was passed over |
| StepMachine.FindStep | src/egr/runtime/agent_engine.py:342 | finds the first plan step with the id, and none was passed over |
| StepRuns.TurnDecides | src/egr/runtime/agent_engine.py:174-303 | one iteration stops in front of the step exactly when policy wants a human and nothing stands in for one, and then runs and logs nothing; otherwise it adds one record of that step, denied without running or allowed after one run, and moves on |
| StepEngine.GovernedTask.Run | src/egr/runtime/agent_engine.py:124-305 | running leaves exactly the state of the specified loop: plan once, decide step by step, stop in front of a step that needs a human, finish |
| StepEngine.GovernedTask.Execute | src/egr/runtime/agent_engine.py:262-303 | an allowed step is executed, logged with its cost, added to the tool cost, and the pending request is cleared |
| StepEngine.GovernedTask.Refuse | src/egr/runtime/agent_engine.py:223-252 | a denied step is logged and passed, with nothing executed |
| StepEngine.GovernedTask.Pause | src/egr/runtime/agent_engine.py:206-221 | a step that needs a human reuses its open request or opens one, and the task stops in front of it |
| StepEngine.GovernedTask.Finish | src/egr/runtime/agent_engine.py:494-518 | failed exactly when the log is not empty and holds no success, completed otherwise |
| StepEngine.GovernedTask.FindWaiting | src/egr/runtime/agent_engine.py:340-344 | the position of the first step with the pending id, or the end of the plan |
| StepEngine.GovernedTask.RunGranted | src/egr/runtime/agent_engine.py:373-408 | the granted step is executed and logged as approved with cost zero, outside the tool cost |
| StepEngine.GovernedTask.Resume | src/egr/runtime/agent_engine.py:335-409 | the pending step is asked for again; a denial is logged, anything else is executed; then the loop goes on |
| StepEngine.GovernedTask.Approve | src/egr/runtime/runtime.py:728-770 | a grant is recorded on the named request and resumes the task; an unknown request changes nothing |
| StepEngine.GovernedTask.Reject | src/egr/runtime/runtime.py:772-826 | a refusal is recorded, logged under the pending step with the request's tool, and the loop goes on behind it |
| StepRuns.TurnKeeps | src/egr/runtime/agent_engine.py:174-303 | one iteration keeps log, cost, governance of executions and open requests consistent |
| StepRuns.LoopSettles | src/egr/runtime/agent_engine.py:174-305 | from a consistent state the loop stops in a settled one: waiting for the step at the cursor, or finished with the right verdict |
| StepRuns.RunKeeps | src/egr/runtime/agent_engine.py:124-305 | running keeps the invariant and takes nothing back |
| StepRuns.ApproveKeeps | src/egr/runtime/runtime.py:728-770 | granting the request waited for keeps the invariant and moves the cursor on |
| StepRuns.RejectKeeps | src/egr/runtime/runtime.py:772-826 | refusing the request waited for keeps the invariant and moves the cursor on |
| StepRuns.RunsKeepInvariant | src/egr/runtime/agent_engine.py:124-409 | over any sequence of runs, grants and refusals on the current request: the invariant holds, the cursor never goes back, log and trail only grow, each decision moves the cursor on |
| StepRuns.LogFollowsPlan | src/egr/runtime/agent_engine.py:170-303 | after any such run from a new task: the log is the plan up to the cursor, by id and tool and in order; the tool cost is the sum of the logged costs; a waiting task waits for the step at the cursor |
| StepRuns.EveryExecutionIsGoverned | src/egr/runtime/agent_engine.py:200-262 | in every such run each execution comes right after an authorization of that step that allowed it, an automatic approval in development, or a human grant followed by one that did not deny |
| StepRuns.EachStepRunsAtMostOnce | src/egr/runtime/agent_engine.py:262-303 | in every such run the tools that ran are those the log says ran, in that order, and no step's tool ran twice |
| StepRuns.HumanDecisionsAreBounded | src/egr/runtime/agent_engine.py:335-409 | from any consistent planned task there are at most as many human decisions as steps left, and after that many it is over |
| StepRuns.FailedIffNothingSucceeded | src/egr/runtime/agent_engine.py:509-516 | a planned task that is not waiting went through its plan; it failed exactly when something was logged and nothing succeeded |
| StepTrail.TaskIsItsTrail | src/egr/runtime/agent_engine.py:124-409 | over every run, guarded or not, replaying the events of the trail gives the task's log, cost, cursor, requests and pending step: each execution leaves the record of what its tool answered, each denial and refusal its own; and every answer in the trail is the one policy or the tool gave at that point |
| StepTrail.FailedIffNoToolSucceeded | src/egr/runtime/agent_engine.py:509-516 | over every run a planned task that does not wait failed exactly when something was logged and no tool that ran reported success |
| StepTrail.PlanIsTheProposal | src/egr/runtime/agent_engine.py:83-168 | over every run the plan is the longest part of the proposal that the step budget allows, or the one-step fallback; without a plan the task is new, or failed because planning was refused, and did nothing |
| StepTrail.DecisionIsRecordedIff | src/egr/runtime/runtime.py:728-826 | a grant or a refusal of a request that exists is the next event; of any other request it changes nothing |
| StepTrail.OneRequestPerStep | src/egr/runtime/agent_engine.py:411-430 | in every guarded run, however often a waiting task is started again, no two requests are about one step |
| StepLimits.ApproveKeepsLogIff | src/egr/runtime/runtime.py:735-743 | whichever request is granted, the log stays the decided prefix of the plan exactly when the task waits or carries no left-over pending step |
| StepLimits.RejectKeepsLogIff | src/egr/runtime/runtime.py:778-826 | whichever request is refused, the log stays the decided prefix exactly when the task waits and the request names the tool waited for |
| StepLimits.AnyGrantReleasesTheWait | src/egr/runtime/runtime.py:735-770 | granting any request of a waiting task, decided or about another step, decides the step waited for, unless policy denies it |
| StepLimits.GrantIsGovernedIff | src/egr/runtime/runtime.py:735-770 | such a grant keeps every execution governed exactly when it names the request waited for or policy, asked again, denies |
| StepLimits.GrantAfterTheEndIsGovernedIff | src/egr/runtime/runtime.py:735-743 | after any guarded run from a new task, a grant on a task that no longer waits runs the left-over pending step exactly when there is one and policy, asked again, does not deny: nobody granted that execution, but the step had not run, and nothing else runs |
| StepLimits.RefusedRequestReleasesTheNextStep | src/egr/runtime/runtime.py:735-743 | a reachable task with two requests: granting the one a human refused runs the other step, whose own request is still open |
| StepLimits.ToolCostLeavesOutApprovedSteps | src/egr/runtime/agent_engine.py:388-401 | in every run, guarded or not, the tool cost is what tools reported less what human-approved steps reported |
| StepLimits.GrantKeepsCostWholeIff | src/egr/runtime/agent_engine.py:357-401 | as long as nothing is missing from the tool cost, a grant keeps it whole exactly when policy, asked again, denies, or the granted tool is free |
| StepLimits.SecondGrantRunsADeniedStep | src/egr/runtime/agent_engine.py:358-371 | a task whose denied step left its pending id behind: granting the same request again executes that step after it was logged as denied |
| StepLimits.GrantDecidesTheWaitedStepIff | src/egr/runtime/agent_engine.py:340-344 | whatever ids a plan repeats, granting a waiting task keeps its log to the plan exactly when the first step with the waited id has the waited step's tool |
| StepLimits.RepeatedIdRunsTheWrongTool | src/egr/runtime/planner.py:49-59 | two plan steps with one id and different tools: granting the second executes the first one's tool |
| EnvironmentLine.FindKey | src/egr/release/versions.py:19 | the first line start that carries the key, and none before it does |
| EnvironmentLine.LastWriteWins | src/egr/release/versions.py:130-142 | setting the environment line twice is setting it once, to the second value |
| EnvironmentLine.SetLineIsIdentityIff | src/egr/release/versions.py:19 | setting the line leaves the text alone exactly when its first environment line is spelled the way it would be written |
| EnvironmentLine.SetLineReplaces | src/egr/release/versions.py:130-148 | the first line that starts with the key is replaced, with the blank space after the key, even over line breaks, and the value up to the end of its line |
| EnvironmentLine.SetLineAdds | src/egr/release/versions.py:140-141 | without such a line one is added after the text less its trailing line breaks |
| Versions.TakeKeeps | src/egr/release/versions.py:53-100 | a snapshot keeps history well formed, touches no file, and leaves the newest snapshot with the fingerprint of what is on disk; revisions count up and neighbours differ |
| Versions.TakeMeans | src/egr/release/versions.py:53-100 | nothing is taken when the newest snapshot has the fingerprint of the file; otherwise one snapshot more, with the next revision, the content, and the version the text declares or the revision |
| Versions.FoundIff | src/egr/release/versions.py:45-51 | a revision names the snapshot at its place, and other numbers name nothing |
| Versions.FoundStaysFound | src/egr/release/versions.py:45-51 | what a revision names never changes as history grows |
| Versions.LastEnvironmentWins | src/egr/release/versions.py:130-148 | the environment written last is the one the text declares, for every kind of artifact |
| Versions.EnvironmentIsWritten | src/egr/release/versions.py:130-148 | the line names the environment by its word |
| ReleaseManager.CollectProblems | src/egr/release/gates.py:37-91 | the gates as the loop runs them report exactly the specified problems, item by item |
| ReleaseManager.DeployedTo | src/egr/release/gates.py:167-173 | the search finds a release exactly when one that is still deployed put the artifact into staging |
| ReleaseManager.CheckLadder | src/egr/release/gates.py:55-77 | nothing is reported exactly for development to staging, or staging to production with a release still deployed in staging; each of the three problems is reported exactly when it is there |
| ReleaseManager.CheckItem | src/egr/release/gates.py:79-153 | an artifact has to exist, not be blocked, and have passed its newest evaluation |
| ReleaseManager.CollectEvidence | src/egr/release/manager.py:497-505 | the newest passed evaluation of each item, each id once, in item order |
| ReleaseManager.CountApprovers | src/egr/domain/release.py:167-176 | the distinct approving names in voting order, less the excluded author |
| ReleaseManager.Manager.Create | src/egr/release/manager.py:39-117 | creating snapshots each artifact, names a missing one as an item without a revision, and checks the gates |
| ReleaseManager.Manager.Check | src/egr/release/manager.py:119-135 | checking recomputes gates and evidence and changes nothing else |
| ReleaseManager.Manager.Submit | src/egr/release/manager.py:137-159 | a draft with clear gates is submitted; the recomputed gates stay even when it is refused |
| ReleaseManager.Manager.Quorum | src/egr/release/manager.py:162-180 | required votes by target, author excluded above one unless self-approval is on, complete when enough count and nobody vetoed |
| ReleaseManager.Manager.Approve | src/egr/release/manager.py:185-263 | one vote per name on a submitted release; the vote that closes the quorum approves it and records the manifest's hash |
| ReleaseManager.Manager.SignRelease | src/egr/release/manager.py:266-276 | anything but a draft, a rejected or a rolled-back release is signed over its manifest as it is now |
| ReleaseManager.Manager.Reject | src/egr/release/manager.py:291-313 | a veto is recorded and the release rejected, unless it was deployed or rolled back |
| ReleaseManager.Manager.VerifyPromotion | src/egr/release/manager.py:356-381 | the manifest must hash to the one recorded at the vote, and be signed where the environment asks for it |
| ReleaseManager.Manager.Deploy | src/egr/release/manager.py:315-354 | gates are checked again, the promotion verified, then each item's snapshot is written, its environment moved and the result snapshot; a missing snapshot stops it there |
| ReleaseManager.Manager.Rollback | src/egr/release/manager.py:383-442 | each item's captured snapshot is written back with the environment it came from, and a rolled-back release is added |
| ReleaseRuns.ApproversAreDistinctPeople | src/egr/domain/release.py:159-176 | the counted names are exactly the people who approved and are not excluded, each once |
| ReleaseRuns.GatesAreClearIff | src/egr/release/gates.py:37-173 | no problem is reported exactly when every item climbs one rung, was in staging if it goes to production, exists, is not blocked and passed its newest evaluation |
| ReleaseRuns.VoteKeeps | src/egr/release/manager.py:220-246 | a vote keeps a release in order, and closing the quorum means enough distinct people approved |
| ReleaseRuns.OperationKeeps | src/egr/release/manager.py:39-442 | every operation, successful or refused, keeps the system invariant and only lets releases evolve |
| ReleaseRuns.RunsKeepInvariant | src/egr/release/manager.py:39-442 | so does every sequence of operations |
| ReleaseRuns.PromotionHasQuorum | src/egr/release/manager.py:199-249 | after any run: approved or deployed means no veto and the required number of distinct counted approvers, the author not among them when excluded; rejected exactly when vetoed; nobody votes twice |
| ReleaseRuns.ReleasesOnlyEvolve | src/egr/release/manager.py:291-305 | after any run: rejection and rollback are final, votes stay, and what a release promotes never changes |
| ReleaseRuns.HistoryIsAppendOnly | src/egr/release/versions.py:45-100 | after any run: a revision names the same snapshot, and neighbouring revisions differ in fingerprint |
| ReleaseOutcomes.PrefixIsDropped | src/egr/release/manager.py:206 | the prefix of a human actor is dropped, however often it stands there |
| ReleaseOutcomes.PlainNameStays | src/egr/release/manager.py:206 | and a name without it is left as it is |
| ReleaseOutcomes.QuorumIsEnoughPeople | src/egr/release/manager.py:162-180 | a quorum is met exactly when nobody vetoed and the set of people who approved, less the author where more than one is needed and self-approval is off, is as large as the target needs |
| ReleaseOutcomes.VoteIsAcceptedIff | src/egr/release/manager.py:199-218 | a vote is accepted exactly on a submitted release, from an identified voter nobody voted as before, whose roles, if any are known, hold one of the approver roles, if there are any; a refused vote changes nothing |
| ReleaseOutcomes.AcceptedVote | src/egr/release/manager.py:220-250 | an accepted vote adds exactly itself, and approves the release and records its manifest exactly when enough people have now approved |
| ReleaseOutcomes.EveryVoteWasCast | src/egr/release/manager.py:199-313 | after any run every approving vote was cast by an identified voter with a fitting role, every veto by a rejection |
| ReleaseOutcomes.VoteIsRefusedFor | src/egr/release/manager.py:199-218 | which reason refuses a vote, in the order in which they are looked at |
| ReleaseOutcomes.CreateGoesThroughIff | src/egr/release/manager.py:39-117 | a release is created exactly with items and for another environment than development: a draft whose items, in order, carry the fingerprint, snapshot, version and environment of the files, or no revision where there is no file |
| ReleaseOutcomes.EvidenceIsNewestPasses | src/egr/release/manager.py:497-505 | the evidence is exactly the newest passed evaluation of each item, each once |
| ReleaseOutcomes.SubmitGoesThroughIff | src/egr/release/manager.py:137-144 | a submission goes through exactly for a draft with items that are all ready |
| ReleaseOutcomes.SubmitIsRefusedFor | src/egr/release/manager.py:137-144 | which reason refuses a submission |
| ReleaseOutcomes.SignGoesThroughIff | src/egr/release/manager.py:266-276 | signing goes through exactly with a key for a release submitted, approved or deployed, and leaves a signature that is valid |
| ReleaseOutcomes.SignIsRefusedFor | src/egr/release/manager.py:266-276 | which reason refuses a signature |
| ReleaseOutcomes.RejectGoesThroughIff | src/egr/release/manager.py:291-305 | a rejection goes through exactly unless the release was deployed or rolled back, adds one veto and nothing else |
| ReleaseOutcomes.RejectIsRefusedFor | src/egr/release/manager.py:291-294 | which reason refuses a rejection |
| ReleaseOutcomes.RollbackGoesThroughIff | src/egr/release/manager.py:383-418 | a rollback goes through exactly for a deployed release whose items all have a revision |
| ReleaseOutcomes.RollbackIsRefusedFor | src/egr/release/manager.py:383-418 | which reason refuses a rollback |
| ReleaseFailures.DeployIsRefusedFor | src/egr/release/manager.py:315-381 | which reason refuses a deploy: status, gates, a change since the vote, the signature, a missing snapshot, in this order |
| ReleaseFailures.StoppedDeployWrites | src/egr/release/manager.py:326-338 | a deploy stopped by a missing snapshot has written exactly the items before it, and the release stays approved |
| ReleaseFailures.StoppedRollbackWrites | src/egr/release/manager.py:402-419 | a rollback stopped by a missing snapshot has put back exactly the items before it, and the release stays deployed |
| ReleaseDeploy.SignatureCoversManifestAndKey | src/egr/release/signature.py:26-105 | a signature is valid later exactly when manifest and master key are what they were at signing |
| ReleaseDeploy.SignatureIsValidIff | src/egr/release/signature.py:82-105 | whatever is on record as a signature is valid exactly when it is not empty, names the manifest's hash, carries its digest under the key there is, and names that key or none |
| ReleaseDeploy.OnlyVotesApprove | src/egr/release/manager.py:242-249 | the recorded manifest changes only by a vote that closes a quorum, and is the hash of what that vote saw |
| ReleaseDeploy.ApprovalComesFromAVote | src/egr/release/manager.py:236-249 | a recorded manifest comes from a quorum-closing vote of the run |
| ReleaseDeploy.SnapshotsExistIff | src/egr/release/manager.py:327-331 | every item can be applied exactly when every item has a revision, and then its snapshot is there when its turn comes |
| ReleaseDeploy.DeployGoesThroughIff | src/egr/release/manager.py:315-381 | in every consistent system a deploy goes through exactly when the release is approved, each item has a revision, climbs one rung, was in staging before production, exists, passed its newest evaluation and is not blocked, the hash recorded at the vote is that of today's manifest, and a required signature is valid for it |
| ReleaseDeploy.DeployIsWhatWasVoted | src/egr/release/manager.py:356-381 | after any run, a successful deploy promotes the very manifest the quorum-closing vote saw, although evidence is recomputed in between |
| ReleaseDeploy.SignatureComesFromASign | src/egr/release/manager.py:266-276 | after any run a signature on record was put there by a signing, over the manifest and with the key of that moment |
| ReleaseDeploy.DeployIsWhatWasSigned | src/egr/release/manager.py:366-381 | after any run, where a signature is required a successful deploy promotes a manifest that was signed with the key there is now |
| ReleaseDeploy.SuccessfulDeploy | src/egr/release/manager.py:326-342 | each artifact has its named snapshot's text with the environment moved, a snapshot of the result is kept, no other file is touched, every gate held, and a required signature is valid for that manifest |
| ReleaseDeploy.SuccessfulRollback | src/egr/release/manager.py:402-429 | each artifact has its captured text with the environment it came from; that is the captured text itself exactly when the line was there in canonical spelling; the history is untouched |
| ReleaseDeploy.UndoMovesOnlyTheEnvironmentLine | src/egr/release/manager.py:402-419 | what a deploy wrote and its rollback leaves differ in the environment line only |
| ReleaseDeploy.UndoRestoresTheFileIff | src/egr/release/manager.py:326-338 | a file is after the rollback what it was before the deploy exactly when it already was the release's snapshot with the environment it came from |
| ReleaseDeploy.RollbackWritesTheCapture | src/egr/release/manager.py:383-442 | a release just deployed can be rolled back, which leaves each file with the text the release captured and the environment it came from |
| ReleaseDeploy.RollbackRestoresTheFileIff | src/egr/release/manager.py:383-442 | so for the operations too a file comes back exactly when it already was that text |
| ReleaseDeploy.EditBeforeDeployIsLost | src/egr/release/manager.py:402-419 | in any consistent system an edit of a file between the vote and the deploy neither stops the deploy nor survives the rollback: the text left does not depend on it |
| ReleaseDeploy.EditIsLostInARun | src/egr/release/manager.py:39-442 | a whole run from an empty system that loses an edit: create, submit, approve, edit, deploy, roll back |
| CanonicalJson.SurvivesIff | src/egr/core/hashing.py:12-13 | a payload has the same canonical form before and after it was stored as text exactly when, in every object, its keys sort alike in memory and in writing |
| CanonicalJson.TextKeysAgree | src/egr/core/hashing.py:12-13 | text keys at every level are enough for that |
| CanonicalJson.TwoAndTenDoNotSurvive | src/egr/audit/ledger.py:56-75 | the integer keys 2 and 10 are not: the stored payload hashes differently |
| JsonMeaning.SameCanonIff | src/egr/core/hashing.py:12-13 | values with text keys have one canonical form exactly when they differ in nothing but the order of keys |
| Ledger.Verify | src/egr/audit/ledger.py:169-194 | the loop reports exactly the specified rows, their number and the head |
| Ledger.BrokenAreTheUnlinked | src/egr/audit/ledger.py:174-188 | reported are exactly the rows that do not continue the row before them, each once, in order |
| Ledger.ValidIff | src/egr/audit/ledger.py:189-194 | valid exactly when every row continues the one before it |
| Ledger.VerifiesIffChained | src/egr/audit/ledger.py:169-194 | a ledger verifies exactly when each row names the hash of the row before it, or 64 zeros, and carries the digest of that hash and of all it says; reported are exactly the others |
| Ledger.AuditLedger.Record | src/egr/audit/ledger.py:46-79 | one row is appended, numbered next, chained to the head, hashed over the event in memory |
| Ledger.RecordKeepsValidIff | src/egr/audit/ledger.py:46-79 | recording keeps a valid ledger valid exactly when the payload keeps its canonical form in storage |
| Ledger.HeadFixesEvents | src/egr/audit/ledger.py:169-194 | two valid ledgers with one head say the same, in the same order and number |
| Ledger.ReplacedRow | src/egr/audit/ledger.py:174-188 | replacing one row reports at most that row and the next, and exactly when each |
| Ledger.ChangedEventIsReported | src/egr/audit/ledger.py:174-188 | changing only what one row says reports exactly that row |
| Ledger.UnreportedReplacementIff | src/egr/audit/ledger.py:174-188 | replacing a row before the last goes unreported exactly when it says and hashes the same |
| Ledger.DeletedRowIsReported | src/egr/audit/ledger.py:174-188 | deleting a row before the last reports exactly the row after the gap |
| Ledger.DeletedLastRowMovesTheHead | src/egr/audit/ledger.py:188-194 | deleting the last row is not reported, and changes the head |
| LedgerThreads.TableIsValidIff | src/egr/audit/ledger.py:46-79 | for any interleaving of threads through the lock, the table verifies exactly when every recorded payload keeps its canonical form |
| LedgerThreads.EveryTableIsValid | src/egr/audit/ledger.py:46-79 | with text keys every reachable table verifies and holds the recorded events in insertion order, numbered from one |
| LedgerThreads.WithoutTheLockTheChainBreaks | src/egr/audit/ledger.py:25-29 | two inserts after the same read leave a second row that is reported |
| LedgerProgress.AnyoneCanRecord | src/egr/audit/ledger.py:46-79 | in every reachable table with a free lock any thread can record any event, which adds one row chained to the head and frees the lock |
| LedgerProgress.HolderCanFinish | src/egr/audit/ledger.py:46-79 | in every reachable table whose lock is held the holder can let it go by at most three steps of its own, having recorded, or failed and left the rows as they are |
| Export.Scan | src/egr/audit/ledger.py:117-159 | reading page by page yields the filtered rows once each, in order, for every page size but zero |
| Export.VerifyExport | src/egr/audit/export.py:187-223 | the offline check computes the specified verdict and findings |
| Export.CompleteExportIsTheLedger | src/egr/audit/export.py:205-212 | a complete export whose recorded head is a valid ledger's head holds that ledger's events, all and only, in order |
| Export.SelectionIsJudgedValid | src/egr/audit/export.py:187-204 | any filtered selection of a valid ledger with its own manifest is judged valid, also when it happens to be contiguous |
| Export.SelectionIsCompleteIff | src/egr/audit/export.py:205-212 | it is judged complete exactly when the ledger is not empty, its numbers have no gap and the filters dropped nothing |
| ExportVerdict.ExportedAreTheWanted | src/egr/audit/ledger.py:117-159 | exported are exactly the rows of the wanted task, type, actor and span of time, bounds included, in ledger order |
| ExportVerdict.ReportedIff | src/egr/audit/export.py:187-205 | reported is exactly what is wrong with each entry: nothing to hash, another hash than its content's, or, where numbers are consecutive, another previous hash; and a wrong count |
| ExportVerdict.ValidIffSound | src/egr/audit/export.py:187-205 | valid exactly when the count is right, every entry hashes to what it says over its own previous hash, and, where numbers are consecutive, each names the hash of the one before it |
| ExportVerdict.CompleteIffWhole | src/egr/audit/export.py:205-212 | complete exactly when also the numbers are consecutive, the first entry starts from 64 zeros and the last carries the head on the manifest |
| ExportVerdict.ChangedEntryIsFound | src/egr/audit/export.py:194-198 | in any selection of a valid ledger, with gaps or without, changing what one entry says is found, at that entry and nowhere else |
| ExportLines.UnbrokenLinesComeBack | src/egr/audit/export.py:150-158 | lines without a line boundary are read back as they were written |
| ExportLines.PrintBreaksIff | src/egr/audit/export.py:97-100 | a printed event holds a line boundary exactly when some text in it holds U+0085, U+2028 or U+2029 |
| ExportLines.ReadsBackIff | src/egr/audit/export.py:150-156 | an export comes back line for line exactly when no text in it holds one of those three |
| ExportValues.PrintIsUnambiguous | src/egr/audit/export.py:97-100 | no two values with text keys have the same text, whatever follows it |
| ExportValues.ValuesComeBackIff | src/egr/audit/export.py:150-158 | an export comes back value for value exactly when no text in it holds one of those three |
| ExportJson.PrintStandsFor | src/egr/audit/export.py:97-100 | what is printed for a value is a JSON text that stands for it by the grammar of RFC 8259, escapes included |
| ExportJson.BreaksAre | src/egr/audit/export.py:150-152 | the reader ends lines at exactly these ten characters |
| Consolidation.TwinAt | src/egr/memory/service.py:494-504 | the first survivor alike, and none before it is |
| Consolidation.Memory.FindTwin | src/egr/memory/service.py:494-504 | the search loop finds that position |
| Consolidation.Memory.FindDuplicates | src/egr/memory/service.py:484-525 | the sweep computes the specified pairs, and marks losers in the store only when applied |
| Consolidation.Memory.Prune | src/egr/memory/service.py:527-534 | archived records past retention are counted, and removed only when applied |
| Consolidation.Memory.Consolidate | src/egr/memory/service.py:466-544 | store and report are the specified ones for every combination of apply and prune |
| Consolidation.SweepSplits | src/egr/memory/service.py:486-525 | an applied sweep leaves each record either a survivor or the loser of exactly one pair |
| Consolidation.PairsCountTheRest | src/egr/memory/service.py:486-525 | applied or not, the pairs number what was swept less the survivors |
| ConsolidationForest.EveryPairIsDeserved | src/egr/memory/service.py:494-518 | in every pair the two are alike and the winner is at least as salient |
| ConsolidationForest.SweepGoesForward | src/egr/memory/service.py:507-525 | whoever won a pair can only lose a later one |
| ConsolidationForest.PathsDoNotReturn | src/egr/memory/service.py:520-522 | so following links never returns to where it started |
| ConsolidationForest.EveryPathEndsAtASurvivor | src/egr/memory/service.py:520-522 | from every record swept the links lead to a survivor, each step between look-alikes, salience never falling |
| ConsolidationForest.AppliedRunArchivesTheLosers | src/egr/memory/service.py:475-525 | an applied run archives and links exactly the losers and leaves every other record as it was |
| ConsolidationForest.CandidatesAreTheNewest | src/egr/memory/service.py:475-479 | swept are the newest of the records not archived, newest first, as many as the limit lets in: whatever is left out is no newer than anything swept |
| ConsolidationForest.KeptOf | src/egr/memory/service.py:527-534 | pruning removes exactly the archived records past retention |
| ConsolidationReport.NothingToReportIff | src/egr/memory/service.py:484-518 | no pair is reported exactly when no two records swept are alike |
| ConsolidationReport.LookAlikesAreReported | src/egr/memory/service.py:475-518 | with room for all, two records not archived that look alike never go unreported |
| ConsolidationReport.WhatIsLeft | src/egr/memory/service.py:519-534 | a run not applied leaves the store; an applied one that prunes leaves what it would leave without pruning, less the archived records past retention |
| ConsolidationReport.ReportCounts | src/egr/memory/service.py:536-544 | the report's numbers, said of the store: records not archived up to the limit, those of them that did not survive, archived ones past retention, and the first twenty pairs |
| ConsolidationForest.ConsolidatedKeepsForest | src/egr/memory/service.py:466-534 | any run keeps the store's links a forest |
| ConsolidationForest.RunsLeaveAForest | src/egr/memory/service.py:466-534 | from any store whose links are a forest, any number of runs, with any scoring and pruning, leaves a forest, whatever is written, changed, archived and forgotten between them |
| ConsolidationForest.StoreHasNoCycle | src/egr/memory/service.py:520-522 | in such a store following `duplicate_of` never comes back |
| ConsolidationLimits.DryRunSurvivorsAreApart | src/egr/memory/service.py:486-525 | a dry run's survivors are pairwise unlike |
| ConsolidationLimits.AppliedAsForetoldIff | src/egr/memory/service.py:519-525 | the applied sweep ends as the dry run foretold exactly when no loser the dry run reports is among its own survivors |
| ConsolidationLimits.NeverRisingIsForetold | src/egr/memory/service.py:507-525 | if salience never rises along the sweep, dry and applied agree and survivors are pairwise unlike |
| ConsolidationLimits.ApartForEverySalienceIff | src/egr/memory/service.py:507-525 | for a given order, survivors are pairwise unlike whatever the saliences exactly when every record's earlier look-alikes are alike themselves |
| ConsolidationLimits.SwapLeavesLookAlikes | src/egr/memory/service.py:519-525 | three records for which a replacement leaves two look-alikes standing, unlike the dry run |
| Conditions.EagerAgreesWithShortCircuit | src/egr/policies/conditions.py:77-129 | where the eager evaluator gives a value, short-circuit evaluation gives the same |
| ConditionMeaning.EvaluatorAgrees | src/egr/policies/conditions.py:77-145 | the evaluator gives a value exactly when it is the one the expression has by a relation without errors and order of evaluation: names, and/or over all parts, chains up to the first comparison that does not hold, sixteen functions, None comparing only by `==` and `!=` |
| ValueMeaning.EqualMeans | src/egr/policies/conditions.py:26-35 | `==` as conditions use it: numbers and truth values by amount, texts and None when the same, lists place by place, dictionaries key by key |
| ValueMeaning.OrderMeans | src/egr/policies/conditions.py:26-35 | `<` orders numbers by amount, texts by code point and lists, and nothing else |
| ValueMeaning.ListOrderMeans | src/egr/policies/conditions.py:26-35 | lists are ordered as the items where they first differ, and by length when they do not |
| ValueMeaning.OrderTurnsRound | src/egr/policies/conditions.py:26-35 | turning a comparison round turns its outcome round |
| ValueMeaning.ContainsMeans | src/egr/policies/conditions.py:33-34 | `in`: texts by what stands in them, lists by an equal item, dictionaries by key, and which containers refuse |
| ValueMeaning.HoldsMeans | src/egr/policies/conditions.py:26-35 | how the eight operators hang together |
| ConditionFacts.TaintedNeverEvaluates | src/egr/policies/conditions.py:90-129 | an unsupported part in a position always reached makes every evaluation fail, whatever and/or stand around it |
| ConditionFacts.ShortCircuitWouldHideIt | src/egr/policies/conditions.py:90-94 | short-circuit evaluation would not |
| ConditionFacts.KeywordsAreSteppedOver | src/egr/policies/conditions.py:120-126 | keyword arguments of a call are not looked at: whatever stands in one, the call evaluates as without it |
| ConditionFacts.FragmentNeverGained | src/egr/policies/conditions.py:131-145 | over and/or of names, constants and safe comparisons, removing facts never turns false into true |
| ConditionFacts.ComparisonNeverGainedIff | src/egr/policies/conditions.py:131-145 | a comparison of names and constants, compared as the host compares values, has that property exactly when it is safe: two constants; `==` against a constant other than None or of one name with itself; `!=` against None or of one name with itself; any other operator always |
| ConditionFacts.NegatedComparisonNeverGainedIff | src/egr/policies/conditions.py:95-97 | a negated comparison has that property exactly when it is safe: two constants; `==` against None or of one name with itself; `!=` against a constant other than None or of one name with itself; an order or a containment only where no value makes it hold, as in `x < x`, `x < ''` or `x in []` |
| ConditionFacts.NegationNeverGainedIff | src/egr/policies/conditions.py:95-97 | a negated name never has it, a negated constant always |
| PolicyEngine.ArgumentsCannotForge | src/egr/policies/engine.py:121-142 | request arguments never change the five reserved facts |
| PolicyEngine.PatternMeaning | src/egr/policies/engine.py:107-119 | a plain pattern means that action, one ending in `.*` every action below it, one beginning with a star every action that ends so |
| PolicyMeaning.ConcernsIffApplies | src/egr/policies/engine.py:68-73 | a rule concerns a request exactly when its pattern names the action and its environments and agents, if it has any, hold the situation's |
| PolicyMeaning.EachFactIsSeen | src/egr/policies/engine.py:121-142 | each name means to a condition: the arguments as a whole, an argument unless the name is reserved, what the situation adds, what security says, or what the engine knows |
| PolicyMeaning.FirstDecisiveDecides | src/egr/policies/engine.py:64-93 | a rule is decisive when it applies and its condition held or failed; the first decisive rule by priority, id and position decides: its own decision, ids and role when its condition held, a denial with its ids when it failed |
| PolicyMeaning.DefaultIffNoneDecisive | src/egr/policies/engine.py:95-98 | the default denial is the answer exactly when no rule is decisive |
| PolicyMeaning.AllowlistDenies | src/egr/policies/engine.py:54-60 | an agent whose tools do not name the requested one is denied before any rule |
| PolicyMeaning.AllowsToolIff | src/egr/domain/agent.py:45-56 | an agent may use a tool exactly when it lists none, or one of its patterns names the tool |
| PolicyEngine.Engine.AddPolicy | src/egr/policies/engine.py:38-42 | afterwards there are the new policy and the old ones except, when replacing, those with its id, in the order in which they decide; the table is left alone |
| PolicyEngine.Engine.SetPolicies | src/egr/policies/engine.py:44-47 | installing keeps the built-in policies and merges by id, the later one winning |
| PolicyEngine.Engine.Condition | src/egr/policies/engine.py:101-105 | a compiled condition comes from the table or is compiled and kept; a condition that does not compile is not kept |
| PolicyEngine.Engine.AskOne | src/egr/policies/engine.py:66-93 | one policy's rules are asked in order until one says something |
| PolicyEngine.Engine.Evaluate | src/egr/policies/engine.py:53-98 | the agent's allowlist first, then policies in order, then denial by default; a failing condition denies |
| PolicyRuns.AddedKeepsUnique | src/egr/policies/engine.py:38-42 | adding with replacement keeps ids unique and every other policy |
| PolicyRuns.MergedAreTheLast | src/egr/policies/engine.py:44-47 | merging keeps, for each id, the last policy that carries it |
| PolicyRuns.ReplacedIsUnique | src/egr/policies/engine.py:44-47 | installing makes ids unique whatever they were before |
| PolicyMeaning.InstalledAre | src/egr/policies/engine.py:44-47 | installing leaves, in deciding order, the last installed policy of each id and the built-in ones whose id is not among them |
| PolicyRuns.DecisionIgnoresOrder | src/egr/policies/engine.py:49-50 | with unique ids the decision does not depend on the order in which policies were added |
| PolicyRuns.DecidedByTheFirst | src/egr/policies/engine.py:64-98 | the decision is that of a rule no earlier rule forestalls, by priority, then id, then position; or the default denial when all are silent |
| PolicyRuns.UnforestalledDecides | src/egr/policies/engine.py:64-98 | and any such rule's decision is the answer, so there is at most one |
| PolicyRuns.AllowedOnlyByAHoldingRule | src/egr/policies/engine.py:53-98 | nothing is allowed unless the agent may use the tool and an allowing rule of an enabled policy concerns the request with a condition that compiled and held; an error never allows |
| PolicyRuns.AllowedOnlyByASoundCondition | src/egr/policies/engine.py:74-84 | over the condition language: that rule's condition evaluated to a true value, and nothing unsupported stands in it where it is always reached |
| PolicyTable.RunKeepsSound | src/egr/policies/engine.py:38-105 | over any run of changes and questions, with no colliding rules, ids stay unique and the table holds for each rule its own condition |
| PolicyTable.AnswersAreTableFree | src/egr/policies/engine.py:53-105 | so every answer is the one given without a table |
| PolicyTable.TableIsTruthfulIff | src/egr/policies/engine.py:101-105 | over all runs that use only the given rules, the table is truthful exactly when no two of them share a key and differ in condition |
| PolicyTable.KeysCollideIff | src/egr/policies/engine.py:102 | different rules share a key exactly when their ids are equal and one has no condition and the other the text None, or one id goes on with a colon and a text that begins the other rule's condition |
| PolicyTable.KeysWithoutColonsCollideIff | src/egr/policies/engine.py:102 | with ids free of colons only the first can happen |
| PolicyTable.ColonsCollide | src/egr/policies/engine.py:102 | the ids a and a:b with the conditions b:c and c share a key |
| Truncation.KeepTail | src/egr/models/gateway.py:606-614 | the backward loop keeps the specified tail, in order |
| Truncation.TruncateToFit | src/egr/models/gateway.py:594-633 | the request is cut to the system messages and that tail, or comes back unchanged |
| Truncation.TailIsLongest | src/egr/models/gateway.py:606-612 | a tail fits exactly when it starts no earlier than the kept one |
| Truncation.NothingKeptIff | src/egr/models/gateway.py:615-619 | nothing is kept exactly when there is no system message and the last message alone is over the budget; a system message is never cut short, so the branch that would cut one is never taken |
| Truncation.TruncatingAgainChangesNothing | src/egr/models/gateway.py:594-633 | truncating again changes nothing |
| Truncation.JoiningCosts | src/egr/models/gateway.py:588-591 | the joined prompt is estimated at most one token per message, save one, above the messages one by one |
| Truncation.AlwaysFitsIff | src/egr/models/gateway.py:486-490 | with room for the smallest budget and the system part, keeping `k` messages always gives a prompt that fits exactly when `k` is at most 65 |
| TruncationMeaning.TruncatedIs | src/egr/models/gateway.py:594-633 | kept are all system messages and the longest tail of the others that fits beside them in what the window leaves after the answer and 64 tokens, 256 at least |
| TruncationMeaning.PlacesOf | src/egr/models/gateway.py:602-603 | system messages, and the others, are exactly those of that role, in order |
| TruncationMeaning.CostIsTheSum | src/egr/models/gateway.py:588-591 | one token for every four characters, one at least, summed message by message |
| TruncationMeaning.ReportedIs | src/egr/models/gateway.py:629-633 | reported are the characters dropped and the messages kept and given |
| TruncationMeaning.PromptLength | src/egr/models/gateway.py:255-256 | a prompt is as long as the messages joined by newlines |
| Gateway.CapabilityDoesNotMatter | src/egr/models/gateway.py:183-202 | with distinct provider names, the capability asked for changes neither who is tried nor in which order |
| Gateway.CandidatesAreTheAllowed | src/egr/models/gateway.py:183-202 | every allowed provider is a candidate and no other, and none comes before one that ranks higher under the strategy |
| Gateway.Fitting | src/egr/models/gateway.py:497 | exactly the candidates whose window the request and its answer fit |
| Gateway.ModelGateway.EnforceBudget | src/egr/models/gateway.py:329-342 | the first scope, task before day, whose recorded spending has reached its limit, if exceeding denies |
| Gateway.ModelGateway.TryProviders | src/egr/models/gateway.py:265-327 | providers are tried in order until one answers or fails in a way of its own, which ends the call unrecorded; every other attempt is recorded, one that found no service at cost zero |
| Gateway.ModelGateway.CompleteAsk | src/egr/models/gateway.py:212-327 | the whole call: budget, candidates, pinned provider, overflow routing, attempts, and the error it ends with |
| Gateway.AttemptsAreProper | src/egr/models/gateway.py:265-327 | each provider is sent the whole request if it fits and the truncated one only if it does not and cutting is allowed; every attempt is recorded but one that ends the call with an exception of its own; only the last attempt of an answered call can cost |
| Gateway.EscalationDoesNotCut | src/egr/models/gateway.py:492-533 | under escalation, if some candidate fits, those that fit are the ones tried, and each gets the whole request |
| Gateway.FirstNotPassedOverEnds | src/egr/models/gateway.py:261-326 | providers are asked in order; one that finds no service is passed over at no cost, and the first that is not ends the call: with its answer and cost, with a denial, an overflow or its own failure |
| GatewayMeaning.CandidatesMean | src/egr/models/gateway.py:183-202 | candidates are the providers that may be asked, each as often as configured, in the order of the strategy, spelled out |
| GatewayMeaning.ListingComesFirst | src/egr/models/gateway.py:189-195 | all the capability decides: of candidates that tie, which have one name, those that list it come first |
| GatewayMeaning.ChoiceHolds | src/egr/models/gateway.py:226-232 | chosen from are exactly the configured providers that may be asked and, with a pinned name, carry it |
| GatewayMeaning.TriedAre | src/egr/models/gateway.py:492-533 | tried are all of them, or under escalation those whose window fits, if there are any |
| GatewayMeaning.EndsUnaskedIff | src/egr/models/gateway.py:226-253 | a limit, or nobody to ask, ends the call with nothing sent or recorded, and with which error |
| GatewayMeaning.EndsAtTheFirst | src/egr/models/gateway.py:255-326 | otherwise the call ends at the first provider that is not passed over, and past all of them with no provider available |
| GatewayMeaning.BlockedIff | src/egr/models/gateway.py:329-342 | a call is stopped exactly where exceeding denies and a limit has been reached, the task's before the day's |
| GatewayMeaning.SpentIsTheSum | src/egr/models/gateway.py:333-336 | spending is summed entry by entry, on a task over all days, on a day from that day on |
| Budget.SpendingIsBounded | src/egr/models/gateway.py:329-342 | for any interleaving of checks and records by at most n callers at cost at most c, over any number of days, what a task or a day has recorded stays below its limit plus n times c |
| Budget.BoundIsMet | src/egr/models/gateway.py:329-342 | and a run exists that records one less than that |
| Budget.CompleteIsARun | src/egr/models/gateway.py:212-327 | what one call of the gateway records is what one caller's steps record |
| Cron.ValuesAreSteps | src/egr/orchestration/cron.py:56 | allowed are the start and what is reached from it in whole steps up to and including the end |
| Cron.ReadField | src/egr/orchestration/cron.py:25-57 | the loop over a field's pieces computes the specified set, or the error |
| Cron.ParsedFieldIsWithin | src/egr/orchestration/cron.py:54-57 | whatever the text, what a field allows lies in its range and is not empty |
| Cron.FieldReads | src/egr/orchestration/cron.py:25-57 | a printed list of terms reads as exactly the values the terms admit, or as an error when one is out of range |
| Cron.ExpressionReads | src/egr/orchestration/cron.py:60-72 | a printed expression reads as its five fields, and is an error when one of them is |
| CronMeaning.ExpressionMeans | src/egr/orchestration/cron.py:60-76 | a printed expression can be read exactly when every term is within its field's bounds, and then matches a moment exactly when all five fields let it through, days of the week counted from Sunday |
| CronMeaning.StrayCommaIsError | src/egr/orchestration/cron.py:27-33 | an empty field or a stray comma is an error |
| CronMeaning.StepAlone | src/egr/orchestration/cron.py:35-40 | a step alone is a step over the whole field |
| Cron.NextAfter | src/egr/orchestration/cron.py:78-87 | the least matching minute strictly after the moment within the horizon; none exactly when there is none |
| Scheduler.WorkflowScheduler.Due | src/egr/runtime/scheduler.py:24-52 | the loop lists broken schedules and the workflows due and not yet run in this minute |
| Scheduler.WorkflowScheduler.Tick | src/egr/runtime/scheduler.py:81-100 | each ready workflow is started once; a dry run starts nothing |
| SchedulerMeaning.ListedIff | src/egr/runtime/scheduler.py:24-52 | ready are exactly the enabled workflows on cron whose expression matches and whose latest run is not of this minute, broken exactly those whose expression cannot be read |
| SchedulerMeaning.OffNeverRuns | src/egr/runtime/scheduler.py:32-33 | a workflow that is switched off or not on cron is never started |
| Scheduler.NeverTwiceAMinute | src/egr/runtime/scheduler.py:24-100 | over any ticks whose clock does not go back, no workflow runs twice in a minute |
| Scheduler.OnceInEveryWantedMinute | src/egr/runtime/scheduler.py:24-100 | and in every minute in which a tick found it wanted it runs exactly once |
| Scheduler.RunsAreServed | src/egr/runtime/scheduler.py:40-42 | a tick runs a workflow exactly when it wants it and its minute is not the greatest one that wanted it before, since the last run is the one created latest |
| Scheduler.OnceAMinuteUnlessTheClockReturns | src/egr/runtime/scheduler.py:40-42 | whatever the clock does, no workflow runs twice in a minute exactly when for none of them a minute that wanted it wants it again after a later minute did |
| Scheduler.ClockGoingBackRunsTwice | src/egr/runtime/scheduler.py:40-42 | a clock that goes back from a later minute to one already served: the workflow runs in it again |
| Scheduler.TwoTicksInAnEarlierMinuteRunTwice | src/egr/storage/repositories.py:759-771 | two ticks in one minute after a tick in a later one: the workflow runs in both, because only the later minute's run is looked at |
| Packs.PackService.UpdatePlan | src/egr/packs/service.py:274-322 | the loop sorts the files a version ships into added, updatable and conflicting |
| Packs.PlanPartitions | src/egr/packs/service.py:286-312 | every planned file is in exactly one of the three; in conflict are exactly those edited since |
| PackMeaning.AccountsForWhatItShips | src/egr/packs/service.py:161-256 | after an installation or update the version is the pack's, and accounted for are exactly its manifest and what it ships |
| PackMeaning.OthersAreUntouched | src/egr/packs/service.py:184-231 | no other file changes |
| PackMeaning.InstallWrites | src/egr/packs/service.py:184-231 | an installation writes every file it ships whatever was there, and records its fingerprint |
| PackMeaning.ManifestIsWritten | src/egr/packs/service.py:161-200 | the manifest is written and, unless in conflict, its fingerprint recorded |
| PackMeaning.RemovalIsStoppedIff | src/egr/packs/service.py:357-362 | a removal is stopped exactly by a file accounted for that cannot be read |
| PackMeaning.RemovalTakes | src/egr/packs/service.py:357-368 | otherwise exactly the files accounted for go that are not known to have changed; the others are kept, and listed as such |
| Packs.PackService.Materialize | src/egr/packs/service.py:161-256 | files that may be written are written and fingerprinted, the others are preserved with the record they had |
| Packs.PackService.ApplyUpdate | src/egr/packs/service.py:324-348 | an update plans, is refused when nothing would change, and otherwise materializes its plan |
| Packs.PackService.Remove | src/egr/packs/service.py:350-371 | recorded files still as recorded go, edited ones stay; a file that cannot be read stops the removal where it is |
| PackEdits.MaterializedLeaves | src/egr/packs/service.py:184-234 | a protected file keeps its content, and is accounted for with its record exactly when the version ships it |
| PackEdits.RefusedIff | src/egr/packs/service.py:313-338 | an update is refused exactly when it keeps the version number and every file it ships is there and unedited, whatever text it ships |
| PackEdits.UpdateReplaces | src/egr/packs/service.py:192-231 | an update that is not refused brings every shipped file that was not edited, or with overwriting every shipped file, to the shipped text and records its fingerprint |
| PackEdits.UpdatesLeaveEdited | src/egr/packs/service.py:184-240 | any number of updates without overwriting, refused ones among them, leaves an edited file as it is; its record is left exactly when every version applied shipped it |
| PackEdits.EditSurvivesIff | src/egr/packs/service.py:350-371 | after any such updates a removal that is not stopped leaves the edited file exactly when it is no longer accounted for, or it had a record and every version applied shipped it |
| PackEdits.EditIsLostWhenDroppedAndShippedAgain | src/egr/packs/service.py:233-240 | one version drops an edited file, the next ships it again: the removal takes the edit |
| CheckDigits.ValidCard | src/egr/memory/scrubbing.py:34-46 | thirteen to nineteen digits with a balanced sum |
| CheckDigits.LuhnCatchesSubstitution | src/egr/memory/scrubbing.py:38-46 | in an accepted digit string of any length every change of one digit is noticed |
| CheckDigits.LuhnMissesSwapIff | src/egr/memory/scrubbing.py:38-46 | a swap of neighbours goes unnoticed exactly when they are equal or a zero and a nine |
| CheckDigits.OneLastDigit | src/egr/memory/scrubbing.py:38-46 | for any digits before it exactly one last digit is accepted |
| CheckDigits.LuhnSumIsFromRight | src/egr/memory/scrubbing.py:38-46 | the loop adds up what the rule says from the right: the last digit as it is, the one before it doubled and its digits added, and so on |
| CheckDigits.BalancedIff | src/egr/memory/scrubbing.py:38-46 | a number is accepted exactly when that sum is a multiple of ten |
| CheckDigits.ValidCpf | src/egr/memory/scrubbing.py:53-62 | eleven digits, not all the same, with both check digits right |
| CheckDigits.ValidCnpj | src/egr/memory/scrubbing.py:65-83 | fourteen digits, not all the same, with both check digits right |
| CheckDigits.DigitsOneByOne | src/egr/memory/scrubbing.py:30-31 | the digits of a text are those of its characters, one by one, everything else passed over |
| CheckDigits.AcceptedIff | src/egr/memory/scrubbing.py:53-83 | a tax number is accepted exactly when it has its length, two different digits at least, and both check digits are what the weights, written out, make of the digits before them |
| CheckDigits.SameCheckIff | src/egr/memory/scrubbing.py:57-59 | two totals give the same check digit exactly when their remainders are equal or both zero or one |
| CheckDigits.SubstitutionMissedIff | src/egr/memory/scrubbing.py:53-83 | a change of one digit is missed exactly at these places: a personal number's first digit by one or sixth by two or nine, a company number's first or ninth by two or nine or fifth by five or six, and only when the remainders hide it |
| CheckDigits.MissedExamples | src/egr/memory/scrubbing.py:53-62 | two pairs of accepted personal numbers that differ in one digit, one of them by nine |

## Left out

- Workflows, storage, vault, roles and tools themselves: their answers are parameters of the model.
- Identity and role resolution of voters (`_authorize`): who votes, or that nobody was accepted, is a parameter of `Approve`.
- Audit events written on the side of every operation, and reloading the runtime after a file was changed.
- `TaskEngine.cancel`, agent handoff and supervision approvals: they bypass the step machine.
- An empty task id, which counts as none for the spending limit of a task.
- Redaction of arguments, output previews, artifacts and memory written after a step: they do not influence the loop.
- A task result that does not exist yet is modelled as an empty log.
- Empty step ids are outside the guarded runs: `deny` logs nothing for them.
- The manifest lists items as a sequence and is compared as a value; its JSON text is not modelled.
- Relabelling items from the restored snapshots during a rollback: they already carry those labels.
- The status FAILED, which submitting also admits and nothing in the release code sets.
- `created_at` is kept as text in the ledger and the export; parsing and printing timestamps again is taken to be the identity.
- Numbers inside payloads are integers; floats, and keys that are booleans or None, are not modelled.
- The CSV form of an export, file reading errors, and how a JSON text is parsed: a line is taken to stand for the one value
  that prints as it.
- The search of memory, reinforcement, scoping and scrubbing patterns; only the digit validators are modelled.
- Embeddings, decay and vector loading: who has a vector and how alike two records are is given.
- Parsing condition text: expressions are syntax trees, and arithmetic, calls and subscripts are any functions that may fail.
- Values of facts are None, truth values, finite numbers, texts, lists and dictionaries with text keys; not a number and the
  infinities are not modelled. Comparisons of present values may fail for any reason besides the types; where they do not,
  they are the host's.
- ConditionFacts.FragmentNeverGained: one direction only for whole expressions; the exact condition is proved for single
  comparisons and their negations, since a larger expression can cancel an unsafe part.
- `explain`, which repeats the evaluation as a trace.
- Sanitizing a request for an external provider: the provider's reply says only whether data may leave.
- A gateway without a usage repository, which neither checks nor records.
- Rounding of costs to eight digits.
- Unicode digits: a digit is one of the ten ASCII digits.
- Calendar arithmetic: the fields of a minute are given by an arbitrary calendar function.
- The order of days against days of the week follows the code, which asks for both, not the crontab standard.
- Pack checks, proposals, backups and lineage comments: an approved update is one step.
- Competition, evaluation suites, scaffolding, media handling, servers and user interfaces.
