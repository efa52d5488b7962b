# wcode: a verified model

wcode keeps evidence that checks ran, hands repair tasks to executors, learns which files
change together, and queries and compares software graphs. This project models the
deterministic kernels behind that and proves what they promise, over every input and every
run. Each module follows one part of the program; code that changes state there is a class or
a method with loops here, proved against specification functions.

- **Evidence** (`Evidence`, `EvidenceSelection`, `EvidenceStore`, `EvidenceLosses`,
  `EvidenceFields`): records, which of them are current, what a full store may forget, and the
  listings in which it forgets too much.
- **Reconciliation** (`Scopes`, `Dependencies`, `Reconciliation`, `ReconciliationRuns`,
  `ReconciliationFields`, `SnapshotNames`, `ExecutionStore`, `ExecutionRuns`,
  `ExecutionFields`): plans, claims, runs of an execution, the snapshot store behind them, and
  runs of the executor over that store.
- **Co-change learning** (`Cochange`, `CochangeLaws`, `CochangeRefinement`, `CochangeFields`,
  `Holdout`, `HoldoutLaws`, `HoldoutFields`): decayed weights in a lazily scaled form and their
  temporal evaluation.
- **Graphs** (`SoftwareGraph`, `GraphDiff`, `GraphFields`, `Chain`, `ChainQuery`,
  `ProviderStore`, `Overlay`, `CallImpact`, `CallImpactFields`): the graph and its uniqueness
  invariant, snapshot diff, the bounded chain query, provider imports and the reverse call
  closure.
- **Acceptance policy** (`Policy`, `PolicyLaws`, `PolicyFields`): joining requirement sets.
- **Endpoint leases** (`Lease`, `LeaseProtocol`): probes, quarantine, recovery and epochs.
- **Journal** (`Journal`, `JournalRuns`, `JournalFields`): a ring that keeps failure anchors.
- **Shared** (`Wrappers`, `Text`, `Sorting`, `Directory`, `Folding`): options and results,
  lexical order and padded stamps, sorted listings, folds and when their order does not matter.

The modules named after `Fields` say what the operations mean without the predicates the
model is made of: in the fields of what goes in and comes out, with the numbers and names
written out.

Clocks, digests, encoded sizes, identifiers of processes and the decay factor are parameters.
Real numbers stand for floating point, and a directory is a list of files in name order.

## Where the code does less than it says

Each of these is a lemma with a concrete input or an exact condition, not an assumption.

- Pruning the evidence store can lose a standing failure. An acceptance receipt may say Pass
  without its own checks covering what it requires; when such a Pass is forgotten, the next
  record of its scope may supersede a failure that was current. Files are named and forgotten
  by time, so that next record can only be the incoming one or one of the same millisecond
  (`RunnerUpIsLate`): `PruneKeepsProtectedExactly` says exactly when a prune does it,
  `BackdatedPassLosesFailure` and `TiedPassLosesFailure` give full listings in which it does,
  and `NegativeOutlivesRun` proves that without such a tie no run of appends does, whatever its
  Passes cover.
- The comment on renormalisation (src/evidence/experience.rs:398-401) says that the ranking is
  unchanged. Stored weights are multiplied by the inverse of the scale although they are
  already divided by it, so only ratios survive: `DecayFaithfulExactly` says when a decay step
  keeps all weights, and `RenormalisationRevives` gives a pair whose score goes from 0 to 1000
  after 41 half-lives.
- `add_node` reports a duplicate id and replaces the old node all the same
  (`Graph.AddNode`).
- A committed execution snapshot is loaded only while fewer than 1024 of all names ever written
  sort above its own (`RegisterRun`); `BackdatedCommitIsLost` gives a run whose last commit
  cannot be loaded at all.
- A call-chain query misses callers and callees within the depth even when nothing is cut off,
  because a node first reached from one side is not followed again when the other side reaches
  it further out (src/graph/chain.rs:180-187). `FarCallerIsMissed` gives a graph of four calls
  where it does. What it finds is exactly what stands at its place on a path of calls to one
  side: `FindsInPlace` and `FollowsCalls`, which `ChainQuery.Query` promises. For roots that hold
  nothing, `CallChainIsCompleteExactly` says of which graphs an uncut answer is complete: those
  where every symbol within the depth has a path of calls to one side on which no symbol could
  be reached sooner from the other. For roots that do, that is necessary
  (`CompleteIsUnrivalled`); whether it suffices depends on the order of the edges.

## Model

| member | source | states |
|---|---|---|
| Evidence.FamilyExactly | src/evidence/mod.rs:583-598 | Which policy string, and for the deterministic family which result, puts a record with a valid receipt into which family |
| Evidence.BeatsTransitive | src/evidence/mod.rs:519-530 | The order that picks the leader of a scope is transitive |
| Evidence.BeatsTotal | src/evidence/mod.rs:519-530 | It is irreflexive, asymmetric and total up to equal ids |
| Evidence.SupersedesTransitive | src/evidence/mod.rs:533-571 | Supersession (newer, same family, level at least as strong, covering the required checks) is transitive, and as it is strictly newer a strict partial order |
| Evidence.SupersedesWholeScope | src/evidence/mod.rs:533-571 | What supersedes the leader of a scope supersedes every older record of that scope |
| Evidence.SameScopeFamily | src/evidence/mod.rs:491-518 | Records of one scope have one policy family, one level and the same required checks |
| EvidenceSelection.LeaderUnique | src/evidence/mod.rs:478-530 | A scope has at most one leader |
| EvidenceSelection.LastWord | src/evidence/mod.rs:531-578 | Behind a superseded leader stands a superseder that is itself selected |
| EvidenceSelection.DroppedIsAnswered | src/evidence/mod.rs:478-578 | Every record of the revision that is not selected is answered by a selected record of its scope or a selected superseder |
| EvidenceSelection.FailureIsNotHidden | src/evidence/mod.rs:478-578 | A failure disappears only behind a selected answer that is strictly newer, or behind another failure of its scope |
| EvidenceSelection.CurrentIdempotent | src/evidence/mod.rs:478-578 | Selecting from the selected records selects the same records |
| EvidenceSelection.ListLeadersAreLeaders | src/evidence/mod.rs:478-530 | What the scan of a list keeps depends on the set of records only, not on their order |
| EvidenceSelection.ScopeLeaders | src/evidence/mod.rs:478-530 | The scan that fills and overwrites one entry per scope ends with the leader of every scope |
| EvidenceSelection.LatestCurrent | src/evidence/mod.rs:478-578 | The selection is the leaders no other leader supersedes |
| EvidenceSelection.DeterministicPassCovers | src/evidence/mod.rs:91-119 | In the deterministic family, Pass implies covering the record's own required checks |
| EvidenceSelection.NewSupersession | src/evidence/store.rs:297-349 | If removing a record lets another leader supersede a selected one, the removed record was selected, its Pass was unbacked, and the other was runner-up of its scope |
| EvidenceSelection.RemovalKeepsCurrent | src/evidence/store.rs:297-349 | Removing a record keeps every other selected record selected, unless what is removed was selected as an unbacked Pass |
| EvidenceSelection.NegativesKeptExactly | src/evidence/store.rs:297-349 | Removing a record keeps all selected negatives if and only if it does not unmask a superseder |
| EvidenceSelection.AdditionAnswers | src/evidence/mod.rs:478-578 | A new record unselects a negative only by answering it |
| EvidenceSelection.IneligibleIsIrrelevant | src/evidence/mod.rs:478-490 | Records of other revisions, approvals and reconciliation outcomes never change the selection |
| EvidenceFields.RanAllCovers | src/evidence/mod.rs:91-99 | A receipt covers checks exactly if there are any and each of them is required, was executed by a run of that very check, and was not skipped |
| EvidenceFields.ReceiptResult | src/evidence/mod.rs:103-119 | The result of a receipt is Fail if an executed run failed, Pass if all runs passed, nothing was skipped and all required checks ran, else Inconclusive |
| EvidenceFields.ProperExactly | src/evidence/mod.rs:35-83 | Which receipts are valid, field by field |
| EvidenceFields.StorableExactly | src/evidence/mod.rs:397-464 | Which records are valid, field by field |
| EvidenceFields.NativeWorkExactly | src/evidence/mod.rs:354-395 | Which records without a recorded authority count as native verification |
| EvidenceFields.SameVerificationExactly | src/evidence/mod.rs:491-518 | Records share a scope exactly if they agree in subject, kind, producer, model, confidence, targets and authority, in policy, and in level and required checks |
| EvidenceFields.LaterWordExactly | src/evidence/mod.rs:519-530 | The leader of a scope is the later record, then the worse result, then the greater id |
| EvidenceFields.SupersedesExactly | src/evidence/mod.rs:533-571 | One record withdraws another exactly if it is newer, of the same work and family, at least as strong, and ran every check the other required, or is the full run of a legacy quick one |
| EvidenceFields.SelectedExactly | src/evidence/mod.rs:478-578 | A record is selected if and only if it is considered for the revision and no selected record overtakes it, by a later word on the same verification or by newer and stronger work |
| EvidenceFields.TypedRecordIsAnswered | src/evidence/mod.rs:91-99 | A typed record that is not selected is answered by a selected record of its scope, or by a strictly newer selected one with an executed run of each of its required checks |
| EvidenceStore.Conflicting | src/evidence/store.rs:290-298 | The pass finds two records with one id and different contents exactly when there are such |
| EvidenceStore.ProtectedIds | src/evidence/store.rs:299-326 | The ids protected are those of the negatives selected for the revision |
| EvidenceStore.PickVictim | src/evidence/store.rs:327-349 | The victim is the oldest reclaimable record that is neither incoming nor protected, else the oldest such record of the fallback kind |
| EvidenceStore.Store.Prune | src/evidence/store.rs:280-350 | A full store forgets the chosen record, or reports why not and stays as it was |
| EvidenceStore.Store.Persist | src/evidence/store.rs:14-61 | Invalid, oversized and conflicting records are refused; when pruning fails the append is rolled back and the store is unchanged |
| EvidenceStore.PruneForgetsOne | src/evidence/store.rs:280-350 | Pruning a full store removes exactly one record and never the incoming one |
| EvidenceStore.VictimUnique | src/evidence/store.rs:327-349 | The loop has no choice of victim |
| EvidenceFields.VictimExactly | src/evidence/store.rs:327-349 | The victim, field by field: the oldest self-reported record or record of another revision that may go, else the oldest record that may go |
| EvidenceFields.ForeignGoFirst | src/evidence/store.rs:333-339 | A full store never forgets a native record of the incoming revision while it holds, beside the incoming one, a record that is self-reported or of another revision |
| EvidenceStore.RunnerUpIsLate | src/evidence/store.rs:327-349 | Whoever leads the victim's scope next comes in now or is as old as the victim: an older record would have been forgotten first |
| EvidenceStore.PruneKeepsProtectedExactly | src/evidence/store.rs:280-350 | In a directory named by time, all protected negatives stay stored and selected if and only if no incoming or simultaneous record takes over the scope of an unbacked victim and withdraws one |
| EvidenceStore.PruneKeepsProtected | src/evidence/store.rs:280-350 | They always do when no unbacked Pass shares its time with another record of its scope and the incoming record is not behind one |
| EvidenceStore.NegativeLostExactly | src/evidence/store.rs:280-350 | A given negative is lost if and only if a record simultaneous with the victim takes over its scope and withdraws it, or the incoming one withdraws it itself |
| EvidenceStore.StepLosesExactly | src/evidence/store.rs:14-61 | One append loses a protected negative it does not answer if and only if it prunes and such a tie withdraws it |
| EvidenceStore.StepKeepsProtected | src/evidence/store.rs:14-61 | Without ties one append keeps a protected negative selected unless the accepted record answers it |
| EvidenceStore.NegativeInRun | src/evidence/store.rs:14-350 | In every run of appends in which no such tie withdraws it, a negative stays selected until an accepted record answers it |
| EvidenceStore.NegativeOutlivesRun | src/evidence/store.rs:14-350 | Without ties every run of appends, of any length and with any Passes, keeps it until it is answered |
| EvidenceLosses.BackdatedPassLosesFailure | src/evidence/store.rs:280-350 | A full listing in which the incoming record is older than an unbacked Pass of its scope: pruning picks that Pass and the failure is no longer selected |
| EvidenceLosses.TiedPassLosesFailure | src/evidence/store.rs:280-350 | A full store with two records of one scope and millisecond: appending an unrelated approval loses the failure |
| EvidenceStore.StepBounded | src/evidence/store.rs:14-61 | The store never exceeds 4096 records, an accepted record is in it, a refused one changes nothing |
| Scopes.ContainmentIsComponentPrefix | src/reconciliation/mod.rs:582-600 | The string test for scope containment is the prefix relation on path components, with and without case |
| Scopes.ConflictIsSharedPath | src/reconciliation/mod.rs:571-600 | Two sets of write scopes conflict exactly when some repository path is governed by both |
| ReconciliationFields.ScopeExactly | src/reconciliation/mod.rs:601-613 | Which write scopes are accepted: relative paths of proper components, without backslash, colon, NUL or line break |
| Dependencies.HasDependencyCycle | src/reconciliation/mod.rs:548-569 | For unique ids and known dependencies: false exactly when a topological order exists, true exactly when a real cycle exists |
| Dependencies.OrderExcludesCycle | src/reconciliation/mod.rs:548-569 | A topological order leaves no room for a cycle |
| Dependencies.StuckHasCycle | src/reconciliation/mod.rs:548-569 | If every unfinished entry waits for an unfinished one, walking back along dependencies closes a cycle |
| Dependencies.StuckIsCyclic | src/reconciliation/mod.rs:555-568 | The set of completed ids that stops growing short of all ids excludes every topological order |
| Reconciliation.Validate | src/reconciliation/mod.rs:498-546 | A plan is accepted exactly when ids are unique, bounds and scopes are valid, dependencies are known and there is no cycle |
| ReconciliationFields.TaskExactly | src/reconciliation/mod.rs:498-546 | Which tasks a plan may hold, field by field |
| ReconciliationFields.PlanExactly | src/reconciliation/mod.rs:498-546 | Which plans are accepted, field by field |
| Reconciliation.Execution.constructor | src/reconciliation/mod.rs:183-206 | An execution starts with every entry pending and unowned, in plan order |
| Reconciliation.Execution.Claim | src/reconciliation/mod.rs:224-268 | A claim resumes the first entry the same owner holds, else takes the first claimable one, else changes nothing |
| Reconciliation.Execution.FindResumed | src/reconciliation/mod.rs:234-247 | The first entry already held by this executor and binding |
| Reconciliation.Execution.FindClaimable | src/reconciliation/mod.rs:277-315 | The first pending entry of a wanted kind whose dependencies are completed and whose scopes no claimed writer holds |
| Reconciliation.Execution.Submit | src/reconciliation/mod.rs:317-352 | Only the owner of a claimed entry completes or fails it |
| Reconciliation.Execution.Retry | src/reconciliation/mod.rs:354-378 | Only a failed entry goes back to pending, and it loses its owner |
| Reconciliation.Execution.SetSystemTask | src/reconciliation/mod.rs:380-419 | Exactly the entries of the kind whose dependencies are completed move, and it is told whether any did |
| Reconciliation.TouchedAdvances | src/reconciliation/mod.rs:421-423 | The touched stamp is behind neither the old one nor the clock, and strictly increases if and only if it was below saturation |
| ReconciliationRuns.StepMoves | src/reconciliation/mod.rs:224-419 | Every step leaves the plan part alone and moves entries only along the allowed status changes |
| ReconciliationRuns.RunKeepsExclusion | src/reconciliation/mod.rs:277-315 | In every run from a valid plan no two claimed shared writers have conflicting scopes |
| ReconciliationRuns.WritersNeverShareAPath | src/reconciliation/mod.rs:277-315 | Hence no repository path is ever governed by two claimed shared writers |
| ReconciliationFields.ClaimedNeverShareAPath | src/reconciliation/mod.rs:615-621 | In every run from a valid plan, no path is governed by two claimed Design or Implementation tasks |
| ReconciliationFields.ClaimExactly | src/reconciliation/mod.rs:224-315 | In every run, who gets which task: the executor that holds it keeps it, else the first pending one of a wanted kind and id goes to the executor by name, if its dependencies are completed and no claimed writer shares a path with it |
| ReconciliationFields.SubmitExactly | src/reconciliation/mod.rs:317-352 | In every run, what a submission changes, and when it is refused |
| ReconciliationFields.RetryExactly | src/reconciliation/mod.rs:354-378 | In every run, what a retry changes, and when it is refused |
| ReconciliationRuns.RunKeepsDependencyOrder | src/reconciliation/mod.rs:277-315 | In every run, the dependencies of claimable kind of a started entry are completed |
| ReconciliationRuns.CompletedForever | src/reconciliation/mod.rs:317-419 | With system steps on system kinds only, a completed entry of a claimable kind stays completed |
| ReconciliationRuns.Progress | src/reconciliation/mod.rs:277-315 | When nothing is claimed or failed and something is unfinished, an entry is claimable or a pending system entry has its dependencies completed |
| SnapshotNames.NameRoundTrip | src/reconciliation/execution_store.rs:249-254 | The plan id parses back from a snapshot name, also when it holds dashes |
| SnapshotNames.ParsesExactly | src/reconciliation/execution_store.rs:249-254 | Exactly the names with a stamp before the first dash and a digest behind the last one give a plan id, the one between |
| Text.CharacterClasses | src/evidence/mod.rs:612-614 | Which characters are white space and which are control characters |
| Text.NamesFollowStamps | src/reconciliation/execution_store.rs:91-95 | Zero padding makes the lexical order of names the order of 64-bit stamps |
| Text.PaddedReadsBack | src/reconciliation/execution_store.rs:91-95 | A number that fits its width reads back from its digits |
| Text.LessIsLexical | src/reconciliation/execution_store.rs:91-95 | Strings are ordered as in a dictionary: the one that ends first, or has the smaller character where the two part, comes first |
| SnapshotNames.NamingLaws | src/reconciliation/execution_store.rs:91-95 | The names the store writes tell the plan and sort by stamp |
| ExecutionStore.PruneNeverRewinds | src/reconciliation/execution_store.rs:313-320 | Pruning the oldest names leaves a plan its newest snapshot or none, never an older one |
| ExecutionStore.CommitIsVisibleExactly | src/reconciliation/execution_store.rs:76-126 | After a commit, load returns it if and only if fewer than 1024 names sort after its name |
| ExecutionStore.CommitLeavesOthers | src/reconciliation/execution_store.rs:76-126 | A commit to one plan changes no other plan, except that its newest snapshot may be pruned |
| ExecutionStore.AdvanceSupersedes | src/reconciliation/execution_store.rs:42-57 | A stamp beyond that of the loaded snapshot is beyond everything stored for its plan |
| ExecutionStore.RegisterStep | src/reconciliation/execution_store.rs:42-126 | One transaction acts as a write to the register of its plan, as long as its file is retained |
| ExecutionRuns.RegisterRun | src/reconciliation/execution_store.rs:42-150 | After any run of transactions a plan loads its last commit if and only if fewer than 1024 of all names ever written sort above that commit's name, and nothing otherwise |
| ExecutionRuns.ShortRunLosesNothing | src/reconciliation/execution_store.rs:313-320 | So no plan is forgotten within the first 1024 commits |
| ExecutionRuns.StepAdvances | src/reconciliation/mod.rs:224-423 | Below saturation every accepted claim, submission, retry or settlement moves the stamp forward or changes nothing at all |
| ExecutionRuns.RequestIsTransaction | src/reconciliation/execution_store.rs:42-74 | So an update or insert by any sequence of such steps is a transaction |
| ExecutionRuns.Perform | src/reconciliation/mod.rs:224-419 | The execution object behaves as the steps the requests are made of |
| ExecutionRuns.ExecutorRun | src/reconciliation/execution_store.rs:42-150 | After any run of requests, accepted or refused, a plan loads the state its last accepted request left, under the same exact condition |
| ExecutionRuns.LoadedIsReached | src/reconciliation/execution_store.rs:42-226 | Whatever a plan loads after any run was reached from its first state by steps of the executor, so its claimed writers exclude each other across restarts |
| ExecutionRuns.BackdatedCommitIsLost | src/reconciliation/execution_store.rs:313-320 | A run of 1025 transactions whose last commit has the oldest stamp and is pruned at once |
| ExecutionStore.Store.Persist | src/reconciliation/execution_store.rs:76-126 | The snapshot is added under its name and the oldest beyond 1024 are dropped, or the reason is told and nothing changes |
| ExecutionStore.Store.Load | src/reconciliation/execution_store.rs:128-151 | The newest snapshot of the plan |
| ExecutionStore.Store.LoadMany | src/reconciliation/execution_store.rs:153-191 | The same as loading each plan on its own, in one reverse pass |
| ExecutionStore.Store.UpdateExisting | src/reconciliation/execution_store.rs:42-57 | Any mutation is applied to the loaded state and committed, or the reason is told and nothing is written; what moved the stamp forward is what the plan loads next while it is retained |
| ExecutionStore.Store.UpdateOrInsert | src/reconciliation/execution_store.rs:58-74 | The same from the first state of a valid plan where the plan has none |
| ExecutionFields.StorableExactly | src/reconciliation/mod.rs:472-496 | Which snapshots may be stored, field by field |
| ExecutionFields.NewestExactly | src/reconciliation/execution_store.rs:128-151 | A plan loads what its last readable file holds |
| ExecutionFields.UpdateExactly | src/reconciliation/execution_store.rs:42-74 | The answer of an update: which id is refused, what it starts from, what the mutation rejects, what is too large, and else the mutated state |
| ExecutionStore.Store.ClaimedWriterRecords | src/reconciliation/execution_store.rs:193-226 | Exactly the claimed shared writers of the newest snapshot of every plan |
| Cochange.CochangeModel.DecayTo | src/evidence/experience.rs:386-413 | One multiplication of the scale, or renormalisation once the scale is small, and nothing for time that does not advance |
| Cochange.CochangeModel.Learn | src/evidence/experience.rs:415-436 | Every path gains the level weight over breadth, every ordered pair its share |
| Cochange.CochangeModel.LearnTrajectory | src/evidence/experience.rs:438-463 | Context and changed paths gain the trajectory weight, pairs across them their share |
| Cochange.RankedScores | src/evidence/experience.rs:465-494 | Candidates with a positive combined score, capped, best first and names breaking ties, none of them an anchor |
| CochangeFields.ScoresAddUp | src/evidence/experience.rs:465-494 | A candidate scores the sum of its scores with the anchors |
| CochangeFields.RankedExactly | src/evidence/experience.rs:465-494 | There is exactly one list of everything seen with an anchor that is none and scores at all, at most 1000, best first and by name where scores are equal; it is the ranking |
| CochangeLaws.LessonKeepsDice | src/evidence/experience.rs:415-463 | Learning a change and its trajectory keeps twice the co-change below the sum of the supports |
| CochangeLaws.DiceBound | src/evidence/experience.rs:386-463 | So does every history of proper lessons under any decay |
| CochangeLaws.AssociationNeverClamped | src/evidence/experience.rs:511-518 | The clamp of the association to the unit interval never acts |
| CochangeLaws.DiceBoundIsTight | src/evidence/experience.rs:415-463 | Two changed paths, one of them in context, meet the bound with equality at every intent factor |
| Cochange.IntentFactor | src/evidence/experience.rs:577-584 | The intent factor is positive and at most 1.35 |
| CochangeFields.IntentExactly | src/evidence/experience.rs:577-584 | The factor for the intent asked for, for another one, for none recorded and for none asked for |
| CochangeRefinement.LazyRefinesEager | src/evidence/experience.rs:386-463 | Until renormalisation, stored weight times scale is the weight of the model that multiplies everything at each decay |
| CochangeRefinement.LazyScoresAgree | src/evidence/experience.rs:496-526 | Hence both models score every pair alike |
| CochangeFields.LessonGains | src/evidence/experience.rs:415-463 | What one lesson adds to the weight of a path and of an ordered pair |
| CochangeFields.WeightsAreAgedSums | src/evidence/experience.rs:386-463 | In any history in the order of time, until renormalisation, the true weight of a path or pair is the sum of everything it ever gained, each gain faded by its own age |
| CochangeFields.PairScoreExactly | src/evidence/experience.rs:496-523 | A pair scores the whole number nearest to a thousand times its association, at most one, times its weight over that weight plus three |
| CochangeRefinement.DecayFaithfulExactly | src/evidence/experience.rs:386-413 | A decay step keeps all true weights if and only if it does not renormalise or the model has no weight |
| CochangeRefinement.RenormalisationKeepsAssociation | src/evidence/experience.rs:396-412 | Renormalisation keeps every association |
| CochangeRefinement.RenormalisationRevives | src/evidence/experience.rs:396-412 | But it can lift the score of a pair from 0 to 1000 |
| Holdout.EvaluatePreparedHistory | src/evidence/experience.rs:242-345 | The batch loop computes the sum over all records of scoring each against the records strictly before it |
| Holdout.ObserveRankedCase | src/evidence/experience.rs:586-608 | One case adds its hits, predictions and expected targets to the counters |
| Holdout.RawCountModel.Learn | src/evidence/experience.rs:534-549 | Every ordered pair of paths gains the level's count |
| Holdout.CountRanked | src/evidence/experience.rs:551-567 | Partners by count, names breaking ties |
| HoldoutFields.NoIntentAsked | src/evidence/experience.rs:318-330 | The holdout learns every trajectory with the factor for no intent asked for |
| HoldoutFields.CountsAreSums | src/evidence/experience.rs:534-549 | The baseline knows exactly the pairs that ever changed together, each with the sum of its counts, at most the largest 32-bit number |
| HoldoutFields.TopIsFirstFive | src/evidence/experience.rs:273-300 | A prediction is the first five of a ranking, or all there are |
| HoldoutFields.NextAnchor | src/evidence/experience.rs:586-608 | One more anchor adds one prediction if its ranking holds anything, and as many hits as it has places with another path of the record |
| HoldoutFields.RecordFields | src/evidence/experience.rs:258-334 | A record of two or more paths is evaluated with each of them as an anchor, and expects the others each time |
| HoldoutFields.NextRecord | src/evidence/experience.rs:258-340 | Every counter of the evaluation is the sum of those of its records |
| HoldoutLaws.LaterRecordsAreInvisible | src/evidence/experience.rs:258-334 | The score of a record does not depend on records of its own time or later |
| HoldoutLaws.LessonsCommute | src/evidence/experience.rs:415-463 | Lessons of one time may be learnt in any order |
| HoldoutLaws.BatchOrderIsIrrelevant | src/evidence/experience.rs:258-334 | Reordering records of equal time changes no counter |
| HoldoutLaws.CountersFitTogether | src/evidence/experience.rs:273-340 | Hit cases are at most prediction cases, these at most evaluation cases, and true positives at most predictions and expected targets |
| SoftwareGraph.Graph.AddNode | src/graph/mod.rs:289-296 | A valid node is stored, even when a duplicate is reported |
| SoftwareGraph.Graph.AddEdge | src/graph/mod.rs:298-318 | An edge is accepted exactly when the graph with it is well formed; otherwise nothing changes |
| SoftwareGraph.Graph.AddEdgeAfterDedup | src/graph/mod.rs:320-331 | Without the duplicate scan the graph stays well formed exactly when the edge was new |
| SoftwareGraph.Graph.Validate | src/graph/mod.rs:333-358 | Success exactly for well-formed graphs, else the first fault |
| SoftwareGraph.FirstFault | src/graph/mod.rs:337-356 | The pass with its growing set of seen edges finds the first edge out of order |
| GraphFields.WellFormedExactly | src/graph/mod.rs:333-418 | Which graphs are well formed, field by field |
| GraphFields.FaultExactly | src/graph/mod.rs:333-358 | Of several faults of one edge: unknown ends first, then a bad provenance, then a bad self edge, and a repetition last |
| GraphDiff.GroupedEdges | src/graph/graph_store.rs:493-502 | One group per identity, in the order of the list |
| GraphDiff.GroupAccounts | src/graph/graph_store.rs:504-538 | In one group, what is removed or replaced is exactly what the other side lacks, with multiplicity |
| GraphDiff.GroupOneSided | src/graph/graph_store.rs:504-538 | No group both gains and loses edges; it pairs revisions in their order, and what is left over stands behind every pair |
| GraphDiff.DiffEdges | src/graph/graph_store.rs:415-439 | All groups together account for every edge, in any order of groups, and the lists are sorted |
| GraphDiff.EdgePatchExactly | src/graph/graph_store.rs:415-439 | For any two edge lists the differences turn the old edges into the new ones if and only if every common edge occurs equally often in both |
| GraphDiff.EdgePatch | src/graph/mod.rs:333-358 | On well-formed graphs they always do |
| GraphDiff.DiffNodes | src/graph/graph_store.rs:394-413 | Exactly the nodes added, removed and changed, in id order |
| GraphDiff.NodePatch | src/graph/graph_store.rs:394-413 | Applied to the old nodes they yield the new ones |
| GraphDiff.Diff | src/graph/graph_store.rs:390-479 | Counts are those of the whole difference, lists are cut at the limit, and truncation is told exactly |
| GraphDiff.UntruncatedDiffIsPatch | src/graph/graph_store.rs:390-479 | An untruncated result on well-formed graphs turns the old graph into the new one |
| GraphDiff.BeforeIsWeakOrder | src/graph/graph_store.rs:540-547 | The edge order is a weak order, so sorting by it is well defined up to ties |
| GraphFields.SameGroupExactly | src/graph/graph_store.rs:483-491 | Edges are compared within a group of the same ends, kind, provider and precision |
| GraphFields.BeforeExactly | src/graph/graph_store.rs:540-547 | The order of edges: by start, end, name of the kind, provider and revision |
| Chain.Index | src/graph/chain.rs:97-104 | The index of incident edges answers what a scan of all edges would |
| ChainQuery.Query | src/graph/chain.rs:10-196 | The search ends; at most limit nodes and three times as many edges are reported, each with its witness, and truncated only for want of room. Untruncated, an answer marks the neighbours of its roots from the right side, is complete outside call chains, and in them follows calls as far as they stand in place |
| SoftwareGraph.ClampIsNearest | src/graph/chain.rs:15-16 | A requested depth or limit is replaced by the nearest one within its bounds |
| Chain.FollowKeeps | src/graph/chain.rs:126-194 | Following one edge keeps bounds, witnesses, breadth-first order and the edge record |
| Chain.OneWayExtends | src/graph/chain.rs:142-179 | Every side mark is witnessed by a walk within the depth that sets out to that side after at most one opening of its root, and in call chains keeps to it |
| Chain.ReachProgresses | src/graph/chain.rs:180-193 | A node waits again only if a node was found or a side was marked |
| ChainQuery.WalksAreFound | src/graph/chain.rs:115-194 | Every walk within the depth ends at a reported node, no further out than the walk is long |
| ChainQuery.FinishedSearchIsComplete | src/graph/chain.rs:115-194 | Every such walk and every edge leading out of a node short of the depth is reported |
| ChainQuery.CompleteAnswerIsExact | src/graph/chain.rs:115-194 | So the answer is exactly the nodes within depth hops, at shortest distances |
| ChainQuery.AnswerIsAboutItsMode | src/graph/chain.rs:295-340 | Everything an answer holds is code within the depth, and every edge of it is of a kind its mode follows, or leads from a root container to what it holds |
| ChainQuery.FollowedToTheDepth | src/graph/chain.rs:126-194 | A complete answer leaves out no such edge of a node short of the depth, nor the node it leads to |
| ChainQuery.RootsMarkSides | src/graph/chain.rs:142-193 | What an edge of its mode joins to a root is marked from the side of that edge |
| ChainQuery.FinishedSearchFollowsCalls | src/graph/chain.rs:147-193 | In an uncut call chain, from every node at its place on a path of calls to one side, the next call to that side is shown and its end marked from it |
| ChainQuery.FullReportStops | src/graph/chain.rs:162-168 | Once as many edges are reported as may be, an edge not seen before leads nowhere, and its loss is told |
| ChainQuery.CallChainIsCompleteExactly | src/graph/chain.rs:126-194 | For roots that hold nothing, an uncut call chain holds every symbol within the depth, no further out than its nearest path of calls to one side, if and only if each has a path on which no symbol could be reached sooner |
| ChainQuery.CompleteIsUnrivalled | src/graph/chain.rs:126-194 | Whatever the roots hold, it is complete only then |
| ChainQuery.FarCallerIsMissed | src/graph/chain.rs:180-187 | A graph of four calls whose uncut call chain misses a caller within the depth |
| ProviderStore.NewestWins | src/graph/provider_store.rs:155-164 | The reverse fold holds for each provider its latest record, the greatest name winning among equal times |
| ProviderStore.Remember | src/graph/provider_store.rs:139-150 | A hint is remembered, no other hint changes, and only in a full table is one forgotten, that of the least name |
| ProviderStore.Store.Inspect | src/graph/provider_store.rs:117-154 | A file is skipped only if what it holds is outdone already |
| ProviderStore.Absorb | src/graph/provider_store.rs:155-164 | A batch with skipped files merges to what reading all of them would give |
| ProviderStore.Store.LoadLatest | src/graph/provider_store.rs:100-167 | With any consistent hints, success returns the newest record of each provider; failure means a file changed while it was read |
| Overlay.OverlayAll | src/graph/provider_store.rs:236-290 | Validated imports on a well-formed graph never fail and change no node or edge of it; new nodes come from the first fresh import that names them, and the new edges are exactly those of a fresh import between nodes of the graph or named by fresh imports up to it |
| Overlay.EdgesAfterMembers | src/graph/provider_store.rs:259-282 | One import adds exactly its edges between nodes that are there |
| GraphFields.ImportExactly | src/graph/mod.rs:209-240 | Which imports are accepted, field by field: among other things, none that passes off its findings as declared, as syntax or as a mixture |
| CallImpact.Callers | src/intelligence/analysis.rs:562-574 | One wave finds the new callers of the frontier, all of them unless the cap is reached |
| CallImpact.Impacted | src/intelligence/analysis.rs:557-581 | Only true transitive callers are added, never beyond the larger of the initial size and the cap |
| CallImpact.ImpactIsLeast | src/intelligence/analysis.rs:557-581 | Below the cap the set is the least one that holds the changed symbols and is closed under callers |
| CallImpact.TransitiveCallImpact | src/intelligence/analysis.rs:540-606 | Paths and names are those of the impacted symbols with a known place, and the count is what was added |
| CallImpactFields.AnswerExactly | src/intelligence/analysis.rs:540-606 | The places and names reported are those of symbols with a path of calls to a symbol of a changed file, of all of them below 2000, and the count is of those that did not change themselves |
| Policy.Select | src/design/project.rs:172-290 | A selection fails exactly on faulty inputs or more than 32 joined checks, else it lists the joined demand |
| PolicyFields.InputsExactly | src/design/project.rs:172-233 | Which errors are reported for which inputs: the first stage that finds something wrong reports all it finds |
| PolicyFields.StructureExactly | src/design/project.rs:293-335 | Which errors a policy and a floor have, field by field |
| PolicyFields.PathsAddUp | src/design/project.rs:203-215 | What the mapping bound counts: the paths of every id |
| PolicyFields.NamedIds | src/design/project.rs:193-202 | For the ids that some rule names, each once |
| PolicyFields.ChangeExactly | src/design/project.rs:183-203 | Which errors a change set has |
| PolicyFields.MatchesExactly | src/design/project.rs:253-263 | A rule is matched exactly by a change that touches a path, a component or a requirement it names |
| PolicyFields.DocumentsExactly | src/design/project.rs:234-252 | Only documents change exactly if every path is Markdown in the document scope that instructs no agent, and nothing executable or irregular is touched |
| PolicyFields.SelectionExactly | src/design/project.rs:234-290 | A selection demands each thing exactly if something that bears on the change demands it, and lists its demands and the rules matched in order |
| Policy.SelectedErrors | src/design/project.rs:278-281 | Behind validated inputs only the number of joined checks can be wrong |
| Policy.Pending.Merge | src/design/project.rs:337-347 | Merging joins demands, resolves the other's risk threshold and keeps the own one open |
| Policy.NormalizedExactly | src/design/project.rs:349-356 | Normalizing gives the one form of the requirements whose lists are strictly increasing with the same entries |
| Policy.NormalizedDemand | src/design/project.rs:349-356 | It changes no demand |
| Policy.MergeMatching | src/design/project.rs:253-270 | The loop joins exactly the rules the change matches |
| PolicyLaws.DirectoryCoversBelow | src/design/project.rs:59-66 | A directory covers exactly the paths whose components properly extend its own |
| PolicyLaws.SelectionIsLeastUpperBound | src/design/project.rs:234-290 | The selection is the least demand that meets the base, every matched rule and the floor at the given risk; it is sorted, free of repetition and names no threshold |
| PolicyLaws.RuleOrderIsIrrelevant | src/design/project.rs:172-290 | Reordering the rules changes neither errors nor selection |
| PolicyLaws.SelectionNeverWeakens | src/design/project.rs:234-290 | More rules, a higher floor or a higher risk never weaken the selection |
| Lease.EndpointHealthLease.BeginProbe | src/app/tunnel_policy.rs:44-51 | A probe begins when one is due and none is under way, under a new epoch |
| Lease.EndpointHealthLease.RecordSuccess | src/app/tunnel_policy.rs:53-68 | The new state, and whether there was something to recover from |
| Lease.EndpointHealthLease.RecordFailure | src/app/tunnel_policy.rs:70-84 | The new state, and whether the endpoint is beyond recovery |
| Lease.SuccessReflects | src/app/tunnel_policy.rs:53-68 | A success keeps counters and quarantine what the results applied so far say |
| Lease.FailureReflects | src/app/tunnel_policy.rs:70-84 | So does a failure |
| Lease.QuarantineIsLastPair | src/app/tunnel_policy.rs:53-84 | Quarantine is the last two equal results in a row being failures; it implies two failures and fewer than two successes |
| Lease.ResultDates | src/app/tunnel_policy.rs:53-84 | The verification time is that of the latest success that left the endpoint out of quarantine, and the next probe is due three seconds after such a success, one second after anything else |
| Lease.EligibleExactly | src/app/tunnel_policy.rs:97-100 | An endpoint is eligible exactly while out of quarantine and verified within the last minute |
| Lease.QuarantineIsUnbroken | src/app/tunnel_policy.rs:70-84 | The recorded start is the failure since which every prefix of results is in quarantine |
| Lease.RevocationNeedsUnbrokenQuarantine | src/app/tunnel_policy.rs:70-84 | A failure revokes if and only if quarantine has lasted unbroken for 30 seconds |
| LeaseProtocol.TunnelControl.Connected | src/app/tunnel_lifecycle.rs:72-91 | Only an endpoint published under its announced epoch gets a new lease |
| LeaseProtocol.TunnelControl.RetainStableAlias | src/app/tunnel_lifecycle.rs:93-105 | At most eight aliases are retained and an existing lease is kept |
| LeaseProtocol.TunnelControl.ScheduleEndpointProbes | src/app/tunnel_lifecycle.rs:272-298 | A round begins exactly the probes that are due, one for each endpoint |
| LeaseProtocol.TunnelControl.HandleEndpointProbe | src/app/tunnel_lifecycle.rs:300-363 | A result counts only for the epoch its probe was begun under |
| LeaseProtocol.AppliedAtMostOnce | src/app/tunnel_lifecycle.rs:300-363 | In every run a probe is applied at most once, however often its result comes |
| LeaseProtocol.AppliedToItsOwnLease | src/app/tunnel_lifecycle.rs:300-363 | It is applied to the very lease it was begun on, with nothing in between |
| LeaseProtocol.OneCurrentProbe | src/app/tunnel_lifecycle.rs:272-298 | A probe begins only when no earlier one could still count |
| LeaseProtocol.RunsQuarantine | src/app/tunnel_policy.rs:53-84 | In every run a lease is in quarantine exactly as the results applied to it say |
| LeaseProtocol.RunsEligible | src/app/tunnel_policy.rs:97-100 | In every run a lease is eligible exactly while the last equal pair of its results is no failure and it was verified, or created, within the last minute |
| LeaseProtocol.RunsDue | src/app/tunnel_policy.rs:44-51 | In every run a probe is due exactly when none is out that would still count and the pause after the last result is over |
| LeaseProtocol.RunsRevoke | src/app/tunnel_policy.rs:70-84 | In every run a failure revokes if and only if quarantine lasted unbroken for 30 seconds |
| Journal.ScanKeepsAnchors | src/evidence/journal.rs:586-610 | The scan keeps exactly the records that observe one of the two latest distinct failures of a code |
| Journal.FewAnchors | src/evidence/journal.rs:580-610 | There are at most sixteen of them |
| Journal.AnchorsStay | src/evidence/journal.rs:586-610 | Any part of the records that holds all anchors has the same anchors |
| Journal.PrunedHolds | src/evidence/journal.rs:576-627 | Pruning leaves at most 512 records, the newest 496 and all anchors among them |
| JournalRuns.Store.Prune | src/evidence/journal.rs:576-627 | The loops compute the pruned listing; beyond the scan bound nothing is touched |
| JournalRuns.Store.Persist | src/evidence/journal.rs:259-323 | A record is added between two prunings, or the reason is told |
| JournalRuns.RunKeepsAnchors | src/evidence/journal.rs:259-323 | After every record of every run the anchors are those of a journal that had forgotten nothing |
| JournalRuns.NewestStay | src/evidence/journal.rs:576-627 | Over any number of persists a record stays as long as fewer than 496 of all records ever persisted are newer |
| JournalRuns.SuccessesEvictNoAnchor | src/evidence/journal.rs:576-627 | The two latest distinct failures of a code outlive any number of successes and of failures of other codes |
| JournalFields.AnchorExactly | src/evidence/journal.rs:586-610 | A record is an anchor exactly if it is the last of its failure under a code and the later failures of that code are all one other |
| JournalFields.RunRetains | src/evidence/journal.rs:259-323 | After every record of every run there are at most 512; of all that ever were, those of the two latest failures of each code and those with fewer than 496 later ones are there |
| JournalFields.EverythingExactly | src/evidence/journal.rs:576-600 | All that ever were are the last 1024 of the first listing and every record since |

## Left out

- File systems: links, permissions, file sizes on disk, syncing and partial writes; a store is a list of named files, and the encoded size is a parameter.
- Encodings and digests: a digest is a function given to the store, and a listing's names are taken as given.
- Floating-point rounding and `exp2`: weights are reals and the decay factor is any function into (0, 1].
- Lengths count characters where the program counts bytes, and case is folded for ASCII only.
- Locks: a method is one atomic step; races between processes, and between pruning and reading, are not part of this model.
- Bindings, external receipts, summaries, claims and the reuse of runs in evidence records: they matter to the model only where two records are compared.
- The order of what `latest_current` returns, of the nodes of a chain answer and of matches with equal label score.
- `load_bounded`, `load_recent` and `change_fingerprint` of the evidence store, and the bound on entries that are no records.
- Unreadable snapshots in the execution store, its bound on concurrent transactions, and `status` and the intent audit of an execution.
- The activation policy of the co-change model, its cache and the lookup of related paths.
- How roots of a chain query are found: label scores and the keyword search give the roots as a parameter.
- The freshness check of provider imports against the sources: its verdict is a parameter. Parallel reads of a batch are taken in order.
- The digest of a selected policy, and validating a policy against a design.
- Wrap-around of the epoch counter of leases after 2^64 probes, the process and retry bookkeeping beside it, and the reconnect delays.
- The hash chain of the journal, read errors while pruning, and records that become valid as the clock advances: a record is valid or not for good.
- CochangeFields.WeightsAreAgedSums: requires a decay that compounds over ages, which halving every thirty days does, and a history without renormalisation, which loses true weights.
- ProviderStore.Store.LoadLatest: requires hints that are truthful about files whose stamp is unchanged, because that is what a stamp is for.
- GraphDiff.DiffNodes: the exact lists are stated for graphs whose nodes stand under their own ids, which every graph built by `add_node` satisfies.
- Files that stand under names their contents do not prescribe, which the stores never write.
- EvidenceStore.NegativeInRun: the run stays at one revision, because a new revision protects other records.
- EvidenceStore.NegativeOutlivesRun: the run stays at one revision, for the same reason.
- ExecutionRuns.ExecutorRun: says nothing once a stamp has reached 2^64 - 1, where touching cannot move it any more.
