# Verified models of the BLUT engine

BLUT is a training-orchestration engine written in Rust. This project models its
hardest logic in Dafny and proves what that logic promises, for every input,
every run and every reachable state.

| component | modules |
|---|---|
| Exact permutation test between two arms of runs | `Combinations`, `Labellings`, `PermutationTest`, `Significance` |
| Crash-tolerant trigger dispatch: dedupe store, daemon, children, disk | `SeenStore`, `TriggerProtocol`, `TriggerChildren`, `TriggerRounds` |
| Resource tuner, admission gate, calibration store with out-of-memory self-heal | `Envelope`, `Tuning`, `FootprintStore` |
| Upstream provenance graph, and the diff of recorded arguments | `ProvenanceGraph`, `Json`, `ArgDiff` |
| Civil time, sortable job ids, the rotating status log | `Calendar`, `JobIds`, `StatusLog` |
| Promotable pointers with an audit trail, for models and for plans | `Pointers`, `ModelRegistry`, `PlanRegistry` |
| Advisory cross-process lock file | `SchedulerLock` |
| Registry handles inside argument trees, and which pointers they reach | `RegistryArgs`, `ArgStrings`, `ModelHandles` |
| Shared vocabulary | `Options`, `Strings`, `Sorting`, `Arithmetic`, `Tenants` |

Code that updates things in place is modelled in place: a class with mutable
fields for each store, an array for the permutation index, loops with invariants
for the searches and walks. The two concurrent protocols (trigger dispatch and
the lock file) are state machines whose steps are single file-system calls, so a
crash or another process can come between any two of them. Hashes, clocks,
randomness, the square root, the type checker and the serialization of plans, and
the answers of other stores are parameters. Metric values and gibibytes are reals.

`dafny verify dfyconfig.toml` covers the whole project.

## Where the code and its documentation differ

The models follow the code. In these places it does less than its comments say,
and the lemma named gives the exact condition.

- The smallest two-sided p the design can produce (src/run_ledger.rs:974-984) is a
  true floor if and only if both arms have the same size: `FloorHoldsIffEqual`. With unequal
  arms the observed labelling has no mirror image, so half the stated floor is
  reachable, and "no arrangement of these numbers could be significant" is wrong
  exactly for alpha between the two: `UnderpoweredHidesIff`.
- `unix_to_ymdhms` (src/jobs.rs:473-495) is described as lossless for the whole
  signed 64-bit range. The year is cast to 32 bits, so it is lossless exactly
  before year 2^32: `NarrowingIff`.
- Job ids sort chronologically (src/jobs.rs:31-37) exactly before year 10000:
  `SortableIff`.
- A resolved cap is strictly above the bound that was hit
  (src/broker/footprint.rs:220-237) exactly while that bound is under 64 GiB:
  `ResolvedAboveBoundIff`.
- An out-of-memory bound "must never be overwritten by a (smaller, lucky) measured
  peak" (src/broker/footprint.rs:272-275). A record lowers the stored RAM if and only
  if it is exactly that: `RecordLowersIff`, `LuckyRunUndoes`.
- Tuning one dimension after the other "reaches the joint boundary"
  (src/broker/footprint.rs:149-151), for every budget, if and only if a worker costs
  at least a batch unit or one of the two has nowhere to go: `ParetoIff`,
  `CheapWorkerExample`.
- A governed alias "cannot" be bypassed at the library boundary
  (src/model_registry.rs:229-236). `promote_governed` is public and takes the
  governed set from its caller, so an alias is protected exactly when the caller's
  set names it: `GovernanceIff`.
- The replicate count that comes with an undecided comparison is meant to be
  acted on (src/run_ledger.rs:899). Arms of the advised size are decided if and
  only if alpha is at least 2/C(24, 12); below that the advice is past the
  enumeration ceiling: `AdviceDecidesIff`.
- A killed process "leaves a stale lock that the next caller cleans up"
  (src/scheduler_lock.rs:19-25). Creating the file and writing its body are two
  calls; a death or a failed write between them leaves a file nobody can read:
  `WedgesIff`. Over all runs such a lock can be acquired again if and only if some
  live process is already past a liveness test, or read a pid that can still die,
  from before; with nobody there, no later call ever removes the file:
  `WedgeLiftsIff`, `WedgeIsPermanent`.
- Stale-lock cleanup reads, asks whether the pid is alive, and unlinks by path.
  Having one cleaner at a time does not make this safe: `OneCleanerIsNotEnough`.
  What does is that no lock file disappears between a cleaner's read and its
  unlink: `ExclusiveRunsExclude`. A given holder can come to share the lock, and its
  drop can remove another holder's file, if and only if some process already read a
  pid that is dead or can still die: `HolderSharedIff`, `DropRemovesOthersIff`.
- The export drops "any artifact produced by" a restricted tenant's run, fail-closed
  (src/lineage_db.rs:1214-1216). The walk looks at one newest row per hash only, and
  lets a row pass whose run is missing or whose tenant does not parse. Nothing such
  a run produced is ever reported if and only if every newest row of everything
  such runs produced belongs to a restricted tenant's run:
  `NothingRestrictedLeaksIff`, `LaterRunUnseals`.
- Of a dropped vertex "its whole subtree stays out of the export"
  (src/lineage_db.rs:1244-1245). What it shares with a kept consumer is exported; it
  all stays out, for every root, if and only if nothing reaches both a restricted
  artifact and something below it: `SubtreeStaysOutIff`, `SharedInputEscapes`.
- The export is meant to be byte-stable across runs (src/lineage_db.rs:1266). Ties
  in the production time are broken by the order in which the database keeps its
  rows, so it is stable if and only if the newest rows of each hash look the same:
  `RowOrderHiddenIff`, `TieShows`.
- A garbled tenant "must never create a stray namespace"
  (src/model_registry.rs:128-132). Tenants are validated by what they parse to and
  kept as they were spelled; a spelling is the canonical one if and only if it is
  not empty and has no space around it: `CanonicalIff`, `StrayNamespace`. Handles are
  looked up under the canonical one only, so exactly the pointers under other
  spellings can never be reached: `ReachableIff`.
- An id that is no longer observable "cannot fire again"
  (src/trigger.rs:640-646). It can be admitted again without being observed again
  exactly when a child launched for it is still alive that nobody waits for any
  more: `ReadmitIffOrphan`, `OrphanReadmits`. Only a daemon crash, the sight of the
  marker or a failed wait leaves such a child: `OrphanWasAbandoned`.
- "A crash mid-run cannot corrupt the earlier record" (src/trigger.rs:621-622).
  Torn appends share a line. An event without a marker can be taken for dispatched,
  and two acknowledgements of one event can lack a sweep between them, exactly for
  ids spliced together from starts of other admitted ids: `TakenForDispatchedIff`,
  `SweeplessAcksIff`. There are such ids (`SpliceExample`), but real ones are SHA-256
  digests (src/trigger.rs:322-331), so a splice that is also an event takes a chance
  match of all 64 digits.

## Model

| member | source | states |
|---|---|---|
| `Combinations.Binomial` | src/run_ledger.rs:928-938 | the multiplicative loop with its early exit computes Pascal's coefficient, for all n and k |
| `Combinations.ChooseStep` | src/run_ledger.rs:934-936 | the identity that makes every division of that loop exact |
| `Combinations.ChooseSymmetric` | src/run_ledger.rs:932-933 | choosing k and choosing n - k have equally many outcomes, which justifies taking the smaller |
| `Combinations.CombosCount` | src/run_ledger.rs:1052-1095 | the recursive list of k-subsets has C(n, k) members |
| `Combinations.CombosSound` | src/run_ledger.rs:1052-1095 | every member is a strictly increasing choice of k positions |
| `Combinations.CombosComplete` | src/run_ledger.rs:1052-1095 | every strictly increasing choice of k positions is in the list |
| `Combinations.CombosSorted` | src/run_ledger.rs:1069-1086 | the list is strictly lexicographic, so nothing repeats |
| `Combinations.CombosEnds` | src/run_ledger.rs:1055-1057 | it runs from the first k positions to the last k |
| `Combinations.CombosStep` | src/run_ledger.rs:1069-1086 | moving the last movable position and restarting the ones behind it takes each member to the next |
| `Combinations.StepIsFunctional` | src/run_ledger.rs:1069-1086 | that move has one outcome |
| `Combinations.LastCannotStep` | src/run_ledger.rs:1087-1089 | the last member has no move |
| `Combinations.NextCombination` | src/run_ledger.rs:1069-1086 | the in-place inner loop performs that move on the array, and leaves the last member alone |
| `Labellings.CombosCoverChoices` | src/run_ledger.rs:1044-1095 | as plain sets the list is every n-subset of the pooled positions, each exactly once |
| `Labellings.TallyCounts` | src/run_ledger.rs:1058-1067 | counting hits along a list without repeats is the size of a set intersection |
| `PermutationTest.Enumerate` | src/run_ledger.rs:1044-1095 | the walk that stops on the count alone visits all C(n+m, n) relabellings and counts exactly the extreme ones |
| `PermutationTest.Compare` | src/run_ledger.rs:952-1111 | the whole comparison: the candidate's mean minus the baseline's, the pooled spread and the effect in units of it, which verdict is given when, the exact p-value where decided, the empty and the underpowered design, the enumeration ceiling, the advised seeds |
| `PermutationTest.WithinArms` | src/run_ledger.rs:955-972 | the reported deviation is the square root of the variance pooled from the arms with two runs or more, and the effect is absent exactly when there is none or neither arm varies |
| `PermutationTest.VarianceMeans` | src/run_ledger.rs:955-972 | the pooled variance is zero if and only if both arms are constant, and neither it nor the size of the difference depends on which arm is the baseline |
| `PermutationTest.SpreadIsPairwise` | src/run_ledger.rs:955-966 | the squared distances of an arm from its mean are the squared differences of its pairs over its size |
| `PermutationTest.VarianceIsPairwise` | src/run_ledger.rs:955-972 | so the pooled variance, with its degrees of freedom, is stated without any mean; two values against one give half their squared difference |
| `PermutationTest.DeltaFavoursCandidate` | src/run_ledger.rs:952-954 | the difference is positive exactly when the candidate's mean is larger, moves up with the candidate and down with the baseline by the same amount, and ignores a shift of both |
| `PermutationTest.ExactPIsAShare` | src/run_ledger.rs:1097 | p is the share of all relabellings that are at least as extreme, and lies in (0, 1] |
| `Significance.CannotLie` | src/run_ledger.rs:855-865 | whatever the pooled runs, the arm sizes and alpha, at most a share alpha of all relabellings would be called significant, slack included |
| `Significance.SameCount` | src/run_ledger.rs:1044-1097 | putting a relabelling's own arms to the test counts exactly the relabellings at least as far apart as it |
| `PermutationTest.ObservedIsExtreme` | src/run_ledger.rs:1052-1066 | the observed labelling always counts itself |
| `PermutationTest.MirrorIsExtreme` | src/run_ledger.rs:1052-1066 | with equal arms its complement counts too |
| `PermutationTest.SwapSymmetry` | src/run_ledger.rs:952-1111 | swapping baseline and candidate changes neither the p-value nor the floor, for all sizes |
| `PermutationTest.ExtremeAtLeast` | src/run_ledger.rs:974-979 | at least two relabellings are extreme with equal arms, at least one otherwise |
| `PermutationTest.FewestIsAttained` | src/run_ledger.rs:974-979 | some data of every pair of sizes attains that number |
| `PermutationTest.AttainableIff` | src/run_ledger.rs:1004-1024 | some data of these sizes reaches alpha if and only if the true floor does |
| `PermutationTest.FloorHoldsIffEqual` | src/run_ledger.rs:974-979 | the reported floor bounds every data set of these sizes if and only if the arms are equal |
| `PermutationTest.UnderpoweredHidesIff` | src/run_ledger.rs:1004-1024 | the underpowered verdict hides a reachable result exactly for unequal arms and alpha between 1/C and 2/C |
| `PermutationTest.HiddenResultExample` | src/run_ledger.rs:1004-1024 | one run against two: called hopeless at 0.5, and significant at 0.5 |
| `PermutationTest.ReachesMonotone` | src/run_ledger.rs:981-984 | an arm size that can reach alpha stays able to when it grows |
| `PermutationTest.SeedsNeeded` | src/run_ledger.rs:981-984 | the search returns the least size up to 32 that can reach alpha, or 32 when none can |
| `PermutationTest.SeedsNeededIsLeast` | src/run_ledger.rs:981-984 | equal arms of any size up to 32 can reach alpha on some data if and only if the advised size can and they are at least that large |
| `PermutationTest.AdviceDecidesIff` | src/run_ledger.rs:899-1043 | arms of the advised size are decided at all if and only if alpha is at least 2/C(24, 12) |
| `Combinations.CentralChooseStep` | src/run_ledger.rs:981-984 | each central coefficient from the one before, exactly |
| `SeenStore.Store.constructor` | src/trigger.rs:590-615 | loading yields the log's lines together with the standing markers |
| `SeenStore.Store.Insert` | src/trigger.rs:621-636 | memory gains the id, the log one line or as much of it as was written, an id already held adds nothing |
| `SeenStore.Store.RetainObservable` | src/trigger.rs:638-690 | memory keeps exactly the observed ids, the log is replaced as a whole or not at all, exactly the reclaimable markers go, the count of reclaimed ids is returned |
| `SeenStore.DriveOnce` | src/trigger.rs:884-906 | exactly the unseen events are dispatched and exactly the admitted ones remembered, in memory and in the log; an append that fails ends the poll there, with that event in memory and part of its line in the log |
| `SeenStore.DrivenOnce` | src/trigger.rs:884-906 | within one poll an event is dispatched again only after a refusal, and nothing already seen is dispatched |
| `SeenStore.DrivenIff` | src/trigger.rs:884-906 | exactly the events not seen before the poll are dispatched, each with an answer of its own, and one whose answers hold an admission is admitted |
| `TriggerProtocol.InsertIsTwoSteps` | src/trigger.rs:623-636 | the protocol's remember and append steps, undisturbed, are the store's insert |
| `TriggerProtocol.SweepIsRetain` | src/trigger.rs:654-690 | the protocol's sweep, run to its end, is the store's reclaim |
| `TriggerProtocol.StepKeeps` | src/sensord.rs:122-310 | every step of daemon, child, crash or restart keeps the accounting invariant: memory and log name only standing markers, up to splices; what becomes of the children is in `TriggerChildren` |
| `TriggerProtocol.RunKeeps` | src/sensord.rs:122-310 | the invariant holds after every run |
| `TriggerProtocol.ReloadIsExactlyMarkers` | src/trigger.rs:590-636 | at any moment of any run, what a restart would recover is exactly the standing markers: nothing held is lost, and an event without a marker stays eligible, unless its id is a splice of other admitted ids |
| `TriggerProtocol.TakenForDispatchedIff` | src/trigger.rs:590-690 | for every id and every history of admissions: some run with that history reloads the id without a marker if and only if the id is spliced together from the others |
| `TriggerProtocol.SpliceExample` | src/trigger.rs:621-636 | an id spliced together from two others exists |
| `TriggerProtocol.MarkersAreHistory` | src/trigger.rs:654-690 | the standing markers are exactly the ids acknowledged and not reclaimed since |
| `TriggerProtocol.MarkerStands` | src/trigger.rs:814-863 | a marker stands from its acknowledgement until a reclaim |
| `TriggerProtocol.OneAckPerReclaim` | src/trigger.rs:654-690 | in every interleaving, between two successful acknowledgements of an id a sweep whose poll did not observe it removes its marker |
| `TriggerProtocol.SweepBetweenAcks` | src/sensord.rs:35-67 | unless the id is such a splice, that whole sweep, from its poll on, lies between the two |
| `TriggerProtocol.SweeplessAcksIff` | src/sensord.rs:35-67 | for every id and history: some run has two acknowledgements of the id with no sweep started between them if and only if the id is in the history and spliced together from the others |
| `TriggerProtocol.SpawnFollowsMiss` | src/sensord.rs:240-271 | whenever a step of any run adds a child for an event, it is the spawn of a launch that looked for the event's marker, did not find it and has done nothing since |
| `TriggerProtocol.QuietRun` | src/sensord.rs:122-189 | with no child alive and nothing queued for an event, no run can admit it before a poll observes it |
| `TriggerProtocol.ReadmitIffOrphan` | src/trigger.rs:638-690 | right after a reclaim the event can be admitted again unobserved if and only if a child launched for it is still alive |
| `TriggerProtocol.OrphanReadmits` | src/sensord.rs:240-310 | such a run exists, for every event id |
| `TriggerChildren.GoneForGood` | src/sensord.rs:240-310 | over every run a child that is gone never comes back and can acknowledge nothing |
| `TriggerChildren.KilledIsSilent` | src/sensord.rs:296-306 | from every reachable wait a timeout kills the very child waited for, which never acknowledges in any continuation |
| `TriggerChildren.DeadIsSilent` | src/sensord.rs:290-295 | neither does one that died by itself |
| `TriggerChildren.OrphanWasAbandoned` | src/sensord.rs:272-295 | in every run, a child that lives without being waited for was waited for until a daemon crash, the sight of the marker or a failed wait, and by nothing since |
| `TriggerChildren.WaitedSinceSpawn` | src/sensord.rs:270-272 | a child that is waited for has been so at every step since its own spawn |
| `TriggerChildren.NoOrphans` | src/sensord.rs:240-310 | a run without those three steps leaves no child alone, whatever timeouts and deaths it has |
| `TriggerChildren.PollIsDrive` | src/trigger.rs:884-906 | for all events and answers some run of the protocol takes every event up in order and leaves memory and log as driving the poll once does |
| `TriggerChildren.QueueShrinksFromFront` | src/trigger.rs:884-906 | a poll is never left early: the dispatch ends only when every polled event was taken up, from the front |
| `TriggerRounds.PollRemembersAll` | src/trigger.rs:884-906 | in any interleaving, a poll in which no launch, wait or append fails keeps account of every polled event, and ends with all of them remembered |
| `TriggerRounds.SweepMeansRetain` | src/trigger.rs:638-690 | in any interleaving, every sweep that comes to its end is the store's reclaim: memory and log hold what was observed, and no marker of the rest stands but those whose removal failed or that were acknowledged meanwhile |
| `Envelope.EnvelopeFootprintAt` | src/broker/footprint.rs:85-102 | the in-place loop computes the saturating fold over the cost terms; `WarmMinusCold` says what the warm price does to it |
| `Envelope.FoldMonotone` | src/broker/footprint.rs:85-102 | more units in any dimensions never cost less, through every saturating step and for arbitrary terms |
| `Envelope.FootprintMonotone` | src/broker/footprint.rs:85-102 | so the footprint is non-decreasing in the searched dimension whatever is held |
| `Envelope.SaturatesMeans` | src/broker/footprint.rs:127-178 | the searched count separates: exactly the counts up to it fit, if any does |
| `Envelope.SaturatesUnique` | src/broker/footprint.rs:127-178 | there is only one such count |
| `Envelope.FitAndSaturateEnv` | src/broker/footprint.rs:119-152 | the decrement search returns the largest count up to the ceiling that fits, or 1; no such dimension gives nothing; an unprobed machine gives the declared units, at least 1 |
| `Envelope.ShrinkToFitEnv` | src/broker/footprint.rs:154-178 | the same, from the request down, with the other dimensions held |
| `Envelope.ShrinkOfHeldDimension` | src/broker/footprint.rs:154-178 | a dimension already held is not searched: the answer is the request or 1 |
| `Tuning.FootprintIsAffine` | src/broker/footprint.rs:76-102 | under the no-saturation contract the fold is the exact affine sum |
| `Tuning.WarmMinusCold` | crates/blut-types/src/envelope.rs:43-52 | without saturation a warm start and a cold one differ by the declared difference of the two prices, times what each dimension is beyond its minimum, over the terms that declare a warm one |
| `Tuning.WarmOrder` | src/broker/footprint.rs:85-102 | saturated or not, warm prices that are no higher never cost more, ones that are no lower never cost less, and without any warm and cold are the same |
| `Tuning.TermOrderIrrelevant` | src/broker/footprint.rs:76-102 | then any permutation of the terms gives the same footprint |
| `Tuning.DeclaredEstimateIff` | src/broker/footprint.rs:76-102 | cold and without overrides the estimate is the declared one if and only if the base covers each term |
| `Tuning.SyncBaseIsAffine` | src/broker/footprint.rs:104-117 | the synchronous base is the sum over the dimensions without the flag |
| `Tuning.SyncBaseAtMost` | src/broker/footprint.rs:104-117 | saturating or not, the synchronous base never exceeds the full footprint |
| `Tuning.AdmitsIff` | src/broker/admission.rs:44-98 | the gate admits if and only if RAM plus the floor fits both the box and what is available and the VRAM asked for fits every probed size; the cap granted is 2 GiB above the footprint, as far as 64 bits go |
| `Tuning.GateIsBudget` | src/broker/admission.rs:44-71 | the gate admits a RAM footprint if and only if it fits what is available above the floor |
| `Tuning.TunerAgreesWithGate` | src/broker/admission.rs:44-71 | the gate admits the searched count if and only if it would admit some count in range |
| `Tuning.CostIsAffine` | src/broker/footprint.rs:85-102 | over both dimensions the cost is a base plus a rate per worker plus a rate per batch unit |
| `Tuning.TunedIsPareto` | src/broker/footprint.rs:127-178 | workers first, then batch: no fitting pair has as many workers and as large a batch, when a worker costs at least a batch unit |
| `Tuning.ParetoIff` | src/broker/footprint.rs:127-178 | this holds for every budget if and only if a worker costs at least a batch unit or one dimension has nowhere to go |
| `Tuning.CheapWorkerExample` | src/broker/footprint.rs:127-178 | otherwise a concrete budget leaves a fitting worker unused |
| `FootprintStore.Store.Record` | src/broker/footprint.rs:571-636 | recording changes that key to the merge of its entry and the sample, and no other key, even if the save fails |
| `FootprintStore.RecordLowersIff` | src/broker/footprint.rs:268-300 | a record lowers the stored RAM if and only if it is a clean, smaller measurement on top of an out-of-memory bound, which it then replaces |
| `FootprintStore.LuckyRunUndoes` | src/broker/footprint.rs:268-300 | after one such measurement the next cap is that measurement |
| `FootprintStore.Store.Forget` | src/broker/footprint.rs:655-661 | exactly the named key goes, the answer says whether it was there, and only a removal can fail to be saved |
| `FootprintStore.Store.ResolveFlat` | src/broker/footprint.rs:536-569 | a caller gets the hint when nothing was learned or learning is off, always the hint's VRAM, a measurement as stored, and after a kill a cap between the hint and 64 GiB that exceeds what was hit, by a quarter and by 8 GiB, until that is 64 GiB |
| `FootprintStore.SourceAfter` | src/broker/footprint.rs:571-636 | after any history the stored source is out-of-memory if and only if such a bound stands that no clean measurement replaced, and the default if and only if nothing else was ever recorded |
| `FootprintStore.HistoryMeaning` | src/broker/footprint.rs:571-636 | after any history, RAM is the maximum since the last clean measurement that replaced a bound, VRAM the maximum ever, the count saturates, the time is that of the last sample |
| `FootprintStore.KeysAreIndependent` | src/broker/footprint.rs:571-636 | after any run over many keys, each key holds what its own samples alone would leave |
| `FootprintStore.ResolvedAboveBoundIff` | src/broker/footprint.rs:545-557 | the cap exceeds the stored bound if and only if that is under 64 GiB; it never falls below the hint up to there |
| `FootprintStore.CapIsLeast` | src/broker/footprint.rs:545-557 | the cap after a kill is the least one that meets the hint, 8 GiB more and a quarter more than what was hit, each as far as 64 GiB |
| `FootprintStore.EachKillGains` | src/broker/footprint.rs:545-557 | each kill recorded at no less than its cap gains at least 8 GiB until the ceiling |
| `FootprintStore.SelfHealConverges` | src/broker/footprint.rs:220-237 | any need up to 64 GiB is covered by the eighth resolve at the latest |
| `FootprintStore.SevenMayFallShort` | src/broker/footprint.rs:220-237 | eight is tight |
| `ProvenanceGraph.LineageDb.RecordEdge` | src/lineage_db.rs:722-740 | an edge is upserted by its key with lowercase hashes, so the table stays folded |
| `ProvenanceGraph.LineageDb.RecordArtifact` | src/lineage_db.rs:695-720 | exactly the row of that job and stage is replaced, its hash lowercased |
| `ProvenanceGraph.InputsForOutput` | src/lineage_db.rs:1195-1212 | the inputs of an output are exactly those recorded, each once |
| `ProvenanceGraph.GraphUpstream` | src/lineage_db.rs:1217-1274 | the walk ends on every edge table, cyclic or not; its nodes are exactly the hashes reachable through kept vertices, its edges exactly those between kept nodes, sorted, without repeats |
| `ProvenanceGraph.WalkDone` | src/lineage_db.rs:1225-1258 | with an empty queue the collected vertices are exactly the kept reachable ones |
| `ProvenanceGraph.UpstreamUnique` | src/lineage_db.rs:1217-1274 | the tables determine the graph: the order of the walk does not show |
| `ProvenanceGraph.UpstreamExists` | src/lineage_db.rs:1217-1274 | every table and root has such a graph |
| `ProvenanceGraph.NewestRowIsNewest` | src/lineage_db.rs:1167-1179 | the row a hash resolves to is one that no row of the hash is newer than, and there is none only without rows |
| `ProvenanceGraph.NodeShowsNewest` | src/lineage_db.rs:1167-1274 | each node shows, field by field, a row of its hash that no row of that hash is later than, and no row exactly if there is none |
| `ProvenanceGraph.CaseDoesNotShow` | src/lineage_db.rs:1227 | two spellings of a hash that differ in case only have the same graphs |
| `Strings.LowerIff` | src/lineage_db.rs:1227 | lowercasing identifies exactly the spellings that differ in case only |
| `ProvenanceGraph.RowOrderHiddenIff` | src/lineage_db.rs:1266-1268 | no reordering of the rows ever changes a graph if and only if the newest rows of each hash look the same |
| `ProvenanceGraph.TieShows` | src/lineage_db.rs:1167-1179 | two rows of one second give two graphs, by their order |
| `ProvenanceGraph.EdgesAreRows` | src/lineage_db.rs:1217-1274 | every reported edge is a recorded row |
| `ProvenanceGraph.NothingRestrictedLeaksIff` | src/lineage_db.rs:1208-1258 | with exclusion on, nothing a restricted tenant's run produced is reported, for any root and row order, if and only if every newest row of such artifacts is of a run present and restricted |
| `ProvenanceGraph.LaterRunUnseals` | src/lineage_db.rs:1167-1258 | an artifact of a clinical run, produced again by a default run, is exported |
| `ProvenanceGraph.SubtreeStaysOutIff` | src/lineage_db.rs:1240-1248 | nothing below a dropped vertex is ever reported if and only if no vertex reaches, through kept ones, both a consumer of a restricted artifact and something below that artifact |
| `ProvenanceGraph.SharedInputEscapes` | src/lineage_db.rs:1240-1258 | an input shared by a kept and a dropped artifact is exported |
| `Tenants.ParseInverts` | crates/blut-types/src/tenant.rs:35-101 | a tenant's rendering parses back to it |
| `Tenants.ParseIff` | crates/blut-types/src/tenant.rs:35-63 | a spelling is accepted exactly when, trimmed, it is empty or renders a tenant of one or two well-formed segments, and then it is that tenant, or the default |
| `Tenants.SegmentIff` | crates/blut-types/src/tenant.rs:46-55 | a segment is exactly ASCII letters, digits, underscores, dashes and inner dots, so it is never a dot or two and holds no separator |
| `Tenants.RestrictedIff` | crates/blut-types/src/tenant.rs:88-91 | a tenant is restricted exactly under the two project names, in any capitals |
| `Tenants.CanonicalIff` | crates/blut-types/src/tenant.rs:35-101 | an accepted spelling renders as itself if and only if it is not empty and has no space around it |
| `Tenants.PaddedSpelling` | crates/blut-types/src/tenant.rs:35-63 | every accepted spelling has a second one for the same tenant |
| `ArgDiff.UnescapeInverts` | src/lineage_db.rs:1494-1517 | key escaping is undone by the reading direction of section 3 of RFC 6901 |
| `ArgDiff.EscapeInjective` | src/lineage_db.rs:1494-1517 | distinct keys stay distinct |
| `ArgDiff.FlattenArgLeaves` | src/lineage_db.rs:1494-1517 | the recursion adds exactly the leaves of its value below its path |
| `ArgDiff.FlattenInjective` | src/lineage_db.rs:1494-1517 | different JSON values leave different leaf maps: empty objects and arrays are not lost |
| `ArgDiff.LeafIsAtPath` | src/lineage_db.rs:1494-1517 | every leaf is where its path says, when the path is split at slashes and each part unescaped to a key |
| `ArgDiff.DiffArgsJson` | src/lineage_db.rs:1458-1487 | malformed arguments are an error; otherwise one delta per differing path, in path order, with both sides' leaves |
| `ArgDiff.DiffReplays` | src/lineage_db.rs:1458-1487 | replaying the deltas turns one run's leaves into the other's |
| `ArgDiff.DiffUndoes` | src/lineage_db.rs:1458-1487 | replayed backwards they turn the second run's leaves into the first's |
| `ArgDiff.DiffEmptyIff` | src/lineage_db.rs:1458-1487 | the diff is empty if and only if both runs recorded nothing or the same JSON value |
| `Calendar.CivilDateInverts` | src/jobs.rs:483-494 | the closed-form date is a valid Gregorian date and counts back, year by year and month by month, to its day |
| `Calendar.WallClockInverts` | src/jobs.rs:476-495 | every second has a valid date and time that counts back to it |
| `Calendar.WallClockUnique` | src/jobs.rs:476-495 | and every valid date from 1970 on is the conversion of its own second count |
| `Calendar.OrderIsChronological` | src/jobs.rs:476-495 | comparing fields and counting seconds give the same order |
| `Calendar.WallClockMonotone` | src/jobs.rs:476-495 | the conversion is strictly increasing |
| `Calendar.YearBelow` | src/jobs.rs:476-495 | the seconds before a year's first are exactly those dated before it |
| `Calendar.NarrowingIff` | src/jobs.rs:473-495 | with the 32-bit year the date counts back if and only if the second lies before year 2^32 |
| `Calendar.NarrowingLosesInRange` | src/jobs.rs:473-495 | a second within the documented range whose date is lost |
| `JobIds.FixedOrder` | src/jobs.rs:46 | zero-padded numbers of one width sort as strings exactly as they do as numbers |
| `JobIds.JobIdShape` | src/jobs.rs:31-47 | before year 10000 an id has its documented fixed width, dashes where promised and digits everywhere else |
| `JobIds.JobIdReads` | src/jobs.rs:31-47 | before year 10000 an id reads back, block by block, to the nanoseconds and to the date and time that count back to its second |
| `JobIds.JobIdOrder` | src/jobs.rs:31-47 | before year 10000 ids sort as strings exactly in chronological order, down to the nanosecond |
| `JobIds.JobIdInjective` | src/jobs.rs:31-47 | and different moments have different ids |
| `JobIds.RolloverMisorders` | src/jobs.rs:31-47 | the last id of year 9999 sorts after the first of year 10000 |
| `JobIds.SortableIff` | src/jobs.rs:31-47 | all ids below a bound sort chronologically if and only if the bound is at most the start of year 10000 |
| `StatusLog.StatusFiles.RotateStatusWithCap` | src/jobs.rs:207-226 | a rotation happens exactly at or past a non-zero cap of an existing file whose rename succeeds, and then moves the whole file over the rolled one |
| `StatusLog.StatusFiles.AppendStatus` | src/jobs.rs:228-246 | rotate if due, then one line at the end of the current file, or as much of it as could be written, and an error exactly then |
| `StatusLog.StatusFiles.ReadStatusLines` | src/jobs.rs:260-278 | the non-blank lines of the rolled file, then of the current one |
| `StatusLog.FilesHoldSuffix` | src/jobs.rs:196-246 | after any run, torn appends included, the two files hold consecutive stretches of appends ending with the last, and something is missing in front exactly from the second rollover on |
| `StatusLog.KeptIsSuffix` | src/jobs.rs:196-246 | what is kept is a suffix of everything appended, at least `cap` bytes after a rollover; one rollover loses nothing, and with no append empty everything is kept if and only if there were fewer than two |
| `StatusLog.FilesStaySmall` | src/jobs.rs:196-246 | with working renames neither file ever reaches the cap and the longest line together, over any run |
| `StatusLog.NothingRolls` | src/jobs.rs:207-226 | a cap of zero, or renames that fail, keep everything ever written in the one file |
| `StatusLog.ReadsBack` | src/jobs.rs:260-278 | reading a stretch of serialized updates returns exactly them |
| `StatusLog.BlankIff` | src/jobs.rs:260-278 | the lines passed over are the ones of nothing but white space |
| `StatusLog.NonBlankIff` | src/jobs.rs:260-278 | every other line is read as often as it is there |
| `StatusLog.ReadIsRecentHistory` | src/jobs.rs:248-278 | over any run of whole appends, reading returns exactly the most recent ones in order, and all of them if and only if there were fewer than two rollovers |
| `Pointers.MoveConsistent` | src/model_registry.rs:296-316 | upserting the pointer and appending the move keep pointers and trails in step, for every key |
| `Pointers.MoveMoves` | src/model_registry.rs:296-316 | a move puts the pointer at its target whatever it was at, adds exactly that to its own trail, and leaves every other pointer and trail alone |
| `Pointers.PreviousIff` | src/registry_db.rs:287-306 | there is a previous target if and only if the key moved twice, and it is one the key moved to |
| `Pointers.TwoRollbacks` | src/model_registry.rs:495-553 | from any table in step with its trails, rolling back twice restores the pointers |
| `ModelRegistry.RegistryDb.DoRegister` | src/model_registry.rs:147-205 | a registration is a step of the registry and keeps the invariant; a bad tenant, hash or name or a collision changes nothing |
| `ModelRegistry.RegistryDb.DoPromoteGoverned` | src/model_registry.rs:461-493 | a governed promotion likewise; a governed alias without a passing verdict changes nothing |
| `ModelRegistry.RegistryDb.DoPromote` | src/model_registry.rs:237-256 | the default entry point is the governed one with the default aliases and no verdict |
| `ModelRegistry.RegistersIff` | src/model_registry.rs:147-205 | in every reachable registry a registration succeeds exactly for a parsing tenant, a safe name, 64 lowercase hex digits and no collision; then exactly that model is there, otherwise nothing changes |
| `ModelRegistry.PromotesIff` | src/model_registry.rs:258-493 | in every reachable registry a promotion succeeds exactly for a registered model of that name and tenant whose gate is met; then the pointer is at it and its trail one longer, otherwise nothing changes |
| `ModelRegistry.DefaultGoverns` | src/model_registry.rs:237-256 | the default entry point never moves prod, and treats every other alias as ungoverned |
| `ModelRegistry.RegistryDb.DoRollback` | src/model_registry.rs:495-553 | a rollback likewise |
| `ModelRegistry.StepKeeps` | src/model_registry.rs:147-553 | every operation keeps the invariant, only extends the trail, and never changes a registered model |
| `ModelRegistry.RunKeeps` | src/model_registry.rs:147-553 | over every run a pointer exists if and only if its trail is non-empty and equals its last entry, and every target belongs to its tenant and name |
| `ModelRegistry.RunOnlyGrows` | src/model_registry.rs:147-553 | trail and models only grow along any run |
| `ModelRegistry.RollbackSucceedsIff` | src/model_registry.rs:495-553 | in every reachable state rollback succeeds if and only if the trail has two entries, and installs the one before the last |
| `ModelRegistry.TwoRollbacksRestore` | src/model_registry.rs:495-553 | after any run two rollbacks restore the pointers |
| `ModelRegistry.GovernedOnlyVetted` | src/model_registry.rs:461-553 | an alias always treated as governed has only ever pointed at hashes that passed its gate earlier in the run, rollbacks included |
| `ModelRegistry.GovernanceIff` | src/model_registry.rs:318-336 | a pointer is so protected in every run with a given governed set if and only if the set names its alias, or no pointer can have that key |
| `ModelRegistry.BypassRun` | src/model_registry.rs:461-493 | otherwise two calls put an unvetted hash there |
| `ModelRegistry.StrayNamespace` | src/model_registry.rs:128-205 | two spellings of one tenant give one name and alias two pointers with different targets |
| `ModelHandles.ReachableIff` | src/registry_args.rs:233-251 | in every reachable registry, some tenant's handle is looked up under a pointer's key if and only if the pointer's tenant is spelled canonically |
| `ModelHandles.CanonicalResolves` | src/registry_args.rs:233-251 | and then its own handle, in a local launch of that tenant, resolves to its target |
| `PlanRegistry.PlanDb.DoPublish` | src/registry_db.rs:146-206 | publishing is a step of the registry and keeps the invariant; a spec that does not typecheck or belongs to another tenant changes nothing, an identical one is returned |
| `PlanRegistry.PlanDb.DoPromote` | src/registry_db.rs:235-273 | promoting likewise; a missing or foreign deployment changes nothing |
| `PlanRegistry.PublishesIff` | src/registry_db.rs:146-206 | in every reachable registry publishing succeeds exactly for a spec that typechecks and that nobody else published; then its bytes are under the fingerprint returned, and published ones stay as they are |
| `PlanRegistry.PromotesIff` | src/registry_db.rs:235-273 | a promotion succeeds exactly for a published fingerprint of the same tenant, and then the pointer is at it and its trail one longer |
| `PlanRegistry.PlanDb.DoRollback` | src/registry_db.rs:279-332 | rolling back likewise |
| `PlanRegistry.PlanDb.Resolve` | src/registry_db.rs:335-363 | under the invariant, and with a serialization that reads back, a pointer always leads to a spec that typechecked and has the pointer's fingerprint |
| `PlanRegistry.StepKeeps` | src/registry_db.rs:150-332 | every operation keeps the invariant, extends the trail and leaves published specs as they are |
| `PlanRegistry.RunKeeps` | src/registry_db.rs:150-332 | so every reachable state has it |
| `PlanRegistry.ResolvedSpecIsVetted` | src/registry_db.rs:350-363 | in every reachable state a pointer resolves to how the bytes of a vetted spec of its tenant read, or there is no pointer and no trail; a missing row cannot be seen |
| `PlanRegistry.RollbackSucceedsIff` | src/registry_db.rs:279-332 | rollback succeeds if and only if the pointer moved twice, to the target before the last |
| `PlanRegistry.DeployRoundTrip` | src/registry_db.rs:150-363 | after any run, publish, promote and resolve lead back to the exact spec if and only if its serialization reads back as it, barring a hash collision |
| `SchedulerLock.StepKeeps` | src/scheduler_lock.rs:104-285 | every call of acquire and drop, and every spawn and death, keeps the lock invariant while stale unlinks hit only the file that was read |
| `SchedulerLock.RunKeeps` | src/scheduler_lock.rs:104-285 | so whole interleavings do |
| `SchedulerLock.MutualExclusion` | src/scheduler_lock.rs:104-198 | in every such run at most one live process holds the lock, its body is in the file, and a drop is about to remove that body and no other |
| `SchedulerLock.ExclusiveIsUndisturbed` | src/scheduler_lock.rs:175-198 | it suffices that no lock file is removed while another process sits between its read and its unlink |
| `SchedulerLock.ExclusiveRunsExclude` | src/scheduler_lock.rs:175-198 | then at most one live process ever holds the lock |
| `SchedulerLock.OneCleanerIsNotEnough` | src/scheduler_lock.rs:175-198 | a run with never more than one cleaner in which two live processes hold the lock |
| `SchedulerLock.UnlinkSharesIff` | src/scheduler_lock.rs:185-198 | a cleaner that goes on to unlink and acquire shares the lock if and only if a live process owns the file it unlinks |
| `SchedulerLock.HolderSharedIff` | src/scheduler_lock.rs:175-285 | over all runs in which a process goes on holding the lock, another one can acquire it if and only if some process read a pid that is dead or can still die |
| `SchedulerLock.DropRemovesOthersIff` | src/scheduler_lock.rs:104-128 | a drop that read its own body can go on to remove another holder's file under exactly that condition |
| `SchedulerLock.WedgesIff` | src/scheduler_lock.rs:247-285 | a step leaves the lock wedged if and only if a process dies or fails between creating the file and writing its body |
| `SchedulerLock.WedgeLiftsIff` | src/scheduler_lock.rs:175-198 | over all runs a wedged lock can be acquired again if and only if some live process found a pid dead before, or read one that can still die |
| `SchedulerLock.WedgeIsPermanent` | src/scheduler_lock.rs:175-198 | with no such process, no run at all recovers it, and nobody ever holds it |
| `SchedulerLock.FirstAcquireCanWedge` | src/scheduler_lock.rs:247-285 | one death, or one failed write, in the first acquire of all brings that about |
| `SchedulerLock.LiftableWedge` | src/scheduler_lock.rs:175-285 | a reachable wedged lock that a second cleaner still lifts |
| `SchedulerLock.AloneAcquiresIff` | src/scheduler_lock.rs:175-198 | left alone, acquire succeeds if and only if there is no file or a readable one naming a dead pid |
| `SchedulerLock.UnlockedMeansFree` | src/scheduler_lock.rs:207-225 | a passed query means nobody holds the lock |
| `SchedulerLock.QueryRefusesIff` | src/scheduler_lock.rs:207-225 | while the invariant holds the query refuses exactly when somebody holds the lock or a live process has the pid a dead holder left; a wedged lock passes |
| `SchedulerLock.DropReadsFirst` | src/scheduler_lock.rs:104-128 | in any state an uninterrupted drop removes the file exactly when its body names that process and its own time |
| `SchedulerLock.DropReleases` | src/scheduler_lock.rs:104-128 | and under the invariant it frees the lock, which the next to come acquires |
| `RegistryArgs.ResolvedHandles.PushDataset` | src/registry_args.rs:65-81 | a binding is kept unless one with the same tenant, name and version is held |
| `RegistryArgs.ResolvedHandles.Absorb` | src/registry_args.rs:53-63 | folding in another pass pushes its bindings in order |
| `RegistryArgs.ResolveInner` | src/registry_args.rs:157-210 | the walk that pushes as it goes rebuilds the tree and leaves exactly the bindings met up to the first error |
| `RegistryArgs.ResolvesIff` | src/registry_args.rs:157-258 | the walk succeeds with a tree if and only if that tree is the original with each string replaced by what it alone resolves to: same lengths, same keys, nothing else touched |
| `ArgStrings.ModelUriIff` | src/registry_args.rs:233-251 | a model handle is read as exactly the name and alias it is made of |
| `ArgStrings.StringResolves` | src/registry_args.rs:212-258 | one string resolves exactly to what its scheme's store answers for it, with a binding for a dataset handle only, or fails for a reason that holds |
| `ArgStrings.WalkIsFlat` | src/registry_args.rs:157-210 | the walk over a tree is the walk over the list of its strings |
| `ArgStrings.ResolvedStrings` | src/registry_args.rs:157-258 | every string of a resolved tree is what the string at its place stands for, the bindings are the answers for its dataset handles in order, and a failing tree fails at its first failing string |
| `RegistryArgs.Visit` | src/registry_args.rs:274-293 | the flag-setting scan adds exactly the stores some string of the tree names |
| `RegistryArgs.ResolveRecipeArgsReported` | src/registry_args.rs:97-120 | unless a needed store does not open, which is an error, opening only the needed ones has the outcome of opening all, reports each binding once in order of first appearance, and never answers "registry unavailable" |
| `RegistryArgs.NeededSuffices` | src/registry_args.rs:157-298 | any stores that cover the scan give the same result and bindings as all three |
| `RegistryArgs.NeededIsNecessary` | src/registry_args.rs:212-298 | a walk that succeeds had every store the scan asks for |
| `RegistryArgs.NeverUnavailable` | src/registry_args.rs:212-258 | with those stores open the unavailable error is unreachable |
| `RegistryArgs.RestrictedStaysLocal` | src/registry_args.rs:233-239 | away from its node, a restricted tenant's tree with a model handle anywhere in it never resolves |
| `RegistryArgs.UriFreeUnchanged` | src/registry_args.rs:82-83 | a tree without handles comes back unchanged and reports nothing |
| `RegistryArgs.AbsorbedIsFirstOccurrences` | src/registry_args.rs:53-81 | what is kept is the first occurrence of each key, in order of appearance |
| `RegistryArgs.AbsorbedNoRepeats` | src/registry_args.rs:53-81 | no key is held twice |
| `RegistryArgs.AbsorbIdempotent` | src/registry_args.rs:53-63 | absorbing again changes nothing |
| `RegistryArgs.AbsorbAssociative` | src/registry_args.rs:53-63 | passes may be folded in any grouping |

## Left out

- TriggerProtocol.SweepBetweenAcks: excludes ids that are splices of other admitted ids; `SweeplessAcksIff` shows that exactly those have to be excluded.
- TriggerProtocol.ReloadIsExactlyMarkers: excludes the same ids; `TakenForDispatchedIff` shows that exactly those have to be excluded.
- PermutationTest.Compare: the mean of an empty arm and an effect size without it are absent rather than NaN.
- Tuning.SyncBaseIsAffine: stated under the contract that nothing saturates, which is what the declaration promises; `SyncBaseAtMost` needs no such contract.
- StatusLog.ReadIsRecentHistory: a torn append merges two lines, so it speaks of whole ones; `KeptIsSuffix` covers torn ones byte by byte.
- Artifact rows are kept in whatever order the database keeps them and the first of the newest is taken, so every choice among ties is covered; recording runs is left out.
- Floating-point rounding and NaN in the comparison and the gate: reals are used, with the slack constant kept.
- The lock file is modelled as a machine over single file-system calls instead of a class, because what matters is other processes between those calls; a body that was written in part counts as not written; `await_unlock`, the holder name and the lock kind are not part of it.
- The SQLite tables are maps and sequences, and each transaction is one step. Publishing is one step too: its insert race has the outcome of running after the winner.
- File and directory errors other than the ones named in the protocols, permissions, path handling, environment variables and serialization formats.
- Event ids, fingerprints and content hashes are opaque values; cron evaluation, directory polling and the archive and prune of processed files belong to the environment, so a poll may observe anything.
- The daemon loop is modelled for one trigger binding; bindings share no store.
- In `RegistryArgs` what each store answers is a parameter.
- Lowercasing in `Lower` is ASCII; hashes hold nothing else.
- `decide_with_tenant_quota`, calibration-key composition, `forget_recipe`, `trace`, `model_card` and job-state reconciliation would only add single-branch members.
- Liveness: the protocols say what can happen, not that a live daemon or waiter eventually acts.
