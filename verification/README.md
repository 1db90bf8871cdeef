# Traceability core: models and proofs

This project models the parts of the traceability system that decide whether a plant can trust its own
records and keep running, and proves what they keep: route validation and the route engine, the per-unit
hash chain and its concurrent appends, the recall queries, the offline spool of a station, the updater,
the canonical JSON that gets signed, label rendering, and licence expiry under a clock that may be wound
back. `dafny verify dfyconfig.toml` checks everything.

## What is modelled

- **Routes** (`RouteModel`, `RouteGraph`, `Acyclicity`, `Routes`). Validation with its checks in order, and
  Kahn's algorithm with counters, queue and stuck set as the source runs it. It is proved exact against
  cycles defined as walks. A route that validates cannot deadlock.
- **Engine** (`Units`, `Engine`, `EngineRuns`, `Gates`, `EngineOrder`, `RouteSim`, `RouteScenario`). The unit
  lifecycle, gate evaluation, one attempt and what each of its gates asks for, dispositions, whole runs of attempts and
  exactly which operations they order, and the dry run tool that drives them, with what its report says about the
  scenario.
- **Evidence chain** (`HashChain`, `ChainStore`, `SerialAppends`). The chain over payload strings, and the append
  protocol as a state machine over the statements of many transactions, with the serial order it comes to. The digest
  is a parameter. No lemma assumes that it has no collisions: where one would be needed the lemma returns the
  colliding inputs (`Evidence`).
- **Recall** (`Genealogy`, `GenealogyWalks`). The recursive queries evaluated round by round, and their meaning as
  paths and as chains of links.
- **Spool** (`Faults`, `Spool`, `SpoolJson`). The file as text, writes that may stop after any character, skipping on
  load and compaction by rename, refined to a queue that knows nothing of bytes; and the lines of JSON, with the proof
  that cut and glued lines cannot be mistaken for records.
- **Updater** (`Paths`, `Manifests`, `InstallRoots`, `Trips`, `ReleaseStaging`, `ArtifactNames`, `Updater`,
  `UpdateRuns`, `StrayFiles`). The manifest rules, and an update attempt as primitive changes of a disk with files,
  directories and symlinks. Artifact names are resolved component by component, through every link of the machine,
  leftover temporary ones included, and make the directories that are missing on the way. Any primitive may fail;
  `Disk.seen` collects every image the disk holds, including half written files and half deleted directories, so a
  statement about all of `seen` is a statement about a power cut at any moment. `Life` strings attempts together.
- **Canonical JSON** (`Json`, `CanonicalJson`). The writer that pushes onto a shared buffer, a reader for its
  output, and sameness of documents defined by lookups, without reference to either.
- **Labels** (`DateFormat`, `Bindings`, `Renderings`, `Labels`, `Zpl`, `ZplStructure`, `ZplEscape`, `ZplReader`).
  Bindings, date patterns, template checks and the ZPL emitter, seen from the printer: `Split` cuts the output at its
  carets, and `ReadLabel` reads the label back.
- **Licence** (`Licence`). The monotonic clock guard and the evaluation of an entitlement, composed as the
  guard's documentation describes.

`Collections` holds the result types and the facts about sets and sequences that several modules share.

Inputs come in as parameters: the digest, which texts are versions and how they are ordered (`Semver`), the bytes
the artifact source has, the verdict of the health probe, the size of a canvas in dots, and the instant of
printing. Which I/O calls fail is an input as well: `Faults.Calls` numbers them, so that results can say what is
owed when none does.

## Where the code and its documentation part

The model follows the code. These are theorems, not remarks:

- crates/trace-store/migrations/0003_integrity.sql:114, 142 and 167 say "to any depth", and
  crates/trace-store/src/query.rs:261-262 says "every unit"; all three walks stop at 32. Each of them misses nothing if
  and only if one round more would not have found anything new (`Genealogy.RecallCompleteIff`,
  `GenealogyWalks.WalkCompleteIff` for both directions), which is so when no path without repetitions is longer
  (`Genealogy.ShortPathsAreReported`), in particular up to 33 parents (`Genealogy.RecallComplete`).
  Lines of links show the limits exactly: `Genealogy.LineIsReported`, `Genealogy.LineIsListed`,
  `GenealogyWalks.LineUpHasRows` and `GenealogyWalks.LineDownHasRow`. `Genealogy.RecallAndHistoryAreDual` says where
  recall and history differ by a level.
- apps/trace-station/src/spool.rs:15-18 says that a torn write costs the one event that was being written. The
  next append is glued to the fragment and lost as well, although it reports success
  (`Spool.TornLineTakesTheNextOne`). An append is kept if and only if it finds the file empty or at a line end
  (`Spool.AppendKeptIffClean`).
- crates/trace-store/src/query.rs:374-377 says that the stored links show deletion and reordering. What is left
  passes if and only if it is a prefix of the chain (`ChainStore.DeletionIsNoticed`, and for what SQL returns
  `ChainStore.AuditSeesDeletion`), so deletion at the end is not seen.
- crates/trace-updater/src/source.rs:51-66 refuses artifact paths that lead out of the bundle and says that nothing
  can then be written outside it. Artifact names, which decide where bytes are written
  (crates/trace-updater/src/apply.rs:278), are not checked by anything. Everything but the staging directory is left
  alone at every moment if and only if each artifact that staging gets to, with its bytes verified and the earlier
  ones written, makes no directory outside and, if it can be written at all, has a name that stays inside; or is empty
  and meets an empty file (`ReleaseStaging.StagingStaysInsideIff`). `ArtifactNames.NameReachesLiveRelease` is an input
  whose verified bytes are written over the live release, `ArtifactNames.LeftoverLinkLeadsAway` one that gets out
  through a temporary link left by an earlier process, and `ArtifactNames.ParentIsRefused` one that leaves and does no
  harm. The guard of the paths would do for the names (`ReleaseStaging.GuardedIsContained`). All results on files are
  stated for attempts in which what staging gets to stays inside (`ReleaseStaging.Contained`).
- Nothing keeps a manifest from listing one file twice, also under two spellings; it is then staged with the last
  content only (`UpdateRuns.RepeatedNameIsLost`), and satisfied if and only if the entries agree
  (`UpdateRuns.ServedExactly`).
- An error while looking for a leftover staging directory reads as its absence
  (crates/trace-updater/src/apply.rs:253), against the comment above it that a leftover is not mistaken for part of a
  release. A staged release has no unlisted file if and only if the manifest lists every file that was overlooked
  (`UpdateRuns.ServedExactly`, and `UpdateRuns.LiveReleaseIsExact` over lives); `StrayFiles.OverlookedFileGoesLive` is
  a life in which an unlisted file goes live.
- crates/trace-mark/src/zpl.rs:22-34 takes a remaining `{{` for a sign that bind was not called. Binding may leave one
  behind itself: for a given template and context exactly when a value contains `{{` or two braces meet at a seam
  (`Bindings.SurvivesIffSeam`, `ZplStructure.BoundIsResolved`).
- crates/trace-mark/src/zpl.rs:120-125 replaces control characters by codes, but nothing escapes a code that is in the
  value already, so different values print alike: `ZplEscape.EscapeRecovers` gives the exact condition.
- Predecessors suggest an order that the engine does not keep through an optional operation
  (`EngineRuns.SkippedOptional`). `EngineOrder.OrderedIffRequiredWalk` says exactly which pairs it keeps in order, and
  `EngineOrder.RunnableIff` exactly which histories runs have, also where operations share a template.

## Model

| member | source | states |
|---|---|---|
| `RouteGraph.CycleIffBlockedSet` | crates/trace-core/src/route.rs:222-266 | a route graph has a cycle exactly when some non-empty set of operations has every member waiting for another member |
| `RouteGraph.OrderRulesOutCycles` | crates/trace-core/src/route.rs:222-266 | an order of all operations in which each comes after its predecessors rules out every cycle |
| `Acyclicity.SuccessorCount` | crates/trace-core/src/route.rs:228-233 | the successor lists hold an edge as often as the predecessor lists do, so repeated predecessors are counted alike on both sides |
| `Acyclicity.BuildSuccessors` | crates/trace-core/src/route.rs:228-233 | the successor map is the transposed predecessor relation, with multiplicities |
| `Acyclicity.BuildIndegree` | crates/trace-core/src/route.rs:223-227 | each in-degree is the number of predecessors listed, repetitions included |
| `Acyclicity.ReleasedOne` | crates/trace-core/src/route.rs:244-251 | a decrement starts from at least one, so no in-degree underflows, and an operation is queued exactly when its count reaches zero |
| `Acyclicity.Release` | crates/trace-core/src/route.rs:242-252 | after a pop every in-degree counts exactly the predecessors not yet popped, and the queue holds each free operation once |
| `Acyclicity.PopAll` | crates/trace-core/src/route.rs:235-252 | the queue empties after visiting a duplicate-free order in which predecessors come first |
| `Acyclicity.StuckIsLargest` | crates/trace-core/src/route.rs:254-264 | what is left with a positive in-degree is the largest set whose members all wait for each other |
| `Collections.AscendingMembers` | crates/trace-core/src/route.rs:254-264 | the list reported of it is ascending and has exactly its members |
| `Acyclicity.AssertAcyclic` | crates/trace-core/src/route.rs:222-266 | passes if and only if there is no cycle; otherwise reports, ascending, exactly the largest self-blocking set |
| `Routes.CheckDistinct` | crates/trace-core/src/route.rs:182-190 | passes exactly when sequence numbers are distinct, else reports the first repeated one |
| `Routes.CheckEdges` | crates/trace-core/src/route.rs:192-208 | passes exactly when every predecessor is another known operation, else reports the first bad edge |
| `Routes.NoEntryMeansCycle` | crates/trace-core/src/route.rs:209-214 | a route without an entry operation has a cycle, so the entry check never rejects a route the cycle check would pass |
| `Routes.Validate` | crates/trace-core/src/route.rs:177-219 | accepts exactly the non-empty routes with distinct operations, known predecessors and no cycle; otherwise the error is the first problem in the order of the checks |
| `Routes.FirstProblemIsUnique` | crates/trace-core/src/route.rs:177-219 | the problem that validation reports is determined by the route alone |
| `Routes.ReadyMember` | crates/trace-core/src/route.rs:279-306 | an operation is offered as ready exactly when it is on the route, not completed, and each predecessor is completed or optional |
| `Routes.NoDeadlock` | crates/trace-core/src/route.rs:279-306 | on a valid route and for any completed set, also after rework has voided operations, nothing is ready only when everything is completed |
| `Units.Unit.TransitionTo` | crates/trace-core/src/unit.rs:133-145 | the state becomes the requested one exactly when the lifecycle allows it; otherwise nothing changes and the error tells a retired unit from an illegal move |
| `Units.EnteredFrom` | crates/trace-core/src/unit.rs:76-100 | each state listed with the states it may be entered from |
| `Units.ScrappedIsForever` | crates/trace-core/src/unit.rs:76-100 | over any sequence of requested transitions a scrapped unit stays scrapped |
| `Units.ShippedReturnsThroughQuarantine` | crates/trace-core/src/unit.rs:76-100 | a shipped unit accepts work again only after it has been in quarantine |
| `Engine.TryAdvance` | crates/trace-core/src/engine.rs:232-279 | the two gate loops compute the attempt described by `Advanced`: entry results, then outputs only when all of them passed; what each gate asks for is in the rows of `Gates` |
| `Engine.ApplyDisposition` | crates/trace-core/src/engine.rs:465-476 | the unit moves to the state of the disposition or, when its lifecycle forbids that, keeps state and operation |
| `EngineRuns.ResolvesAReadyOperation` | crates/trace-core/src/engine.rs:201-227 | a station is given an operation exactly when the unit is born, marked, in process or reworking, the station is active and it can perform a ready operation; what it gets is ready |
| `EngineRuns.CompletesIffAllGreen` | crates/trace-core/src/engine.rs:232-279 | an attempt completes if and only if every entry gate passes; interlocks are released exactly then, and a blocked attempt lists exactly the failed gates |
| `Gates.BlockedNamesAGate` | crates/trace-core/src/engine.rs:232-279 | an attempt is blocked if and only if some entry gate of the operation is named among its failures |
| `Gates.IdentityGate` | crates/trace-core/src/engine.rs:312-323 | an identity gate fails exactly when nothing or another uid than that of the unit was scanned |
| `Gates.OperatorGate` | crates/trace-core/src/engine.rs:324-340 | an operator gate fails exactly without an operator, with an inactive one, or with one who lacks the skill the operation asks for |
| `Gates.PreconditionGate` | crates/trace-core/src/engine.rs:341-360 | a precondition gate fails exactly when some predecessor is neither completed nor optional, an unknown one included |
| `Gates.ComponentGate` | crates/trace-core/src/engine.rs:361-390 | a component gate fails exactly when a scan matches no line of the bill of materials or a listed line was not scanned |
| `Gates.CaptureGate` | crates/trace-core/src/engine.rs:391-417 | a capture gate fails exactly when some point due for the unit has a last value that failed, or none although it is mandatory |
| `Gates.SampledIff` | crates/trace-core/src/dcp.rs:160-167 | a sampling rule picks every unit, the first one, or the multiples of n, where zero means every unit |
| `Gates.TestGate` | crates/trace-core/src/engine.rs:418-423 | a test gate fails exactly without a verdict for its test or with a failing one |
| `Gates.MarkGate` | crates/trace-core/src/engine.rs:424-455 | a mark gate fails exactly, on revisions that carry a mark, when the uid was not read back or its grade is missing or worse than the minimum |
| `Gates.DispositionIs` | crates/trace-core/src/engine.rs:285-306 | where a blocked unit goes, by the failure path and the number of the attempt |
| `Gates.CompletedReports` | crates/trace-core/src/engine.rs:262-277 | a completed attempt reports, in route order, exactly the operations not done whose predecessors are completed or optional, and the route complete exactly when every required operation is done |
| `Gates.ReportsInOrder` | crates/trace-core/src/engine.rs:232-279 | an attempt reports entry gates in their order and behind them, if none failed, the interlocks in theirs; failures are the entries that did not pass, in order |
| `EngineRuns.PreconditionIsImplied` | crates/trace-core/src/engine.rs:341-360 | a precondition gate never fails at an operation the engine resolved |
| `EngineRuns.RetriesRunOut` | crates/trace-core/src/engine.rs:285-306 | a retry path allows as many attempts as configured, and one where none is; the reported remainder is the number still to come, and the last failure quarantines |
| `EngineRuns.RunsAreInOrder` | crates/trace-core/src/engine.rs:201-279 | in every run no operation completes twice and each completes after all its direct required predecessors, with or without a precondition gate |
| `EngineRuns.InOrderIsDistinct` | crates/trace-core/src/engine.rs:201-279 | such a history lists every operation at most once |
| `EngineRuns.RequiredWalkInOrder` | crates/trace-core/src/route.rs:291-306 | the order is transitive along chains of required operations |
| `EngineRuns.SkippedOptional` | crates/trace-core/src/route.rs:301-303 | it is not transitive through an optional operation: a valid route where the third operation is ready first |
| `EngineOrder.OrderExtends` | crates/trace-core/src/route.rs:222-266 | every acyclic route has an order of all its operations in which predecessors come first |
| `EngineOrder.ShortestHistory` | crates/trace-core/src/route.rs:291-306 | any operation can be done with nothing but what leads to it through required operations |
| `EngineOrder.OrderedIffRequiredWalk` | crates/trace-core/src/route.rs:291-306 | on a valid route one operation comes before another in every order the engine may take if and only if a walk leads from it to the other on which everything before the end is required |
| `EngineOrder.RunnableIff` | crates/trace-core/src/engine.rs:201-279 | a history belongs to some run of the engine exactly when each step was ready and no ready operation of the same template is listed before it |
| `EngineOrder.ResolvesFirst` | crates/trace-core/src/engine.rs:219-226 | what a station is given is the first operation on the route that is ready and that it can perform |
| `EngineOrder.HistoryIsOfARun` | crates/trace-core/src/engine.rs:201-279 | where operations have templates of their own, every order that respects required predecessors is the history of some run |
| `EngineOrder.RunsOrderedIffRequiredWalk` | crates/trace-core/src/engine.rs:201-279 | so these walks are exactly what orders the runs of the engine on such a route |
| `EngineOrder.TwinsAreOrdered` | crates/trace-core/src/engine.rs:219-226 | where two operations share a template their place in the list orders them as well |
| `EngineOrder.TwinsHaveNoWalk` | crates/trace-core/src/route.rs:291-306 | that route is valid and no walk connects its operations, so distinct templates are needed above |
| `EngineRuns.LastReportIsCurrent` | crates/trace-core/src/engine.rs:262-277 | the last reported list of ready operations stays correct until the next completion |
| `EngineRuns.NextWasReported` | crates/trace-core/src/engine.rs:262-277 | whatever any station takes up next was in the last reported list |
| `RouteSim.FirstServingResolves` | tools/route-sim/src/main.rs:182-191 | the loop takes the first station that can take the unit, or finds none exactly when none can |
| `RouteSim.StaffedLineServes` | tools/route-sim/src/main.rs:182-191 | while work is left, a line with an active equipped station for every operation can go on |
| `RouteSim.RunFits` | tools/route-sim/src/main.rs:173-179 | no run of any length completes more operations than the route has |
| `RouteSim.TakeTurn` | tools/route-sim/src/main.rs:181-245 | one pass through the loop extends an engine run by one attempt, or tells why nobody can go on |
| `RouteSim.EndBlocked` | tools/route-sim/src/main.rs:258-275 | a blocked attempt leaves the unit where its disposition sends it, with a report that follows the run; the transition is never refused |
| `RouteSim.Drive` | tools/route-sim/src/main.rs:135-277 | on a valid route the loop ends, its bail-out is unreachable, and the report follows an engine run of at most as many completions as operations |
| `RouteSim.Run` | tools/route-sim/src/main.rs:135-281 | a staffed line where no gate blocks takes a unit with a valid identifier through any valid route to COMPLETED; otherwise the result says what was wrong with the scenario or which of the three ways the run ended |
| `RouteScenario.FailsWhatIsNotProvided` | tools/route-sim/src/main.rs:200-245 | an attempt at a ready operation fails exactly the gates that the scenario does not provide for, each gate spelled out in terms of the scenario |
| `RouteScenario.NeverBlocksIff` | tools/route-sim/src/main.rs:200-245 | on a staffed line no gate ever blocks if and only if the scenario provides for every gate of every operation |
| `RouteScenario.ReportMeans` | tools/route-sim/src/main.rs:135-281 | what a report calls completed was provided for; COMPLETED means all that is required was; otherwise nobody can go on with the unit, or some operation was not provided for and the unit is where the failure path of that operation sends it |
| `HashChain.EncodeInjective` | crates/trace-core/src/hash.rs:34-43 | with a previous hash of fixed width the hashed bytes determine previous hash and payload |
| `HashChain.EncodeAmbiguous` | crates/trace-core/src/hash.rs:34-43 | with previous hashes of different widths they do not: two inputs with equal bytes |
| `HashChain.EncodedParts` | crates/trace-core/src/hash.rs:34-43 | the hashed bytes are the previous hash, eight bytes that read as the length of the payload modulo 2^64, most significant first, and the payload |
| `HashChain.BuiltAt` | crates/trace-core/src/hash.rs:46-57 | row i of a chain built by appending carries position i and the two running hashes around it |
| `HashChain.BuiltRow` | crates/trace-core/src/hash.rs:46-57 | row i is numbered i, points at the row before it, the first one at 64 characters 0, and its hash is the digest of those bytes |
| `HashChain.TipDetermines` | crates/trace-core/src/hash.rs:34-57 | the last hash determines the whole list of payloads and its length, or explicit inputs are returned on which the digest collides or yields the genesis value |
| `HashChain.RowHashesDistinct` | crates/trace-core/src/hash.rs:34-57 | row hashes along one chain differ from each other and from the genesis value, or such inputs are returned |
| `HashChain.Verify` | crates/trace-core/src/hash.rs:65-93 | accepts exactly the links whose hashes are those of the chain built from the payloads, whatever their positions, and reports the first break |
| `HashChain.TamperEvident` | crates/trace-core/src/hash.rs:65-93 | two accepted chains of equal length ending in the same hash cover equal payloads, or a pair of colliding inputs is returned |
| `HashChain.TruncationIsAccepted` | crates/trace-core/src/hash.rs:65-93 | every prefix of an accepted chain is accepted: cutting off the end cannot be seen |
| `ChainStore.AppendKeepsChain` | crates/trace-store/src/repo.rs:236-256 | appending to the row with the largest chain_seq of both tables keeps the rows one chain |
| `ChainStore.CommitKeepsInv` | crates/trace-store/src/repo.rs:265-313 | a commit leaves every unit chained and disturbs no transaction still open |
| `ChainStore.StepKeepsInv` | crates/trace-store/src/repo.rs:218-398 | every statement of every transaction keeps committed and pending rows chained under exclusive locks |
| `ChainStore.ExecutionKeepsInv` | crates/trace-store/src/repo.rs:218-398 | the invariant holds in every state any interleaving can reach |
| `ChainStore.OrderIsUnique` | crates/trace-store/src/query.rs:355-372 | the rows of a chain have only one order by chain_seq |
| `ChainStore.ConcurrentAppends` | crates/trace-store/src/repo.rs:218-398 | after any interleaving of locking, reading, inserting, committing and rolling back transactions, the committed rows of a unit from both tables are numbered 0 to n-1, are the chain built from their payloads, and pass the audit |
| `SerialAppends.CommittedIsSerial` | crates/trace-store/src/repo.rs:218-398 | after any interleaving the rows of a unit, by chain_seq, are exactly those of the committed calls for it in the order of the commits, each with its payload and in its table: nothing is lost, doubled, moved or left by a roll back |
| `SerialAppends.ExecutionIsSerial` | crates/trace-store/src/repo.rs:218-398 | in every reachable state committed and visible rows are those that the same calls produce one after another |
| `SerialAppends.CommittedUnitsExist` | crates/trace-store/src/repo.rs:218-230 | nothing is committed for a unit that does not exist |
| `SerialAppends.CallMade` | crates/trace-store/src/repo.rs:265-313 | a transaction between calls can carry out any further call for a unit that exists and that no other transaction has locked |
| `SerialAppends.SerialRunExists` | crates/trace-store/src/repo.rs:265-313 | any list of calls for existing units can be committed, one transaction each |
| `ChainStore.VerifyUnitChain` | crates/trace-store/src/query.rs:354-394 | returns the number of rows exactly when every row points at the one before it, else the first one that does not |
| `ChainStore.DeletionIsNoticed` | crates/trace-store/src/query.rs:354-394 | of all lists of rows of a chain, with rows deleted, reordered or repeated, the audit passes exactly the prefixes of the chain, or inputs that break the digest are returned |
| `ChainStore.AuditSeesDeletion` | crates/trace-store/src/query.rs:354-394 | after any interleaving of appends and any deletion from the two tables, in whatever order SQL returns what is left, the audit passes exactly when that is a prefix of what had been committed, or such inputs are returned |
| `ChainStore.PayloadsAreNotRead` | crates/trace-store/src/query.rs:354-394 | the audit does not depend on payloads: edited payloads under unedited links pass it |
| `Genealogy.LevelIffPath` | crates/trace-store/src/query.rs:276-283 | the d-th round of the recall reaches a unit exactly when d child links lead to it from a direct consumer of the lot |
| `Genealogy.RollUp` | crates/trace-store/src/query.rs:276-283 | the recursive query terminates on any links, cyclic ones included, with one row per unit and depth up to 32 |
| `Genealogy.AffectedIds` | crates/trace-store/src/query.rs:271-283 | rolls up to exactly the units within 32 child links of a direct consumer |
| `Genealogy.OrderByUid` | crates/trace-store/src/query.rs:284-287 | every row found is returned once, each uid before those that come after it character by character |
| `Genealogy.UnitsAffectedByLot` | crates/trace-store/src/query.rs:269-303 | returns the unit rows of exactly the units within 32 child links of a direct consumer, each once, by uid |
| `Genealogy.ReportedIffSimplePath` | crates/trace-store/src/query.rs:269-303 | a unit is reported exactly when a path that visits no unit twice reaches it within 32 links |
| `Genealogy.RecallCompleteIff` | crates/trace-store/src/query.rs:261-287 | the recall reports every unit that contains the lot if and only if a 33rd round would find no unit that is not reported |
| `Genealogy.ShortPathsAreReported` | crates/trace-store/src/query.rs:261-287 | it does for a unit to which no path without repetitions is longer than 32 links |
| `Genealogy.RecallComplete` | crates/trace-store/src/query.rs:261-287 | and always with at most 33 units that have anything built into them |
| `Genealogy.LineIsReported` | crates/trace-store/src/query.rs:276-283 | in a line of n + 1 units, each built into the next, the last one is reported if and only if n is at most 32 |
| `Genealogy.RecallMissesThe34th` | crates/trace-store/src/query.rs:282-282 | 33 is the exact limit: in a line of 34 units the last one contains the lot and is not reported |
| `GenealogyWalks.Walk` | crates/trace-store/migrations/0003_integrity.sql:115-166 | both walks terminate on any links, cyclic ones included, with one row for each chain of 1 to 32 links, as UNION ALL keeps them |
| `GenealogyWalks.EveryChainOnce` | crates/trace-store/migrations/0003_integrity.sql:115-166 | every chain of links from the start is found in the round of its length, exactly once, and nothing else is |
| `GenealogyWalks.ListedIffInRound` | crates/trace-store/migrations/0003_integrity.sql:115-166 | a link is listed at a depth exactly when it is found in that round |
| `Genealogy.DescendantsIffPath` | crates/trace-store/migrations/0003_integrity.sql:115-140 | a link is found in round d + 1 of the walk down exactly when a path of d child links leads from its parent to the root |
| `Genealogy.AncestorsIffPath` | crates/trace-store/migrations/0003_integrity.sql:143-166 | a link is found in round d + 1 of the walk up exactly when a path of d child links leads from the leaf to its child |
| `GenealogyWalks.ListedMeansRow` | crates/trace-store/migrations/0003_integrity.sql:115-140 | a lot is listed in the history of a unit exactly when some row of the walk down names it |
| `GenealogyWalks.WalkCompleteIff` | crates/trace-store/migrations/0003_integrity.sql:114-167 | either walk has a row for every link at any depth if and only if a 33rd round would find no link without one |
| `GenealogyWalks.LineUpHasRows` | crates/trace-store/migrations/0003_integrity.sql:142-166 | up a line of links exactly the first 32 have rows |
| `GenealogyWalks.LineDownHasRow` | crates/trace-store/migrations/0003_integrity.sql:114-140 | down a line of n child links to a lot, the lot has a row if and only if n is at most 31 |
| `Genealogy.LineIsListed` | crates/trace-store/migrations/0003_integrity.sql:114-140 | in a line of n + 1 units the history of the last one lists the lot if and only if n is at most 31 |
| `Genealogy.RoundsAreDual` | crates/trace-store/src/query.rs:269-287 | round d + 1 of the walk down finds the lot exactly when round d of the recall finds the unit |
| `Genealogy.RecallAndHistoryAreDual` | crates/trace-store/src/query.rs:269-287 | a lot in the history of a unit always leads the recall to the unit; conversely they differ exactly at units 32 links away from every nearest consumer |
| `Genealogy.WalksAreDual` | crates/trace-store/migrations/0003_integrity.sql:115-166 | walking down from a unit finds another in round d exactly when walking up from that one finds the first in round d |
| `Spool.Spool.Append` | apps/trace-station/src/spool.rs:114-138 | true exactly when no call fails, and then the file has the record and a line end more; otherwise some beginning of that is there, and nothing before it has changed |
| `Spool.Spool.Load` | apps/trace-station/src/spool.rs:147-171 | yields the records of the decodable lines in file order and skips the others, or reports, exactly when a call fails, that the file cannot be read |
| `Spool.Spool.RemoveAcknowledged` | apps/trace-station/src/spool.rs:197-225 | the file becomes the lines of what was loaded less what is acknowledged: the records at exactly those places, in their order; exactly when a call fails it says so, and the file is untouched |
| `SpoolJson.LineRoundTrip` | apps/trace-station/src/spool.rs:122-123 | a record reads back from its own line of JSON |
| `SpoolJson.LineLayout` | apps/trace-station/src/spool.rs:59-71 | the line of a record: its five fields by name, in their order, without white space |
| `SpoolJson.ReadsByName` | apps/trace-station/src/spool.rs:59-71 | the fields of a line are read by name, in any order and among others; a line without the number of attempts reads as a record with none |
| `SpoolJson.CutValue` | apps/trace-station/src/spool.rs:155-167 | a JSON value cut off anywhere is not completed by whatever beginnings of lines are written behind it |
| `SpoolJson.CutLineIsJunk` | apps/trace-station/src/spool.rs:155-167 | a line cut short anywhere does not decode |
| `SpoolJson.GluedLinesAreJunk` | apps/trace-station/src/spool.rs:123-136 | beginnings of two or more lines run together do not decode, wherever each was cut |
| `SpoolJson.JsonLinesAreSound` | apps/trace-station/src/spool.rs:114-171 | the lines of JSON in use meet everything that the results on the spool need of a line format |
| `Spool.StepRepresents` | apps/trace-station/src/spool.rs:114-225 | each operation changes the file as the abstract queue says, down to the number of characters written |
| `Spool.FileIsQueue` | apps/trace-station/src/spool.rs:114-225 | after any run of appends, torn writes and compactions loading yields exactly the records the queue holds, in order |
| `Spool.DamageIsConfined` | apps/trace-station/src/spool.rs:11-18 | each torn write costs at most one append that reported success |
| `Spool.CleanIffEndsLine` | apps/trace-station/src/spool.rs:114-225 | the queue has a clean tail exactly when the file is empty or ends with a line end |
| `Spool.CleanAppendSurvives` | apps/trace-station/src/spool.rs:114-225 | a record appended on a clean tail is kept through everything until it is acknowledged |
| `Spool.CleanAppendIsLoaded` | apps/trace-station/src/spool.rs:114-225 | so a record whose append found the file at a line end is loaded until it is acknowledged |
| `Spool.AppendKeptIffClean` | apps/trace-station/src/spool.rs:114-138 | a successful append adds its record exactly when the file was empty or ended with a line end |
| `Spool.TornLineTakesTheNextOne` | apps/trace-station/src/spool.rs:15-18 | a write torn just before its line end is loaded, and then lost together with the next successful append |
| `Spool.CompactionRepairs` | apps/trace-station/src/spool.rs:189-225 | compaction leaves of what was loaded exactly the records that are not acknowledged, in order and as often, and a clean tail; a failed one changes nothing that is loaded |
| `Manifests.InstallsIff` | crates/trace-updater/src/manifest.rs:137-177 | a release is installed exactly when the cohort matches, the minimum version is reached, and it is newer or is older and marked as a rollback |
| `Manifests.DeclinesIff` | crates/trace-updater/src/manifest.rs:137-177 | each other answer, exactly when it is given: another cohort, unreadable version, path required, up to date, downgrade refused |
| `Manifests.CheckedIff` | crates/trace-updater/src/manifest.rs:97-118 | a manifest is accepted exactly with schema 1 at most, some artifacts, 64 hexadecimal digits for each digest and a readable version, and which error says otherwise |
| `Paths.GuardedGoesDown` | crates/trace-updater/src/source.rs:56-66 | a relative name without parent components leads down from where it is joined |
| `InstallRoots.GuardedStaysInside` | crates/trace-updater/src/source.rs:56-66 | the guard of artifact paths would keep artifact names inside the staging directory, whatever links there are |
| `Trips.EachIsMade` | crates/trace-updater/src/apply.rs:278-285 | each directory that the way to a file makes was missing, in a directory that was there |
| `Trips.GuardedMakesInside` | crates/trace-updater/src/apply.rs:278-285 | a guarded name makes directories inside the staging directory only |
| `ReleaseStaging.StagingStaysInsideIff` | crates/trace-updater/src/apply.rs:263-296 | writing the artifacts leaves everything but the staging directory alone at every moment if and only if each artifact that staging gets to makes no directory outside and, where it can be written, has a name that stays inside or does not change the empty file it meets |
| `ReleaseStaging.GuardedIsContained` | crates/trace-updater/src/apply.rs:263-296 | staging stays inside when no name is absolute or holds a parent component, whatever the source has and whatever links there are |
| `ArtifactNames.ParentIsRefused` | crates/trace-updater/src/apply.rs:278-287 | a name that leaves and leads to a directory does no harm |
| `ArtifactNames.LeftoverLinkLeadsAway` | crates/trace-updater/src/apply.rs:364-378 | a name that passes a leftover temporary link leads to a file among the releases |
| `ArtifactNames.RoundTripWithoutLinks` | crates/trace-updater/src/apply.rs:278-278 | though without links it comes back to the staging directory |
| `ArtifactNames.NameReachesLiveRelease` | crates/trace-updater/src/apply.rs:263-296 | verified bytes under such a name are written over a file of the live release, beginning by beginning, before the link has moved |
| `InstallRoots.Disk.RemoveTree` | crates/trace-updater/src/apply.rs:253-257 | whatever moment or error cuts a recursive delete off, only that one directory differs |
| `InstallRoots.Disk.CreateStaging` | crates/trace-updater/src/apply.rs:259-261 | afterwards the staging directory is empty, or still what was left over in it |
| `InstallRoots.Disk.MakeParents` | crates/trace-updater/src/apply.rs:278-285 | takes the way along the name through links and makes exactly the missing directories on it, one after another |
| `InstallRoots.Disk.WriteFile` | crates/trace-updater/src/apply.rs:272-296 | at every moment the first of the missing directories are there, or all of them and a beginning of the bytes in the one file that the name leads to; success means that it could be written and all its bytes are there |
| `InstallRoots.Disk.RenameStaged` | crates/trace-updater/src/apply.rs:313-315 | moves the whole directory in one change, or changes nothing; a target that is not empty makes it fail |
| `InstallRoots.Disk.ReplaceSymlink` | crates/trace-updater/src/apply.rs:364-378 | at every moment the link has its old target or the new one |
| `ReleaseStaging.VerifyDigest` | crates/trace-updater/src/apply.rs:339-357 | accepts exactly the bytes of the listed size and digest |
| `ReleaseStaging.PrepareStaging` | crates/trace-updater/src/apply.rs:252-261 | touches only the staging directory; it is then empty, or what was left over when the look at it failed |
| `ReleaseStaging.ServesOneMore` | crates/trace-updater/src/apply.rs:263-267 | writing one verified artifact makes the directory right for one more entry of the manifest |
| `ReleaseStaging.RefusalNamesFirst` | crates/trace-updater/src/apply.rs:263-267 | the error named is that of the first artifact the source does not have, or has with another size or digest; none when all of them arrive |
| `ReleaseStaging.StageOne` | crates/trace-updater/src/apply.rs:263-267 | an artifact is written where its name leads only once its bytes match; otherwise the error says why |
| `ReleaseStaging.Stage` | crates/trace-updater/src/apply.rs:243-270 | at every moment the directory is being cleared, or the first artifacts are written in order, each verified and where its name leads, and the next one is on its way; success means all of them are, and if what staging gets to stays inside the directory holds what the manifest lists; failure names the first artifact that could not be had or did not match |
| `Updater.Promote` | crates/trace-updater/src/apply.rs:305-315 | at every moment only the directories of the target differ; success moves the staged directory into place |
| `Updater.Repoint` | crates/trace-updater/src/apply.rs:317-325 | `previous` names the outgoing release before `current` leaves it |
| `Updater.Activate` | crates/trace-updater/src/apply.rs:299-326 | at every moment the links are safe and, if staging stayed inside, all files; success makes the target live and tells what it replaced |
| `Updater.Install` | crates/trace-updater/src/apply.rs:202-239 | stage, activate, probe and roll back, with every image the disk passes through sheltered; when no call fails the answer is an I/O error exactly when something on the disk is in the way |
| `Updater.Update` | crates/trace-updater/src/apply.rs:173-240 | wherever an attempt is cut off, `current` names what it named before or the target; if staging stays inside, the target then holds what the manifest lists and nothing of another release or elsewhere has been touched; a roll back restores exactly the version live before; refusals leave both links alone; when no call fails an I/O error is answered exactly when something on the disk is in the way |
| `Updater.DueIsDone` | crates/trace-updater/src/apply.rs:173-240 | when the release is due, no call fails and nothing is in the way, a healthy one is live and reported as installed, an unhealthy one is rolled back to the version that was live, or left live with that error when there was none |
| `UpdateRuns.ServedExactly` | crates/trace-updater/src/apply.rs:243-270 | a staged directory has no file the manifest does not list if and only if it lists every file left over, and it satisfies every entry if and only if entries that lead to one file agree |
| `UpdateRuns.EntriesAreArtifacts` | crates/trace-updater/src/apply.rs:263-280 | the entries of a manifest are its artifacts under the paths their names lead to |
| `UpdateRuns.RepeatedNameIsLost` | crates/trace-updater/src/apply.rs:263-280 | a manifest that lists one file under two spellings with different digests is staged without satisfying the first |
| `UpdateRuns.UpdateInLife` | crates/trace-updater/src/apply.rs:173-240 | an attempt prolongs the life of the disk, whichever image of it a power cut leaves |
| `UpdateRuns.MovesByTheRules` | crates/trace-updater/src/manifest.rs:137-177 | wherever an attempt is cut off, the live version has moved only as cohort, minimum version and rollback mark allow, with the old one behind `previous`, and if staging stays inside to a complete release |
| `UpdateRuns.OtherFilesIntact` | crates/trace-updater/src/apply.rs:243-326 | if staging stays inside, every other release and every other file and directory of the machine is untouched |
| `UpdateRuns.OutgoingReleaseIntact` | crates/trace-updater/src/apply.rs:299-326 | and so is the directory of the release that was live |
| `UpdateRuns.NeverGoesBack` | crates/trace-updater/src/manifest.rs:160-176 | over any number of attempts, failures and crashes without a rollback-marked manifest the live version never goes down, whatever the names |
| `UpdateRuns.GuardedLifeIsContained` | crates/trace-updater/src/apply.rs:263-296 | with guarded names in every manifest staging stays inside in every attempt of a life |
| `UpdateRuns.LiveReleaseIsWhole` | crates/trace-updater/src/apply.rs:173-378 | at any moment of a life in which staging stayed inside the live directory is the initial one untouched, or was filled from a manifest of that version |
| `UpdateRuns.LiveReleaseIsExact` | crates/trace-updater/src/apply.rs:173-378 | and then it holds the files that manifest lists and what that attempt had overlooked: no others if and only if those are listed too, in particular if nothing was overlooked |
| `StrayFiles.OverlookedFileGoesLive` | crates/trace-updater/src/apply.rs:252-261 | a life of two attempts from an empty machine after which a file of the first manifest is live that the second does not list |
| `Collections.LessIsStrictOrder` | crates/trace-sign/src/lib.rs:86-87 | the key order is a strict total order |
| `Collections.LessIffComesBefore` | crates/trace-sign/src/lib.rs:86-87 | one key comes before another exactly when they agree up to a place where the first ends or has the smaller character |
| `Json.SortThenNormalise` | crates/trace-sign/src/lib.rs:86-98 | sorting the members of one object while writing comes to putting every object of the document in key order |
| `Json.OrderedListsAreMaps` | crates/trace-sign/src/lib.rs:86-87 | member lists in key order that answer every lookup alike are equal |
| `Json.NormaliseDecides` | crates/trace-sign/src/lib.rs:83-113 | two documents agree once all keys are in order exactly when they have the same values under the same keys at every level |
| `Json.AscendingFormIsUnique` | crates/trace-sign/src/lib.rs:83-113 | of all ways to write a document exactly one has the keys of every object ascending, and that is the normal form |
| `CanonicalJson.CharRoundTrip` | crates/trace-sign/src/lib.rs:94-95 | the escape of any character reads back as that character and never starts with a quote |
| `CanonicalJson.EscapesOf` | crates/trace-sign/src/lib.rs:94-95 | the escape of each character, written out |
| `CanonicalJson.ItemPunctuation` | crates/trace-sign/src/lib.rs:102-110 | items stand in order between brackets with commas and nothing else |
| `CanonicalJson.MemberPunctuation` | crates/trace-sign/src/lib.rs:85-101 | members stand in order between braces with commas, each as key, colon and value |
| `CanonicalJson.ValueRoundTrip` | crates/trace-sign/src/lib.rs:83-113 | a reader recovers every value from its text and stops right behind it, whatever follows |
| `CanonicalJson.CanonicalRoundTrip` | crates/trace-sign/src/lib.rs:70-75 | canonical text is uniquely decodable in front of any delimiter |
| `CanonicalJson.CanonicalDecides` | crates/trace-sign/src/lib.rs:64-75 | two documents give the same signed text if and only if they are the same document, whatever the order in which keys were inserted |
| `CanonicalJson.WriteArray` | crates/trace-sign/src/lib.rs:102-110 | the loop appends the canonical text of the array to the shared buffer |
| `CanonicalJson.WriteObject` | crates/trace-sign/src/lib.rs:85-101 | the loop over sorted keys appends the canonical text of the object to the shared buffer |
| `CanonicalJson.WriteCanonical` | crates/trace-sign/src/lib.rs:83-113 | appends the canonical text of the value and leaves what was in the buffer |
| `CanonicalJson.TextToSign` | crates/trace-sign/src/lib.rs:70-75 | the text that is signed is the canonical one: that of the same document with the keys of every object ascending |
| `DateFormat.ReplaceAfterScan` | crates/trace-mark/src/binding.rs:82-93 | replacing one more token over the whole text comes to scanning once with that token added, when earlier replacements are free of its letter |
| `DateFormat.RunWasThere` | crates/trace-mark/src/binding.rs:82-93 | a run of a token letter in replaced text was in the pattern already |
| `DateFormat.PrefixIsSound` | crates/trace-mark/src/binding.rs:82-91 | for every instant the replacements are non-empty and hold no token letter |
| `DateFormat.FormatDatetime` | crates/trace-mark/src/binding.rs:79-94 | the seven whole-text replacements equal one left-to-right scan, for every pattern and every instant; at each place the longest of the seven words is printed as its own field, in two digits or as the year in full |
| `DateFormat.YearReads` | crates/trace-mark/src/binding.rs:84-84 | a year is four digits from 0 to 9999, and a sign with at least four digits, none of them a zero too many, outside |
| `DateFormat.LongestFirst` | crates/trace-mark/src/binding.rs:80-93 | that scan takes the longest token at each position, so a four digit year is not eaten by the two digit one |
| `Bindings.Resolve` | crates/trace-mark/src/binding.rs:60-66 | a key is a bound name, or a date pattern behind `now:` |
| `Bindings.TrimSplits` | crates/trace-mark/src/binding.rs:111-111 | trimming a key takes white space off both ends and nothing else |
| `Bindings.SpacesAre` | crates/trace-mark/src/binding.rs:111-111 | the 25 characters that are white space |
| `Bindings.FindPairSplits` | crates/trace-mark/src/binding.rs:105-108 | the place found is the first one: the text before it has no pair and none begins across the cut |
| `Bindings.HasPairIff` | crates/trace-mark/src/binding.rs:105-108 | a pair of braces is two of them at neighbouring places |
| `Bindings.CutIsLeftmost` | crates/trace-mark/src/binding.rs:101-120 | every template has a segmentation in which braces open and close at the first place they can |
| `Bindings.LeftmostIsUnique` | crates/trace-mark/src/binding.rs:101-120 | and only one |
| `Bindings.RenderExpression` | crates/trace-mark/src/binding.rs:101-120 | renders the unique leftmost segmentation, or fails with its leftmost fault |
| `Renderings.RenderedReplaces` | crates/trace-mark/src/binding.rs:60-120 | a text that renders is the template with each leftmost pair of braces, and what is between, replaced by what the trimmed key means: its own value, or behind `now:` the instant in that pattern |
| `Bindings.FaultlessIffKnown` | crates/trace-mark/src/binding.rs:96-120 | rendering succeeds exactly when the template is terminated and every key has a value; if only the end is missing, that is told |
| `Bindings.FaultIsLeftmost` | crates/trace-mark/src/binding.rs:96-120 | otherwise the error names the first key without a value, from left to right |
| `Bindings.SurvivesIffSeam` | crates/trace-mark/src/binding.rs:101-120 | for a given template and context the rendered text contains `{{` if and only if a value does or two braces meet where pieces meet, also across empty ones |
| `Bindings.NoBindingSurvives` | crates/trace-mark/src/binding.rs:101-120 | in particular not when no value used contains `{{` or ends in a brace, also with empty values |
| `Bindings.BraceFreeIsClear` | crates/trace-mark/src/binding.rs:101-120 | values without braces meet that condition |
| `Bindings.UntamedValueSurvives` | crates/trace-mark/src/binding.rs:101-120 | any value that contains `{{` or ends in a brace leaves `{{` behind in some template that uses it once |
| `Labels.Validate` | crates/trace-mark/src/template.rs:155-180 | reports the first of: no canvas, no resolution, no elements, first element with its origin right of or below the canvas, each exactly when it is the case |
| `Labels.Bind` | crates/trace-mark/src/template.rs:187-198 | every element is bound and nothing else changes, or the error is that of the first element that cannot be bound |
| `Labels.BindingKeepsProblems` | crates/trace-mark/src/template.rs:155-198 | a template is as printable after binding as before |
| `Zpl.EscapedIsInert` | crates/trace-mark/src/zpl.rs:127-141 | escaped data holds no character that starts a command |
| `Zpl.EscapeField` | crates/trace-mark/src/zpl.rs:127-141 | the loop computes the escaped value |
| `Zpl.SplitMore` | crates/trace-mark/src/zpl.rs:36-117 | a caret and a body without one add exactly one command to what the printer sees |
| `Zpl.RenderElement` | crates/trace-mark/src/zpl.rs:46-114 | appends exactly the commands of the element |
| `Zpl.RenderZpl` | crates/trace-mark/src/zpl.rs:23-118 | refuses exactly the invalid or unresolved templates; otherwise the output split at carets is exactly the command list of the template |
| `ZplStructure.LabelStructure` | crates/trace-mark/src/zpl.rs:36-117 | one XA first, one XZ last, one FO and one FS per element, whatever the values |
| `ZplStructure.LabelData` | crates/trace-mark/src/zpl.rs:60-104 | the field data are the escaped values in element order |
| `ZplStructure.DataCannotChangeCommands` | crates/trace-mark/src/zpl.rs:36-117 | templates that differ only in values give commands that differ only in field data |
| `ZplStructure.LabelHasNoTilde` | crates/trace-mark/src/zpl.rs:120-141 | no tilde reaches the printer |
| `ZplStructure.BoundIsResolved` | crates/trace-mark/src/zpl.rs:26-34 | a bound template is refused for what was wrong with it before binding and nothing else, if and only if it was refused then or no braces meet in any of its values |
| `ZplEscape.EscapeRecovers` | crates/trace-mark/src/zpl.rs:127-141 | reading the codes back gives the value if and only if it had no line break and held none of the codes itself |
| `ZplEscape.EscapesOf` | crates/trace-mark/src/zpl.rs:127-141 | what is sent for each character; `ZplEscape.EscapedParts` says that values are escaped character by character |
| `ZplReader.SplitJoins` | crates/trace-mark/src/zpl.rs:36-117 | cutting the output at its carets loses nothing |
| `ZplReader.FieldReads` | crates/trace-mark/src/zpl.rs:46-114 | the commands of any element read back as that element: kind, place, measures and escaped value |
| `ZplReader.LabelReadsBack` | crates/trace-mark/src/zpl.rs:36-117 | the text of a label reads back as its width, height and darkness and its elements in order, each with its own place, measures and escaped value |
| `ZplEscape.EscapeFixes` | crates/trace-mark/src/zpl.rs:127-141 | escaping leaves a value alone exactly when it has none of the five special characters |
| `ZplEscape.CaretAndCodePrintAlike` | crates/trace-mark/src/zpl.rs:127-141 | escaping is not injective: a caret and the text of its code give the same field data |
| `Licence.ClockGuard.Observe` | crates/trace-license/src/clockguard.rs:70-89 | the mark becomes the later of mark and reported time; the answer is the reported time when that is less than the tolerance and one second behind, else the mark |
| `Licence.ClockGuard.Bump` | crates/trace-license/src/clockguard.rs:92-96 | the mark never goes down |
| `Licence.MarkIsLargest` | crates/trace-license/src/clockguard.rs:9-13 | over any run the mark is the largest instant the box has seen |
| `Licence.WithinSlack` | crates/trace-license/src/clockguard.rs:70-89 | an answer lies less than one second more than the tolerance below the mark, and that bound is sharp |
| `Licence.UsedIs` | crates/trace-license/src/clockguard.rs:70-89 | the reported instant is answered exactly when it is not behind, or by less than the tolerance and one second; otherwise the mark |
| `Licence.Enforce` | crates/trace-license/src/clockguard.rs:9-13 | judging the entitlement at the guarded instant: full from first to last instant, grace for the days after it, else restricted; past grace end by the slack the result is Restricted |
| `Licence.EndedForGood` | crates/trace-license/src/entitlement.rs:263-314 | some future observation yields Full or Grace if and only if the licence starts before its grace ends and the mark has not passed grace end by tolerance plus one second |

## Left out

- SHA-256, Ed25519, base64 and hex: the digest is a parameter, and a manifest is what a verified envelope held.
- The text of errors, logging, and the console output of the dry run; which error is returned is kept.
- Floating point: sizes in millimetres are reals and sizes in dots are inputs; limits on measured values reach the engine as verdicts.
- Parsing versions: a version is its text, and which texts are versions and their total order come from outside; a text that is parsed is taken to print as itself.
- Tenants, row level security, indexes and triggers of the database; a unit's rows are those of one tenant.
- Concurrency in the store is a state machine over values at read-committed isolation: a lock is granted only while free, and reads see committed rows and the transaction's own.
- The canonical payload of an event or measurement: the chain is proved over payload strings, and different events can have equal ones.
- Linking children and lots (crates/trace-store/src/repo.rs:406-475): genealogy links are given as a set, also with cycles and self-links that the schema would refuse.
- The columns of a walk other than depth and link: they are those of the link, which its id names; the order of the rows is that of the table, where SQL leaves it open.
- White space between the tokens of a JSON line, which the reader of the source would skip and the writer never writes; and a cut inside a character of several bytes, which makes the whole load fail.
- A directory that cannot be created, and a spool written by two processes.
- Creating the directory skeleton of the installation. Its root is given by its real path; that and the two directories in it are no symlinks, and there are none inside releases and staging directories.
- Names that end in a slash: a name is the list of its components. Permissions, special files and hard links; what they do to a call is one of its failures.
- A temporary link name that is taken by a directory.
- A link whose target is elsewhere but has a version for its last component.
- Changes that other programs make while an attempt runs; between attempts symlinks may come and go (`UpdateRuns.Restarted`).
- SpoolJson.LineRoundTrip: holds for any nesting, while serde_json refuses to read more than 128 levels; a payload nested deeper is written and not loaded.
- UTF-8: text is a sequence of characters; the byte order of Rust strings is their order by character.
- Serialising a value into a JSON tree, and its errors; a number is the text that is printed for it, so 1 and 1.0 are different documents.
- Units.Unit.TransitionTo: covers state and current operation only; the other fields of a unit do not change.
- Voiding completed operations after a rework is left to the caller in the source too; `Routes.NoDeadlock` holds for whatever set remains.
- Data collection limits: a captured value comes with its verdict.
- Node locks, schema check, tiers, limits and the texts of a licence status.
- The integer widths of positions and counters: chain positions, durations and sizes are unbounded; only the length prefix of a payload is cut to eight bytes, as the source casts it.
