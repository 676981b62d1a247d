# Verified model of the indexing engine

SuperQuery indexes a chain by fetching finalized blocks, committing them in height order, and
undoing them when the chain reorganises. This project models the parts that decide which block
is fetched, accepted, committed or undone, and in what order, and proves what they promise over
every input and every run.

| module | what it models |
|---|---|
| `RangePlanning`, `FetchBackpressure`, `FetchScheduling`, `SchedulerRuns` | batch planning around bypass spans, admission control, the acknowledgement scheduler and its runs |
| `IngestionJournal`, `Ingest`, `IngestRuns` | the header journal, one ingestion process, and any number of them with crashes, restarts and lost replies |
| `OrderedCommit`, `Dispatch`, `PipelineOrdering` | the reorder buffer, the dispatcher, generations, the committed state of whole runs, and admission control, planner and buffer working together |
| `Checkpoints`, `Reorg`, `FinalityTracking`, `ReorgRepair`, `ReorgRuns` | the header table, the fork decision, the early-stopping check, repair as re-indexing from scratch, and any number of reorgs in turn |
| `VersionRewind` | the two rewind statements over versioned entity rows |
| `Metadata`, `BlockHeightMaps`, `EvmDecode`, `RpcQuantity`, `Fingerprint` | the identity check, the sparse height map, block decoding and log pairing, RPC quantities, fingerprint framing |

Code that updates state is a class or a method with loops, each tied by its `ensures` to a
function or predicate on values; the promises about runs are lemmas about those.

## Assumptions

- Heights given to the reorder buffer are below `u64::MAX` (type `OrderedCommit.Height`), because
  `next_expected += 1` does not saturate (crates/dispatcher/src/ordered_commit.rs:120); generation
  numbers do not overflow.
- Bypass spans are built through `BlockRange::new`, so `start <= end` (the subset type `BlockRange`).
- Repairing a reorg relies on hashing: at one height, equal hashes mean equal parent hashes
  (`Fork.HashBindsParent`), and on an adapter that reports the canonical chain (`Fork.Truthful`).
  Over many reorgs the same is asked of all chains at once (`ReorgRuns.Lawful`, `ReorgRuns.RowsFollow`).
- Table locks and transactions make each journal commit, identity check and table statement one
  atomic step. The adapter, the date library, cancellation and database faults are parameters.
- A run is any finite sequence of steps. The scripts of rounds given to `Ingest.Run` are finite
  stretches of a process; a script that ends stands for a process that was stopped.

## Where the code and its description differ

- `quantity` also accepts a plus sign and then any hex digits, because `u64::from_str_radix` does.
  `RpcQuantity.FollowsRuleIff` says exactly when it follows the Quantities rule;
  `RpcQuantity.SignedFormIsAccepted` gives a string on which it does not.
- `BeyondHistory.oldest_known` is documented as the oldest height in the header table
  (crates/core/src/finality/reorg.rs:62-63); it is the lowest height compared.
  `FinalityTracking.OldestKnownIsOldestStored` says when the two are the same, and
  `FinalityTracking.ShortWindowMissesOldest` gives a table for which they are not.
- "Never fetch past the safe head" (crates/core/src/fetch/range.rs:5-6) holds of the heads a height
  was planned under. Pending heights are handed out again without asking, so it can fail for a head
  that has since fallen: `SchedulerRuns.PlanStaysUnderHeadsIff` and
  `SchedulerRuns.PendingOutlivesFallingHead`.
- A process restarted with a start height below the journal's first row is accepted and finishes
  without the heights in between. `Ingest.IngestRun` says exactly when a finished run covers its
  range; `Ingest.LowerStartLeavesGap` gives one that does not.
- The pipeline test says that bypassed heights never stall the commit buffer
  (tests/integration/pipeline_ordering.rs:46-65), and starts a new buffer for the batch it tries. One
  buffer over several batches waits for good at a bypassed height: `PipelineOrdering.EverythingIsReleasedIff`
  and `PipelineOrdering.BypassStallsBuffer`.
- `is_complete` calls a bounded range with a zero batch size complete before anything is
  acknowledged; `run` refuses that configuration first. `SchedulerRuns.CompleteIffAllAcknowledged`
  and `SchedulerRuns.ZeroBatchLooksComplete`.
- `get_within_range` drops the value in effect when every key is below the start, as its comment
  admits. `BlockHeightMaps.WithinRangeAgreesIff` and `BlockHeightMaps.LowKeyIsLost`.
- Truncating the header table leaves the checkpoint on the deleted tip until the next commit.
  `ReorgRepair.CheckpointIsRepairedIff` and `ReorgRepair.ShorterChainLeavesCheckpoint`.

## Model

| member | source | states |
|---|---|---|
| `Chain.LinkedHeights` | crates/chain-api/src/block.rs:62-69 | parent-linked headers occupy consecutive heights, so a height names at most one |
| `RangePlanning.RangePlan.AdvancePastBypass` | crates/core/src/fetch/range.rs:124-134 | the skip loop finds the least open height up to the ceiling, and its `len + 1` passes are never used up |
| `RangePlanning.RangePlan.NextBatch` | crates/core/src/fetch/range.rs:89-121 | span arithmetic gives the batch found by looking at heights one at a time: first open height, then the end of the open run within size and ceiling |
| `RangePlanning.BatchIsMaximal` | crates/core/src/fetch/range.rs:83-121 | no batch exactly when the size is zero or everything left is bypassed; otherwise only open heights, none skipped, and not one longer possible |
| `RangePlanning.OpenRunIsWhole` | crates/core/src/fetch/range.rs:137-139 | filtering an open run drops nothing |
| `RangePlanning.BypassAdds` | crates/core/src/fetch/range.rs:69-80 | a span added to a plan bypasses its own heights besides, an inverted one nothing |
| `RangePlanning.BatchesEnumerateOpenHeights` | crates/core/src/fetch/range.rs:83-139 | batch after batch enumerates exactly the ascending open heights, whatever the size and however spans overlap |
| `FetchBackpressure.SaturationIsExact` | crates/core/src/fetch/backpressure.rs:39-53 | saturating u32 arithmetic equals the exact formula; pausing means exactly that a limit is reached |
| `FetchBackpressure.ClampIsLargest` | crates/core/src/fetch/backpressure.rs:55-58 | a clamped batch is all that is desired or all that is available |
| `FetchBackpressure.Run` | crates/core/src/fetch/backpressure.rs:35-58 | requests capped at current occupancy keep both limits at every step and no block is lost count of |
| `FetchBackpressure.BlocksPassThrough` | crates/core/src/fetch/backpressure.rs:35-58 | with room left, a block can be asked for, arrive and be committed, one stage at a time |
| `FetchBackpressure.RunsStayWithinLimits` | crates/core/src/fetch/backpressure.rs:28-58 | the same from an idle pipeline, which can always ask for at least one block |
| `FetchScheduling.FetchScheduler.constructor` | crates/core/src/fetch/scheduler.rs:40-50 | a new scheduler stands at the start height with nothing pending |
| `FetchScheduling.FetchScheduler.ResumeFrom` | crates/core/src/fetch/scheduler.rs:58-62 | repositions after the last height, saturating, never below the start, and forgets pending work |
| `FetchScheduling.FetchScheduler.IsComplete` | crates/core/src/fetch/scheduler.rs:116-124 | exhausted, or bounded with nothing pending and no batch left |
| `FetchScheduling.FetchScheduler.NextHeights` | crates/core/src/fetch/scheduler.rs:77-100 | what is planned and the state after it, for every occupancy and head report; `SchedulerRuns.PlanIsFull` and `SchedulerRuns.PlanIsEmptyIff` say how much that is |
| `FetchScheduling.FetchScheduler.Acknowledge` | crates/core/src/fetch/scheduler.rs:103-113 | only the first pending height advances the cursor; anything else changes nothing |
| `FetchScheduling.FetchScheduler.FetchNext` | crates/core/src/fetch/scheduler.rs:127-151 | success gives exactly the adapter's blocks, at the planned heights and parent-linked; it fails only when no such batch was on offer, and says why; the cursor does not move |
| `SchedulerRuns.PlanKeepsPending` | crates/core/src/fetch/scheduler.rs:77-100 | planning never moves the cursor and hands out the front of what is pending |
| `SchedulerRuns.PlanIsFull` | crates/core/src/fetch/scheduler.rs:77-100 | a fresh plan fills the budget, reaches the ceiling or stops at a bypassed height; one handed out again is as much of what is pending as the budget allows |
| `SchedulerRuns.PlanIsEmptyIff` | crates/core/src/fetch/scheduler.rs:77-100 | nothing is handed out exactly when complete, out of budget, or with every height to the ceiling bypassed; planning fails exactly when a head it has to ask for is not answered |
| `SchedulerRuns.ResumedStands` | crates/core/src/fetch/scheduler.rs:53-62 | resumed, a scheduler stands one past the last height but not below its start |
| `SchedulerRuns.PlanStaysUnderHeadsIff` | crates/core/src/fetch/scheduler.rs:77-100 | what is handed out is always the next open run; heights already pending are handed out again unasked, so all of it lies under the head now reported exactly when nothing was pending or that head is not below the last pending height the budget reaches |
| `SchedulerRuns.PendingOutlivesFallingHead` | crates/core/src/fetch/scheduler.rs:77-100 | a reachable scheduler hands out a height past the head now reported |
| `SchedulerRuns.FreshPlanIsAllowed` | crates/core/src/fetch/scheduler.rs:65-100 | a fresh plan never reaches past the reported head, the finalized height (unless configured) or the end |
| `SchedulerRuns.EveryHeightWasAllowed` | crates/core/src/fetch/range.rs:5-6 | over every run, each height pending or acknowledged was made pending by a plan of that run that read the heads, with nothing pending, and stayed under them |
| `SchedulerRuns.AcknowledgedIsInitialSegment` | crates/core/src/fetch/scheduler.rs:58-113 | over every run, falling heads and restarts included, the acknowledged heights are in order exactly the open heights below the cursor, and pending respects the smallest limit |
| `SchedulerRuns.CompleteIffAllAcknowledged` | crates/core/src/fetch/scheduler.rs:116-124 | a bounded run is complete exactly when every open height to its end is acknowledged, `u64::MAX` included, or the batch size is zero |
| `SchedulerRuns.ZeroBatchLooksComplete` | crates/core/src/fetch/scheduler.rs:116-124 | the zero-batch exception occurs |
| `SchedulerRuns.UnboundedIsCompleteIff` | crates/core/src/fetch/scheduler.rs:116-124 | without an end, complete means exactly that `u64::MAX` is acknowledged |
| `SchedulerRuns.CursorMakesProgress` | crates/core/src/fetch/scheduler.rs:77-100 | any cursor whose pending work is next in line and that is not complete is given work from its very next open height, whenever the heads allow any |
| `SchedulerRuns.IdleSchedulerMakesProgress` | crates/core/src/fetch/scheduler.rs:77-100 | an idle incomplete scheduler is given work, starting at the very next open height, whenever the heads allow any |
| `SchedulerRuns.NextHeightIsAcknowledged` | crates/core/src/fetch/scheduler.rs:77-113 | planned under heads that allow it and acknowledged, the very next open height joins those acknowledged |
| `SchedulerRuns.RestartKeepsPlace` | crates/core/src/fetch/scheduler.rs:53-62 | a restart forgets what is pending, and keeps the place of every run |
| `IngestionJournal.Latest` | crates/store/src/ingestion.rs:31-42 | the latest row is one of the rows and none is higher, in a table in any order |
| `IngestionJournal.IngestionStore.Load` | crates/store/src/ingestion.rs:36-42 | a stored row than which none is higher, or none exactly when the table is empty |
| `IngestionJournal.IngestionStore.Commit` | crates/store/src/ingestion.rs:45-82 | appends, accepts a repeat, or fails leaving the rows alone, on any table |
| `IngestionJournal.LatestIsTip` | crates/store/src/ingestion.rs:31-33 | on a chain the query finds the last row |
| `IngestionJournal.CommitExtendsChain` | crates/store/src/ingestion.rs:44-82 | a commit succeeds exactly for a well-formed first header, the tip again, or the tip's child; the chain is kept and the primary key never refuses |
| `IngestionJournal.RefusedWhy` | crates/store/src/ingestion.rs:45-82 | on any table, which reason a header is refused for, in the order they are looked at |
| `IngestionJournal.CommitIsIdempotent` | crates/store/src/ingestion.rs:57-62 | a retried commit adds nothing |
| `Ingest.Accept` | bins/superquery-node/src/ingest.rs:17-26 | success means the header is durable; for each fault, exactly what is left in the table and what is reported |
| `Ingest.DeliverBatch` | crates/core/src/fetch/scheduler.rs:178-185 | accept then acknowledge, block by block: whole when nothing interferes, stopped before the very block at which it was cancelled, or failed at a block for a reason it reports; no block is begun once cancelled, the journal grows by a front part of the batch, and the cursor ends one past the tip unless a commit fails |
| `Ingest.ServedPlan` | crates/core/src/fetch/scheduler.rs:77-124 | with answered heads, what is planned is consecutive heights from the cursor on, within the end; at least one when heights are still to go and the heads are past the end |
| `Ingest.Fetch` | crates/core/src/fetch/scheduler.rs:126-149 | fetched blocks are the pending front as the adapter delivered it; canonical answers yield a batch fit to commit on the tip, and not an empty one when the cursor can advance |
| `Ingest.RunRound` | crates/core/src/fetch/scheduler.rs:164-186 | one pass keeps the chain and adds only blocks the adapter delivered in it, none once cancelled; it stops only where cancelled; a harmless pass, wherever the heads are, keeps the tip canonical and goes on, moving the cursor whenever the heads are past the end |
| `Ingest.Run` | crates/core/src/fetch/scheduler.rs:154-188 | a run grows the journal round by round, entering none after a cancelled one, and keeps it a chain from the start height; it stops where it was cancelled or its script ends, fails in the last round entered or at once for a zero batch, and finishes only when complete; given harmless passes, of which one for every height still to go has heads past the end, it always finishes |
| `Ingest.IngestRun` | bins/superquery-node/src/ingest.rs:29-76 | a process refuses a missing or non-canonical tip or a start that leaves a gap, each with its own error and without writing, and adds only what the rounds it entered delivered before they were cancelled; one that finishes has got to the end, and has journalled every height of its range exactly when the journal was empty or began no higher than its start; one that may resume and is served well enough does finish, and every row it adds is the canonical header of its height |
| `Ingest.CoversIff` | bins/superquery-node/src/ingest.rs:63-68 | a chain that reaches the end holds every height of a range exactly when it begins no higher than the range |
| `Ingest.LowerStartLeavesGap` | bins/superquery-node/src/ingest.rs:63-68 | a process restarted with a lower start may resume, is complete at once, and its start height has no row |
| `IngestRuns.CommitKeepsInv` | crates/store/src/ingestion.rs:45-82 | any process's commit, acknowledged or lost, keeps the chain and every other process's position valid |
| `IngestRuns.StepKeepsInv` | bins/superquery-node/src/ingest.rs:52-74 | every step of every process keeps the invariant and only appends |
| `IngestRuns.PositionTakesEffect` | bins/superquery-node/src/ingest.rs:52-68 | after loading, a process starts over an empty journal or one past the tip exactly when the tip is canonical and its start leaves no gap |
| `IngestRuns.FetchTakesEffect` | crates/core/src/fetch/scheduler.rs:126-149 | a good answer to what was planned is taken up whole; anything else ends the process |
| `IngestRuns.CommitTakesEffect` | crates/store/src/ingestion.rs:45-82 | a block that continues the journal is added and a repeat of its tip accepted, unless the connection is lost before; the process goes on only if it hears of it |
| `IngestRuns.AcknowledgeTakesEffect` | crates/core/src/fetch/scheduler.rs:103-113 | an accepted block is acknowledged: the cursor moves past it and it joins the history |
| `IngestRuns.AnyRangeCanBeJournalled` | bins/superquery-node/src/ingest.rs:29-76 | for any bounded range, canonical chain and limits that allow progress, some run journals and acknowledges exactly the canonical headers of the range |
| `IngestRuns.JournalIsOneChain` | crates/store/src/ingestion.rs:45-82 | over every interleaving of loading, positioning, fetching, committing, acknowledging and crashing, the journal is one gapless linked chain holding everything ever acknowledged, and begins at the start height of the very process whose commit wrote its first row |
| `IngestRuns.JournalOnlyGrows` | crates/store/src/ingestion.rs:45-82 | the journal at any point of a run is a prefix of the journal later |
| `IngestRuns.AcknowledgementsNeverDisagree` | crates/store/src/ingestion.rs:63-67 | no two processes ever acknowledge different blocks at one height |
| `IngestRuns.RowIsCommitted` | crates/store/src/ingestion.rs:45-82 | every row of the journal was appended by one commit of the run, as the next block of the process that committed |
| `IngestRuns.EveryRowWasPermitted` | crates/core/src/fetch/range.rs:5-6 | over every interleaving, each row was committed by a process that had itself planned that height, under the same configuration, by an earlier fetch that read the heads and stayed under them |
| `IngestRuns.JournalIsFinalized` | bins/superquery-node/src/ingest.rs:39-51 | with processes configured as the command configures them, every row is at or below the finalized height its own process was told by the very fetch that planned it |
| `IngestRuns.SoloCursorFollowsTip` | bins/superquery-node/src/ingest.rs:52-68 | with one process at a time, restarts included, the cursor is exactly one past the tip whenever nothing awaits acknowledgement |
| `OrderedCommit.OrderedCommitBuffer.constructor` | crates/dispatcher/src/ordered_commit.rs:57-64 | starts empty in generation zero with a capacity of at least one |
| `OrderedCommit.OrderedCommitBuffer.CompleteFrom` | crates/dispatcher/src/ordered_commit.rs:104-123 | the drain loop releases exactly the run up to the first missing height and keeps the rest; stale work changes nothing |
| `OrderedCommit.OnlyCurrentIsTakenUp` | crates/dispatcher/src/ordered_commit.rs:104-123 | work of the current generation at or above the expected height is released or held with its value; anything else changes nothing |
| `OrderedCommit.OrderedCommitBuffer.Reset` | crates/dispatcher/src/ordered_commit.rs:130-136 | drops and counts what was pending and starts a new generation |
| `OrderedCommit.OrderedCommitBuffer.StallGap` | crates/dispatcher/src/ordered_commit.rs:143-153 | names the expected height and the lowest one waiting, with everything between missing |
| `OrderedCommit.ReleasesAreTheDeliveredRun` | crates/dispatcher/src/ordered_commit.rs:98-123 | for any arrivals, all releases together are the longest unbroken run from the start in the delivered set, and the rest stays pending |
| `OrderedCommit.ArrivalOrderIsIrrelevant` | crates/dispatcher/src/ordered_commit.rs:9-14 | any two orders of one set, with repeats, give the same releases and the same buffer |
| `Dispatch.TokioDispatcher.TakeCommittable` | crates/dispatcher/src/dispatcher.rs:109-120 | one locked step of the buffer, returning the released outputs in order |
| `Dispatch.TokioDispatcher.ResetTo` | crates/dispatcher/src/dispatcher.rs:126-128 | one locked reset of the buffer |
| `Dispatch.CompletionReleases` | crates/dispatcher/src/ordered_commit.rs:104-123 | a completion releases consecutive heights from the expected one, all of the current generation, and moves the expected height past them |
| `Dispatch.CompletionConserves` | crates/dispatcher/src/ordered_commit.rs:104-123 | output by output, what a completion releases, leaves held and pushes out is what was held and the completion itself if it is taken up |
| `Dispatch.EachGenerationIsContiguous` | crates/dispatcher/src/ordered_commit.rs:104-136 | in any interleaving, each generation's releases are consecutive from its reset height, up to the expected one |
| `Dispatch.LaterReleasesAreNewer` | crates/dispatcher/src/dispatcher.rs:109-128 | from any reachable state, all later releases are of the current generation or newer |
| `Dispatch.AbandonedWorkIsNeverReleased` | crates/dispatcher/src/ordered_commit.rs:34-42 | nothing captured before a reset is released after it |
| `Dispatch.NextBlockCommits` | crates/dispatcher/src/dispatcher.rs:100-120 | from any reachable state, a worker that picks up now and finishes the expected height has it released and committed at once |
| `Dispatch.CompletionsAreConserved` | crates/dispatcher/src/ordered_commit.rs:104-136 | over every run, the completions taken up are, as a multiset, those released, those pending, those each reset dropped (all of the generation it ended, as many as it reported) and those a repeat replaced; pending heights stay above the expected one |
| `Dispatch.NothingReplacedIffUnrepeated` | crates/dispatcher/src/ordered_commit.rs:104-123 | nothing is replaced exactly when no height is taken up twice in one generation; then everything taken up is released, pending or dropped by a reset |
| `Dispatch.CommittedStateIsReplay` | crates/core/src/finality/rewind.rs:6-16 | the sequence described there over the function it leaves unimplemented: when a rewind first clears the buffer and then truncates the table, with fetching paused but late work still finishing in between, the committed state of any run is what indexing the surviving branches in sequence leaves |
| `Dispatch.TruncatingFirstRestoresAbandoned` | crates/core/src/finality/rewind.rs:14-16 | the other order lets a block of the abandoned branch back into the table |
| `Dispatch.PlannedBatchCommitsInOrder` | tests/integration/pipeline_ordering.rs:25-44 | a planned batch delivered in any order is released whole, in height order, with nothing left over |
| `PipelineOrdering.PipelineStaysWithinCapacity` | tests/integration/pipeline_ordering.rs:67-105 | over every run of clamped requests and arrivals, in-flight blocks stay within their limit, and together with those waiting in the buffer within the queue capacity |
| `PipelineOrdering.RequestTakesEffect` | tests/integration/pipeline_ordering.rs:67-105 | with room left and an open height up to the ceiling, a request puts the first of them in flight |
| `PipelineOrdering.RequestIsFull` | tests/integration/pipeline_ordering.rs:67-105 | a request asks for as much as the clamp allows, unless the ceiling or a bypassed height comes first |
| `PipelineOrdering.ArrivalTakesEffect` | tests/integration/pipeline_ordering.rs:67-105 | a block that comes back leaves the flight and is released, or held with its value |
| `PipelineOrdering.ReleasesArePlannedInOrder` | tests/integration/pipeline_ordering.rs:25-44 | over any number of batches, the plan is the open heights in order, the releases are the blocks at consecutive heights from the start, and each planned height is in exactly one of released, waiting and in flight |
| `PipelineOrdering.EverythingIsReleasedIff` | tests/integration/pipeline_ordering.rs:46-65 | with everything arrived, all planned heights have been released in order and nothing waits, exactly when no bypassed height lies below a planned one |
| `PipelineOrdering.GapFreePlanIsReleased` | tests/integration/pipeline_ordering.rs:25-44 | if no bypassed height lies below an open one up to the highest ceiling, everything planned is released once everything asked for has arrived |
| `PipelineOrdering.WaitsForFlightOrBypass` | tests/integration/pipeline_ordering.rs:67-105 | a buffer that waits, waits for a block in flight exactly when the height it expects is not bypassed |
| `PipelineOrdering.BypassStallsBuffer` | tests/integration/pipeline_ordering.rs:46-65 | a bypassed height stalls a buffer that outlives a batch |
| `Checkpoints.CheckpointStore.CommitTx` | crates/store/src/checkpoint.rs:115-155 | upserts the row and the checkpoint together, or neither when a height exceeds bigint |
| `Checkpoints.CommitRecords` | crates/store/src/checkpoint.rs:115-155 | the row at the header's height gets its hash, parent and finality label, no other row changes, and the checkpoint names the header and the finalized height |
| `Checkpoints.CheckpointStore.HeadersDescending` | crates/store/src/checkpoint.rs:172-188 | exactly the stored rows of the window, each once, strictly descending; refused only when a bound exceeds bigint |
| `Checkpoints.CheckpointStore.TruncateAboveTx` | crates/store/src/checkpoint.rs:193-203 | deletes and counts the rows above a height; the checkpoint stays |
| `Checkpoints.CheckpointStore.PruneBelow` | crates/store/src/checkpoint.rs:206-213 | deletes and counts the final rows below a height |
| `Checkpoints.DeletionKeepsTheRest` | crates/store/src/checkpoint.rs:190-213 | both deletions leave every other row exactly as it was |
| `Checkpoints.RowIsStored` | crates/store/src/checkpoint.rs:172-188 | every row read is a stored row of the window |
| `Checkpoints.StoredIsRow` | crates/store/src/checkpoint.rs:172-188 | every stored row of the window is read |
| `Checkpoints.RowPosition` | crates/store/src/checkpoint.rs:172-188 | a row's position counts the stored heights above it |
| `Reorg.FirstMatch` | crates/core/src/finality/reorg.rs:86-94 | finds the first match and nothing before it matches |
| `Reorg.TailIsIrrelevant` | crates/core/src/finality/reorg.rs:76-100 | nothing after the first match changes the decision |
| `Reorg.ContinuesChainIffJournalGrows` | crates/core/src/finality/reorg.rs:107-110 | the cheap per-block check passes exactly the headers the journal would append |
| `FinalityTracking.FinalityTracker.Refresh` | crates/core/src/finality/tracker.rs:52-58 | finality is the highest reading so far; a lower or failed one leaves it |
| `FinalityTracking.FinalityTracker.Check` | crates/core/src/finality/tracker.rs:64-97 | the early-stopping walk decides as the whole window would, and fails exactly when cut off by a retryable answer with no agreement above it |
| `FinalityTracking.FinalityTracker.WalkDown` | crates/core/src/finality/tracker.rs:74-96 | stopping at the first agreement gives the verdict of comparing every row |
| `FinalityTracking.CanonicalMeans` | crates/core/src/finality/reorg.rs:77-84 | canonical exactly when the window is empty or its highest row agrees |
| `FinalityTracking.RewindMeans` | crates/core/src/finality/reorg.rs:86-94 | a rewind names exactly the highest agreeing row below a disagreeing tip, and its depth counts the rows above |
| `FinalityTracking.BeyondMeans` | crates/core/src/finality/reorg.rs:96-99 | beyond history exactly when a non-empty window has no match, naming its lowest row |
| `FinalityTracking.OldestKnownIsOldestStored` | crates/core/src/finality/reorg.rs:56-64 | the height named is the oldest stored exactly when the window reaches the bottom of the table |
| `FinalityTracking.ShortWindowMissesOldest` | crates/core/src/finality/reorg.rs:56-64 | a window that stops short names a height above one still stored |
| `FinalityTracking.PruningKeepsRewindIff` | crates/store/src/checkpoint.rs:205-213 | pruning leaves a rewind decision as it was exactly when it deletes nothing from the ancestor up |
| `ReorgRepair.AgreementDescends` | crates/core/src/finality/tracker.rs:89-93 | agreement at a height carries down the hash chain |
| `ReorgRepair.AncestorSplitsTable` | crates/core/src/finality/tracker.rs:64-97 | every row above the reported ancestor is off the canonical chain, every row from it down is on it |
| `ReorgRepair.CanonicalCoversTable` | crates/core/src/finality/tracker.rs:62-63 | one lookup at the tip decides for the whole table |
| `ReorgRepair.TruncationDeletesDepth` | crates/store/src/checkpoint.rs:190-203 | truncating above the ancestor deletes exactly the reported depth, gaps or not |
| `ReorgRepair.RepairEqualsCleanRun` | crates/store/src/checkpoint.rs:115-203 | truncate and re-commit leaves the same heights, hashes and parents as a clean canonical run, again one linked table |
| `ReorgRepair.RepairedRowsAre` | crates/store/src/checkpoint.rs:115-203 | rows up to the ancestor are untouched, later ones carry the labels they were committed with, and so does the checkpoint |
| `ReorgRepair.CleanRowsAre` | crates/store/src/checkpoint.rs:115-155 | every row and the checkpoint of a clean run carry the labels given |
| `ReorgRepair.CheckpointIsRepairedIff` | crates/store/src/checkpoint.rs:145-203 | the checkpoint agrees with the clean run's exactly when the canonical head is above the ancestor |
| `ReorgRepair.ShorterChainLeavesCheckpoint` | crates/store/src/checkpoint.rs:190-203 | a canonical chain that ends at the ancestor occurs, and leaves the checkpoint on a row that is gone |
| `ReorgRuns.BeyondIffTooDeep` | crates/core/src/finality/tracker.rs:64-97 | a check of a linked table is beyond repair exactly when the lowest row its search reaches is off the chain |
| `ReorgRuns.HandledIsCanonical` | crates/core/src/finality/tracker.rs:64-97 | a check and what follows either gives up on a fork too deep or leaves exactly the canonical headers |
| `ReorgRuns.HandledRowsAre` | crates/store/src/checkpoint.rs:115-203 | whatever the decision, what is kept is untouched and what is committed carries the labels of this check |
| `ReorgRuns.ReorgsEqualCleanRun` | crates/store/src/checkpoint.rs:115-203 | after any number of reorgs repaired one after another, the table has the hashes and parents of a run of the last chain alone, and is linked |
| `ReorgRuns.StuckIffTooDeep` | crates/core/src/finality/tracker.rs:64-97 | a sequence of checks gets stuck exactly at a chain that differs at the lowest height the search reaches |
| `VersionRewind.EntityTable.DeleteVersionsAbove` | crates/store/src/rewind.rs:61-66 | deletes and counts the versions created above the height |
| `VersionRewind.EntityTable.ReopenVersions` | crates/store/src/rewind.rs:72-79 | reopens and counts the versions current at the height and closed above it |
| `VersionRewind.ReopenAlone` | crates/store/src/rewind.rs:68-79 | the reopen by itself extends only versions valid at the height, and changes nothing but upper bounds |
| `VersionRewind.CountedRows` | crates/store/src/rewind.rs:61-79 | the counts are of the rows really deleted and really changed |
| `VersionRewind.RewindIsTimeTravel` | crates/store/src/rewind.rs:3-9 | heights up to the target read as before, heights above it read as the target did |
| `VersionRewind.RewindKeepsVersionsDisjoint` | crates/store/src/rewind.rs:68-79 | no entity gets two versions valid at one height |
| `VersionRewind.StatementsCommute` | crates/store/src/rewind.rs:61-79 | the two statements commute |
| `VersionRewind.RewindsCompose` | crates/store/src/rewind.rs:61-79 | rewinding twice is rewinding once to the lower target |
| `VersionRewind.RewindUndoesExactlyLaterWork` | crates/store/src/rewind.rs:3-9 | rewinding returns a table exactly when it was settled at the height and the current one grew from it above the height |
| `Metadata.MetadataStore.VerifyFacts` | crates/store/src/metadata.rs:174-209 | fails exactly on a differing fact, naming it and writing nothing; otherwise stamps what was absent and changes nothing else |
| `Metadata.MetadataStore.VerifyOrInitialize` | crates/store/src/metadata.rs:137-150 | the same for project, chain and schema version, which after success stand each under its own key |
| `Metadata.MetadataStore.VerifyProject` | crates/store/src/metadata.rs:153-172 | the same for all five facts of a project, which after success stand each under its own key |
| `Metadata.FirstWriterWins` | crates/store/src/metadata.rs:132-209 | over any serialized run, checkpoints included, a stamped identity fact never changes |
| `Metadata.SuccessfulChecksAgree` | crates/store/src/metadata.rs:174-209 | any two successful checks expect the same of every key they share |
| `Metadata.SecondProjectMustMatch` | crates/store/src/metadata.rs:152-172 | after one project is stamped another passes exactly when it is the same in every respect |
| `BlockHeightMaps.AtOrBelow` | crates/core/src/project/block_height_map.rs:73-74 | splits the entries at a height |
| `BlockHeightMaps.BlockHeightMap.GetWithinRange` | crates/core/src/project/block_height_map.rs:101-119 | the single pass collects one slice: the last key below the start, then the keys inside, or nothing |
| `BlockHeightMaps.RangesPartitionHeights` | crates/core/src/project/block_height_map.rs:73-95 | the ranges partition all heights from the first key up, and the one that covers a height is the one the point lookup gives |
| `BlockHeightMaps.DetailsAre` | crates/core/src/project/block_height_map.rs:73-80 | the lookup gives the value and key of the last entry at or below the height, up to just below the next key |
| `BlockHeightMaps.DetailsGiveValue` | crates/core/src/project/block_height_map.rs:73-80 | the lookup gives exactly the value in effect |
| `BlockHeightMaps.RangesAre` | crates/core/src/project/block_height_map.rs:82-95 | one range to an entry, in key order, with its own value and key, ending where the next begins |
| `BlockHeightMaps.RelevantAre` | crates/core/src/project/block_height_map.rs:97-119 | the restricted map holds exactly the entries inside the range and the last one below its start, if a key follows it |
| `BlockHeightMaps.WithinRangeAgreesIff` | crates/core/src/project/block_height_map.rs:97-119 | the restricted map agrees with the full one across the range exactly under the documented proviso |
| `BlockHeightMaps.LowKeyIsLost` | crates/core/src/project/block_height_map.rs:97-119 | one key below the start, and the value in effect is lost |
| `EvmDecode.SortByLogIndex` | crates/chains/evm/src/decode.rs:118 | sorting orders the logs by index and keeps every one |
| `EvmDecode.DecodeTransactions` | crates/chains/evm/src/decode.rs:53-85 | the loop decodes each transaction at its position and stops at the first failure; `EvmDecode.AcceptedBlockCarriesAll` says what a decoded one holds |
| `EvmDecode.DecodeLogs` | crates/chains/evm/src/decode.rs:86-117 | the loop decodes each log against the transactions and stops at the first failure |
| `EvmDecode.DecodeBlock` | crates/chains/evm/src/decode.rs:50-132 | the whole decoder, step by step |
| `EvmDecode.LogOrderIsIrrelevant` | crates/chains/evm/src/decode.rs:86-131 | any permutation of the returned logs is accepted alike and gives the same block |
| `EvmDecode.AcceptedIff` | crates/chains/evm/src/decode.rs:17-132 | exactly which responses are accepted, said of the raw records: a good header, transactions of this block at their own positions with distinct hashes, and live logs of it that name the transactions at their indices and whose indices are every number below their count |
| `EvmDecode.NumberedIff` | crates/chains/evm/src/decode.rs:118-123 | sorted logs carry their positions exactly when every position is some log's index |
| `EvmDecode.HeaderRefusedWhy` | crates/chains/evm/src/decode.rs:22-41 | which failure of a header is reported, in the order they are looked at |
| `EvmDecode.TransactionRefusedWhy` | crates/chains/evm/src/decode.rs:53-85 | the failure reported of a transaction names what is wrong with it |
| `EvmDecode.LogRefusedWhy` | crates/chains/evm/src/decode.rs:86-117 | the failure reported of a log names what is wrong with it |
| `EvmDecode.BlockRefusedWhy` | crates/chains/evm/src/decode.rs:50-132 | which part of a block decides its failure, in order |
| `EvmDecode.AcceptedBlockIsWellFormed` | crates/chains/evm/src/decode.rs:50-132 | transactions at their own index with distinct hashes, logs numbered from zero, each naming its transaction |
| `EvmDecode.AcceptedBlockCarriesAll` | crates/chains/evm/src/decode.rs:50-132 | an accepted block holds what was sent, each member under its own name: the transactions in order, and every log once decoded, topics one by one |
| `EvmDecode.HeaderIsTheBlocks` | crates/chains/evm/src/adapter.rs:182-198 | the header fetched with a block agrees with the block in number, hash, parent and time |
| `EvmDecode.EventsPairExactly` | crates/chains/evm/src/adapter.rs:210-230 | on an accepted block every log is paired with the one transaction whose hash it carries |
| `EvmDecode.EventsAre` | crates/chains/evm/src/adapter.rs:210-230 | on any block, one event to a log in order, with the last transaction that claims the log's index, or none |
| `RpcQuantity.AcceptedStrings` | crates/chains/evm/src/rpc.rs:100-107 | exactly the quantities below 2^64 are accepted, each as its value, plus exactly the signed forms |
| `RpcQuantity.FollowsRuleIff` | crates/chains/evm/src/rpc.rs:100-107 | acceptance follows the Quantities rule exactly on strings that are not signed forms |
| `RpcQuantity.RefusedWhy` | crates/chains/evm/src/rpc.rs:100-107 | which of the two failures is reported for a string |
| `RpcQuantity.SignedFormIsAccepted` | crates/chains/evm/src/rpc.rs:100-107 | a string outside the rule that is accepted |
| `RpcQuantity.QuantityInvertsPrinting` | crates/chains/evm/src/adapter.rs:182-187 | what the adapter prints for any u64 reads back as it |
| `RpcQuantity.QuantityIgnoresCase` | crates/chains/evm/src/rpc.rs:100-107 | the upper-case form of what is printed reads back too |
| `RpcQuantity.LowerCaseQuantityIsPrinted` | crates/chains/evm/src/rpc.rs:100-107 | an accepted lower-case quantity is the printed form of its value and of no other |
| `Fingerprint.Fingerprint` | crates/config/src/project.rs:73-89 | the nested loops feed the framed tag, manifest, schema and assets in order |
| `Fingerprint.ParsedFramedAll` | crates/config/src/project.rs:75-78 | the framing of any list of fields parses back to it |
| `Fingerprint.PreimageReadsBack` | crates/config/src/project.rs:73-89 | what is hashed reads back as the tag, the manifest, the schema and then each asset's name and contents |
| `Fingerprint.FlattenedJoins` | crates/config/src/project.rs:79-87 | assets come data source by data source, in order |
| `Fingerprint.BigEndianByte` | crates/config/src/project.rs:75-78 | each byte of a length has the weight of its place, most significant first |
| `Fingerprint.SamePreimageIffSameInputs` | crates/config/src/project.rs:79-87 | two projects feed the hash the same bytes exactly when manifest, schema and assets agree |

## Left out

- Postgres: SQL text, DDL, migrations and connection handling; tables are maps or sequences and statements act on them directly.
- RPC transport, retries, timeouts and provider errors; an adapter call answers or fails.
- Concurrency inside one fetch: `buffered` keeps results in height order, so a batch is collected in order; how many requests are in flight at once is not modelled.
- `Ingest.Run`: the journal is the only sink and the plan has no bypass spans, as in the ingestion command; the generic sink trait is not modelled.
- The dispatcher's task wiring, worker queue and status counters; a worker is a captured generation and a later completion.
- `OrderedCommit.OrderedCommitBuffer.constructor`: the capacity is kept but nothing enforces it, as in the source, where it only feeds `is_full`.
- `rewind_to` and `execute_rewind` are not implemented in the source; `VersionRewind` proves the algebra of their statements and `Dispatch.CommittedStateIsReplay` the effect of the sequence around them, `ReorgRuns.ReorgsEqualCleanRun` that of repeating it on the header table.
- Reading a checkpoint back from its three metadata rows, where a partial one is an error.
- JSON parsing, hash, address and byte syntax, and U256 values: raw records carry each member already parsed.
- Hashing in `Fingerprint.Fingerprint`: only the bytes fed to the hash are modelled, and reading the files is not.
- Log and transaction filters, handler preparation, the WASM runtime, entity storage, naming, CLI and configuration.
