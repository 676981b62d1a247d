/**
 One ingestion process: `ingest::run` and the fetch-accept-acknowledge loop it drives
 (bins/superquery-node/src/ingest.rs, crates/core/src/fetch/scheduler.rs). The adapter, the
 cancellation token and database faults are scripted round by round and otherwise arbitrary.
 */
module Ingest {
  import opened Prelude
  import opened Chain
  import opened RangePlanning
  import opened FetchScheduling
  import opened SchedulerRuns
  import opened IngestionJournal
  import FetchBackpressure

  datatype IngestError =
    | Scheduler(scheduler: FetchScheduling.Error)
    | Journal(journal: StoreError)
    | ConnectionLost
    | HeaderUnavailable
    | NotCanonical         // the journal tip is no longer on the canonical chain
    | StartSkipsJournal    // the start height would leave a gap after the journal tip

  /** A run ends because its range is consumed, or because it was cancelled. */
  datatype Outcome = Finished | Stopped

  /** What can go wrong around one database commit. */
  datatype Fault = NoFault | LostBeforeCommit | LostAfterCommit

  /** Everything outside the program during one pass of the loop. */
  datatype Round = Round(
    cancelled: bool,
    report: HeadReport,
    adapter: u64 -> Option<Header>,
    cancelAt: nat -> bool,
    fault: nat -> Fault)

  const NO_BYPASS := RangePlan([])

  /** The cursor is one past the journal tip, or at the start height over an empty journal. */
  ghost predicate Aligned(config: SchedulerConfig, c: Cursor, rows: seq<Header>) {
    && PendingIsNext(config, NO_BYPASS, c)
    && Position(c) == if rows == [] then config.startHeight else Tip(rows).height + 1
  }

  // ---------------------------------------------------------------- a well-served run

  /** A linked chain of storable headers over `[low, high]`, as a function of height. */
  ghost predicate Canonical(canon: u64 -> Header, low: u64, high: u64) {
    && high <= I64_MAX
    && (forall h: u64 :: low <= h <= high ==> canon(h).height == h && canon(h).hash != "")
    && (forall g: u64, h: u64 :: low <= g && h == g + 1 <= high ==> canon(h).IsChildOf(canon(g)))
  }

  /** A bounded configuration that is able to fetch at all. */
  ghost predicate Workable(config: SchedulerConfig) {
    && config.endHeight.Some? && config.batchSize > 0
    && config.backpressure.maxInFlight > 0 && config.backpressure.queueCapacity > 0
  }

  /** No cancellation and no database fault while a batch is delivered. */
  ghost predicate Undisturbed(round: Round) {
    forall i: nat :: !round.cancelAt(i) && round.fault(i) == NoFault
  }

  /** A round in which nothing goes wrong: the heads are answered, wherever they are, and canonically. */
  ghost predicate Harmless(round: Round, canon: u64 -> Header) {
    && !round.cancelled
    && round.report.latest.Some? && round.report.finalized.Some?
    && Undisturbed(round)
    && (forall h: u64 :: round.adapter(h) == Some(canon(h)))
  }

  /** The heads are past the end, so everything still to fetch may be fetched. */
  ghost predicate HeadsPastEnd(config: SchedulerConfig, report: HeadReport)
    requires config.endHeight.Some?
  {
    && report.latest.Some? && report.latest.value >= config.endHeight.value
    && report.finalized.Some? && report.finalized.value >= config.endHeight.value
  }

  /** The journal's tip lies on the canonical chain, which runs from there, or from the start, to the end. */
  ghost predicate OnCanon(config: SchedulerConfig, rows: seq<Header>, canon: u64 -> Header)
    requires config.endHeight.Some?
  {
    if rows == [] then Canonical(canon, config.startHeight, config.endHeight.value)
    else Canonical(canon, Tip(rows).height, config.endHeight.value) && Tip(rows) == canon(Tip(rows).height)
  }

  /** A harmless round for a canonical journal. */
  ghost predicate Served(config: SchedulerConfig, rows: seq<Header>, round: Round, canon: u64 -> Header) {
    Workable(config) && Harmless(round, canon) && OnCanon(config, rows, canon)
  }

  /** Heights are still to go, and the heads allow them. */
  ghost predicate CanAdvance(config: SchedulerConfig, c: Cursor, round: Round)
    requires config.endHeight.Some?
  {
    Position(c) <= config.endHeight.value && HeadsPastEnd(config, round.report)
  }

  /** The batch that canonical answers make. */
  ghost function CanonBatch(heights: seq<u64>, canon: u64 -> Header): seq<Header> {
    seq(|heights|, i requires 0 <= i < |heights| => canon(heights[i]))
  }

  /** Linked, storable, and starting at or right after the tip. */
  ghost predicate CommitsOn(rows: seq<Header>, blocks: seq<Header>) {
    && Linked(blocks)
    && (forall i :: 0 <= i < |blocks| ==> blocks[i].hash != "" && blocks[i].height <= I64_MAX)
    && (rows != [] && blocks != [] ==> blocks[0].IsChildOf(Tip(rows)))
  }

  /** Consecutive heights from `from` on, none above `end`. */
  ghost predicate CountsUp(heights: seq<u64>, from: nat, end: nat) {
    forall i :: 0 <= i < |heights| ==> heights[i] == from + i <= end
  }

  /** Canonical headers at consecutive heights up to the end are good, and fit to commit on the tip. */
  lemma {:induction false} CanonBatchIsGood(config: SchedulerConfig, rows: seq<Header>, from: nat, heights: seq<u64>,
                                            canon: u64 -> Header)
    requires config.endHeight.Some? && OnCanon(config, rows, canon)
    requires from == if rows == [] then config.startHeight else Tip(rows).height + 1
    requires CountsUp(heights, from, config.endHeight.value)
    ensures GoodBatch(heights, CanonBatch(heights, canon))
    ensures CommitsOn(rows, CanonBatch(heights, canon))
  {
    var batch := CanonBatch(heights, canon);
    assert forall i :: 0 < i < |batch| ==> batch[i].IsChildOf(batch[i - 1]) by {
      assert forall i :: 0 < i < |batch| ==> heights[i] == heights[i - 1] + 1;
    }
  }

  lemma PendingCountsUp(config: SchedulerConfig, c: Cursor)
    requires PendingIsNext(config, NO_BYPASS, c) && config.endHeight.Some?
    ensures CountsUp(c.pending, Position(c), config.endHeight.value)
  {
    assert !NO_BYPASS.IsBypassed(c.nextHeight);
    assert c.pending != [] ==> c.pending[0] == c.nextHeight == Position(c);
    forall i | 0 <= i < |c.pending| ensures c.pending[i] == Position(c) + i <= config.endHeight.value {
    }
  }

  lemma PrefixCountsUp(front: seq<u64>, heights: seq<u64>, from: nat, end: nat)
    requires front <= heights && CountsUp(heights, from, end)
    ensures CountsUp(front, from, end)
  {
    assert forall i :: 0 <= i < |front| ==> front[i] == heights[i];
  }

  lemma {:induction false} PlanCountsUp(config: SchedulerConfig, c: Cursor, report: HeadReport)
    requires PendingIsNext(config, NO_BYPASS, c) && config.endHeight.Some?
    requires report.latest.Some? && report.finalized.Some?
    ensures var planned := Planned(config, NO_BYPASS, c, 0, 0, report).1;
            planned.Ok? && CountsUp(planned.value, Position(c), config.endHeight.value)
  {
    PlanKeepsPending(config, NO_BYPASS, c, 0, 0, report);
    var (next, planned) := Planned(config, NO_BYPASS, c, 0, 0, report);
    PendingCountsUp(config, next);
    assert Position(next) == Position(c);
    PrefixCountsUp(planned.value, next.pending, Position(c), config.endHeight.value);
  }

  lemma {:induction false} NotCompleteBeforeEnd(config: SchedulerConfig, c: Cursor)
    requires Workable(config) && Position(c) <= config.endHeight.value
    ensures !Complete(config, NO_BYPASS, c) && !NO_BYPASS.IsBypassed(Position(c))
  {
    assert !NO_BYPASS.IsBypassed(Position(c));
    BatchIsMaximal(NO_BYPASS, c.nextHeight, config.endHeight.value, config.batchSize);
  }

  /**
   Planned, in a harmless round: consecutive heights from the cursor on, within the end; and at
   least one when heights are still to go and the heads allow them.
   */
  lemma {:induction false} ServedPlan(config: SchedulerConfig, c: Cursor, round: Round, canon: u64 -> Header)
    requires PendingIsNext(config, NO_BYPASS, c) && Workable(config) && Harmless(round, canon)
    ensures var planned := Planned(config, NO_BYPASS, c, 0, 0, round.report).1;
            && planned.Ok?
            && CountsUp(planned.value, Position(c), config.endHeight.value)
            && (CanAdvance(config, c, round) ==> planned.value != [])
  {
    PlanCountsUp(config, c, round.report);
    if CanAdvance(config, c, round) {
      NotCompleteBeforeEnd(config, c);
      assert Allowed(config, round.report, Position(c));
      CursorMakesProgress(config, NO_BYPASS, c, round.report);
    }
  }

  /** One block that the journal takes as a new row. */
  ghost predicate Fits(rows: seq<Header>, block: Header) {
    && block.hash != "" && block.height <= I64_MAX
    && (rows != [] ==> block.IsChildOf(Tip(rows)))
  }

  lemma {:induction false} CommitsOneByOne(before: seq<Header>, blocks: seq<Header>, rows: seq<Header>, i: nat)
    requires CommitsOn(before, blocks) && i < |blocks| && rows == before + blocks[..i]
    ensures Fits(rows, blocks[i])
  {
    if i > 0 {
      assert Tip(rows) == blocks[i - 1];
    } else {
      assert rows == before;
    }
  }

  /** Canonical answers for a good batch leave the fetch no other outcome than that batch. */
  lemma {:induction false} FetchIsCanonical(heights: seq<u64>, canon: u64 -> Header, adapter: u64 -> Option<Header>,
                                            fetched: Result<seq<Header>, FetchScheduling.Error>)
    requires forall h: u64 :: adapter(h) == Some(canon(h))
    requires GoodBatch(heights, CanonBatch(heights, canon))
    requires fetched.Ok? ==>
               && |fetched.value| == |heights|
               && forall i :: 0 <= i < |heights| ==> adapter(heights[i]) == Some(fetched.value[i])
    requires fetched.Err? ==>
               forall blocks :: GoodBatch(heights, blocks) ==>
                 exists i :: 0 <= i < |blocks| && adapter(heights[i]) != Some(blocks[i])
    ensures fetched == Ok(CanonBatch(heights, canon))
  {
    assert fetched.Ok?;
    assert fetched.value == CanonBatch(heights, canon);
  }

  /** A canonical batch keeps the tip canonical and moves the cursor on. */
  lemma {:induction false} CanonBatchKeepsOnCanon(config: SchedulerConfig, rows: seq<Header>, heights: seq<u64>,
                                                  canon: u64 -> Header)
    requires config.endHeight.Some? && OnCanon(config, rows, canon)
    requires heights != [] && heights[0] == if rows == [] then config.startHeight else Tip(rows).height + 1
    requires GoodBatch(heights, CanonBatch(heights, canon))
    requires heights[|heights| - 1] <= config.endHeight.value
    ensures OnCanon(config, rows + CanonBatch(heights, canon), canon)
  {
    var batch := CanonBatch(heights, canon);
    LinkedHeights(batch, |batch| - 1);
    assert Tip(rows + batch) == batch[|batch| - 1] == canon(heights[|heights| - 1]);
  }

  /** What a fetch in a harmless round brings back, whatever was planned. */
  ghost predicate FetchServes(config: SchedulerConfig, c: Cursor, rows: seq<Header>, round: Round, canon: u64 -> Header,
                              fetched: Result<seq<Header>, FetchScheduling.Error>)
    requires config.endHeight.Some?
  {
    && fetched.Ok?
    && CommitsOn(rows, fetched.value)
    && OnCanon(config, rows + fetched.value, canon)
    && (CanAdvance(config, c, round) ==> fetched.value != [])
  }

  lemma {:induction false} ServedFetch(config: SchedulerConfig, c: Cursor, rows: seq<Header>, round: Round,
                                       canon: u64 -> Header, planned: Result<seq<u64>, FetchScheduling.Error>,
                                       fetched: Result<seq<Header>, FetchScheduling.Error>)
    requires Aligned(config, c, rows) && Served(config, rows, round, canon)
    requires planned == Planned(config, NO_BYPASS, c, 0, 0, round.report).1
    requires planned.Ok? && fetched.Ok? ==>
               && |fetched.value| == |planned.value|
               && forall i :: 0 <= i < |fetched.value| ==> round.adapter(planned.value[i]) == Some(fetched.value[i])
    requires planned.Ok? && fetched.Err? ==>
               forall blocks :: GoodBatch(planned.value, blocks) ==>
                 exists i :: 0 <= i < |blocks| && round.adapter(planned.value[i]) != Some(blocks[i])
    ensures FetchServes(config, c, rows, round, canon, fetched)
  {
    ServedPlan(config, c, round, canon);
    CanonBatchIsGood(config, rows, Position(c), planned.value, canon);
    FetchIsCanonical(planned.value, canon, round.adapter, fetched);
    if planned.value == [] {
      assert rows + fetched.value == rows;
    } else {
      CanonBatchKeepsOnCanon(config, rows, planned.value, canon);
    }
  }

  // ---------------------------------------------------------------- the loop

  /** Durably accepts one block, or fails with or without having done so. */
  method Accept(journal: IngestionStore, header: Header, fault: Fault) returns (r: Result<(), IngestError>)
    modifies journal
    ensures fault != LostBeforeCommit && Appended(old(journal.rows), header).Ok? ==>
              Appended(old(journal.rows), header) == Ok(journal.rows)
    ensures fault == LostBeforeCommit || Appended(old(journal.rows), header).Err? ==> journal.rows == old(journal.rows)
    ensures r.Ok? <==> fault == NoFault && Appended(old(journal.rows), header).Ok?
    ensures fault != NoFault ==> r == Err(ConnectionLost)
    ensures fault == NoFault && Appended(old(journal.rows), header).Err? ==>
              r == Err(Journal(Appended(old(journal.rows), header).error))
  {
    if fault == LostBeforeCommit {
      return Err(ConnectionLost);
    }
    var committed := journal.Commit(header);
    if fault == LostAfterCommit {
      return Err(ConnectionLost);
    }
    if committed.Err? {
      return Err(Journal(committed.error));
    }
    return Ok(());
  }

  /** The pending front is one above the tip, so it never repeats the tip. */
  lemma NextBlockIsNew(config: SchedulerConfig, c: Cursor, rows: seq<Header>, block: Header)
    requires Aligned(config, c, rows) && c.pending != [] && block.height == c.pending[0]
    ensures block.height == c.nextHeight
    ensures rows != [] ==> block.height == Tip(rows).height + 1
  {
    assert !NO_BYPASS.IsBypassed(c.nextHeight);
  }

  /** Why a block was not accepted, what is reported, and what is left of it. */
  ghost predicate Fails(rows: seq<Header>, block: Header, fault: Fault, after: seq<Header>, e: IngestError) {
    && (if fault == LostAfterCommit && Appended(rows, block).Ok? then after == rows + [block] else after == rows)
    && if fault != NoFault then e == ConnectionLost
       else Appended(rows, block).Err? && e == Journal(Appended(rows, block).error)
  }

  /** Accept, then acknowledge. The block is one above the tip, so success always adds a row. */
  method DeliverOne(s: FetchScheduler, journal: IngestionStore, block: Header, fault: Fault)
    returns (r: Result<(), IngestError>)
    requires s.plan == NO_BYPASS && IsChain(journal.rows)
    requires Aligned(s.config, s.State(), journal.rows)
    requires s.pending != [] && s.pending[0] == block.height
    modifies s, journal
    ensures IsChain(journal.rows)
    ensures journal.rows == old(journal.rows) || journal.rows == old(journal.rows) + [block]
    ensures r.Ok? ==>
              && journal.rows == old(journal.rows) + [block]
              && Aligned(s.config, s.State(), journal.rows)
              && s.pending == old(s.pending)[1..]
    ensures fault == NoFault && Fits(old(journal.rows), block) ==> r.Ok?
    ensures r.Ok? ==> fault == NoFault
    ensures r.Err? ==> Fails(old(journal.rows), block, fault, journal.rows, r.error)
  {
    CommitExtendsChain(journal.rows, block);
    NextBlockIsNew(s.config, s.State(), journal.rows, block);
    AcknowledgeKeepsPending(s.config, NO_BYPASS, s.State(), block.height);
    r := Accept(journal, block, fault);
    if r.Ok? {
      var acknowledged := s.Acknowledge(block.height);
      assert acknowledged.Ok?;
    }
  }

  lemma FrontOfBatch(before: seq<Header>, blocks: seq<Header>, i: nat)
    requires i <= |blocks|
    ensures before <= before + blocks[..i] <= before + blocks
    ensures i < |blocks| ==> before + blocks[..i] + [blocks[i]] == before + blocks[..i + 1]
  {
  }

  /** No cancellation is seen before any of the first `n` blocks. */
  ghost predicate NotCancelled(round: Round, n: nat) {
    forall k: nat :: k < n ==> !round.cancelAt(k)
  }

  /** No fault strikes while the first `n` blocks are committed. */
  ghost predicate NoFaults(round: Round, n: nat) {
    forall k: nat :: k < n ==> round.fault(k) == NoFault
  }

  /** Block `i` of the batch fails, after those before it were accepted. */
  ghost predicate FailsAt(rows: seq<Header>, blocks: seq<Header>, round: Round, i: nat, after: seq<Header>,
                          e: IngestError)
  {
    i < |blocks| && NoFaults(round, i) && NotCancelled(round, i + 1)
    && Fails(rows + blocks[..i], blocks[i], round.fault(i), after, e)
  }

  /**
   How a batch ends: whole, with no cancellation and no fault; or cancelled before the first block
   it did not add; or failed at some block. Whichever it is, no block was begun once cancelled.
   */
  ghost predicate BatchEnds(rows: seq<Header>, blocks: seq<Header>, round: Round, after: seq<Header>,
                            r: Result<Option<Outcome>, IngestError>)
  {
    && rows <= after <= rows + blocks
    && var added := |after| - |rows|;
       && NotCancelled(round, added)
       && match r
          case Ok(None) => after == rows + blocks && NoFaults(round, added)
          case Ok(Some(outcome)) =>
            outcome == Stopped && added < |blocks| && round.cancelAt(added) && NoFaults(round, added)
          case Err(e) => exists i :: FailsAt(rows, blocks, round, i, after, e)
  }

  lemma WholeBatch(rows: seq<Header>, blocks: seq<Header>, round: Round)
    requires NotCancelled(round, |blocks|) && NoFaults(round, |blocks|)
    ensures BatchEnds(rows, blocks, round, rows + blocks[..|blocks|], Ok(None))
  {
    assert blocks[..|blocks|] == blocks;
  }

  lemma StoppedBatch(rows: seq<Header>, blocks: seq<Header>, round: Round, i: nat)
    requires i < |blocks| && NotCancelled(round, i) && NoFaults(round, i) && round.cancelAt(i)
    ensures BatchEnds(rows, blocks, round, rows + blocks[..i], Ok(Some(Stopped)))
  {
    FrontOfBatch(rows, blocks, i);
  }

  lemma FailedBatch(rows: seq<Header>, blocks: seq<Header>, round: Round, i: nat, after: seq<Header>,
                    error: IngestError)
    requires FailsAt(rows, blocks, round, i, after, error)
    ensures BatchEnds(rows, blocks, round, after, Err(error))
  {
    FrontOfBatch(rows, blocks, i);
    FrontOfBatch(rows, blocks, i + 1);
  }

  /**
   The inner loop of `run`: accept, then acknowledge, one block at a time. Unless a commit
   fails, the cursor ends one past the tip; always, the journal stays a chain and only grows
   by a front part of the batch. It goes on exactly as long as nothing cancels and nothing fails,
   and stops between blocks on a cancellation.
   */
  method DeliverBatch(s: FetchScheduler, journal: IngestionStore, blocks: seq<Header>, round: Round)
    returns (r: Result<Option<Outcome>, IngestError>)
    requires s.plan == NO_BYPASS && IsChain(journal.rows)
    requires Aligned(s.config, s.State(), journal.rows)
    requires |blocks| <= |s.pending|
    requires forall i :: 0 <= i < |blocks| ==> blocks[i].height == s.pending[i]
    modifies s, journal
    ensures IsChain(journal.rows)
    ensures BatchEnds(old(journal.rows), blocks, round, journal.rows, r)
    ensures r.Ok? ==> Aligned(s.config, s.State(), journal.rows)
    ensures CommitsOn(old(journal.rows), blocks) && Undisturbed(round) ==> r == Ok(None)
  {
    ghost var before, pending := journal.rows, s.pending;
    ghost var clean := CommitsOn(before, blocks) && Undisturbed(round);
    for i := 0 to |blocks|
      invariant IsChain(journal.rows) && journal.rows == before + blocks[..i]
      invariant Aligned(s.config, s.State(), journal.rows)
      invariant s.pending == pending[i..]
      invariant NotCancelled(round, i) && NoFaults(round, i)
    {
      FrontOfBatch(before, blocks, i);
      if round.cancelAt(i) {
        StoppedBatch(before, blocks, round, i);
        return Ok(Some(Stopped));
      }
      if clean {
        CommitsOneByOne(before, blocks, journal.rows, i);
      }
      var delivered := DeliverOne(s, journal, blocks[i], round.fault(i));
      if delivered.Err? {
        FailedBatch(before, blocks, round, i, journal.rows, delivered.error);
        return Err(delivered.error);
      }
    }
    WholeBatch(before, blocks, round);
    return Ok(None);
  }

  /** That many heights are handed out. */
  ghost predicate Asks(config: SchedulerConfig, c: Cursor, report: HeadReport, n: nat) {
    var planned := Planned(config, NO_BYPASS, c, 0, 0, report).1;
    planned.Ok? && |planned.value| == n
  }

  /** One fetch over the journal's rows: blocks for the pending front, as the adapter delivered them. */
  method Fetch(s: FetchScheduler, ghost rows: seq<Header>, round: Round, ghost canon: u64 -> Header)
    returns (r: Result<seq<Header>, FetchScheduling.Error>)
    requires s.plan == NO_BYPASS && Aligned(s.config, s.State(), rows)
    modifies s`pending
    ensures Aligned(s.config, s.State(), rows)
    ensures r.Ok? ==>
              && |r.value| <= |s.pending|
              && (forall i :: 0 <= i < |r.value| ==>
                    r.value[i].height == s.pending[i] && round.adapter(r.value[i].height) == Some(r.value[i]))
              && (rows == [] && r.value != [] ==> r.value[0].height == s.config.startHeight)
    ensures r.Ok? ==> Asks(s.config, old(s.State()), round.report, |r.value|)
    ensures Served(s.config, rows, round, canon) ==>
              FetchServes(s.config, old(s.State()), rows, round, canon, r)
  {
    ghost var cursor := s.State();
    PlanKeepsPending(s.config, NO_BYPASS, cursor, 0, 0, round.report);
    r := s.FetchNext(round.report, round.adapter);
    ghost var planned := Planned(s.config, NO_BYPASS, cursor, 0, 0, round.report).1;
    if Served(s.config, rows, round, canon) {
      ServedFetch(s.config, cursor, rows, round, canon, planned, r);
    }
    if r.Ok? && r.value != [] {
      NextBlockIsNew(s.config, s.State(), rows, r.value[0]);
    }
  }

  /** The round is cancelled at the outset, or once it has added `n` blocks. */
  ghost predicate StopsAfter(round: Round, n: nat) {
    if round.cancelled then n == 0 else round.cancelAt(n)
  }

  /**
   How a round that added `n` blocks may fail: the fetch did, and nothing was added; the connection
   was lost at some block; or the journal refused one.
   */
  ghost predicate FailsAfter(round: Round, n: nat, e: IngestError) {
    match e
    case Scheduler(_) => n == 0
    case ConnectionLost => exists i: nat :: round.fault(i) != NoFault
    case Journal(_) => true
    case _ => false
  }

  /**
   What a pass does to the journal: it adds blocks that its adapter delivered, keeps the chain, and
   leaves the cursor one past the tip unless it fails. It goes on only after all that was handed out;
   a cancelled pass adds nothing and stops.
   */
  ghost predicate PassGrows(config: SchedulerConfig, round: Round, c: Cursor, rows: seq<Header>, next: Cursor,
                            after: seq<Header>, r: Result<Option<Outcome>, IngestError>)
  {
    && IsChain(after) && rows <= after
    && (rows == [] && after != [] ==> after[0].height == config.startHeight)
    && (forall i :: |rows| <= i < |after| ==> round.adapter(after[i].height) == Some(after[i]))
    && (r.Ok? ==> Aligned(config, next, after) && r.value in {None, Some(Stopped)})
    && (round.cancelled ==> r == Ok(Some(Stopped)) && after == rows)
    && NotCancelled(round, |after| - |rows|)
    && (r == Ok(None) ==> Asks(config, c, round.report, |after| - |rows|))
    && (r == Ok(Some(Stopped)) ==> StopsAfter(round, |after| - |rows|))
    && (r.Err? ==> FailsAfter(round, |after| - |rows|, r.error))
  }

  /** What a harmless pass does besides: it goes on, canonical still, and advances if the heads allow it. */
  ghost predicate PassServes(config: SchedulerConfig, round: Round, canon: u64 -> Header, c: Cursor, next: Cursor,
                             after: seq<Header>, r: Result<Option<Outcome>, IngestError>)
    requires config.endHeight.Some?
  {
    && r == Ok(None)
    && OnCanon(config, after, canon)
    && Position(next) >= Position(c) + if CanAdvance(config, c, round) then 1 else 0
  }

  /** However a fetched batch ends, it makes a pass. */
  lemma {:induction false} BatchIsPass(config: SchedulerConfig, round: Round, c: Cursor, rows: seq<Header>,
                                       blocks: seq<Header>, next: Cursor, after: seq<Header>,
                                       r: Result<Option<Outcome>, IngestError>)
    requires Asks(config, c, round.report, |blocks|)
    requires BatchEnds(rows, blocks, round, after, r) && IsChain(after) && !round.cancelled
    requires r.Ok? ==> Aligned(config, next, after)
    requires forall i :: 0 <= i < |blocks| ==> round.adapter(blocks[i].height) == Some(blocks[i])
    requires rows == [] && blocks != [] ==> blocks[0].height == config.startHeight
    ensures PassGrows(config, round, c, rows, next, after, r)
  {
    assert forall i :: |rows| <= i < |after| ==> after[i] == blocks[i - |rows|];
  }

  /** One pass of the outer loop: fetch, then deliver. `None` means go round again. */
  method RunRound(s: FetchScheduler, journal: IngestionStore, round: Round, ghost canon: u64 -> Header)
    returns (r: Result<Option<Outcome>, IngestError>)
    requires s.plan == NO_BYPASS && IsChain(journal.rows)
    requires Aligned(s.config, s.State(), journal.rows)
    modifies s, journal
    ensures PassGrows(s.config, round, old(s.State()), old(journal.rows), s.State(), journal.rows, r)
    ensures Served(s.config, old(journal.rows), round, canon) ==>
              PassServes(s.config, round, canon, old(s.State()), s.State(), journal.rows, r)
  {
    if round.cancelled {
      return Ok(Some(Stopped));
    }
    var fetched := Fetch(s, journal.rows, round, canon);
    if fetched.Err? {
      return Err(Scheduler(fetched.error));
    }
    var blocks := fetched.value;
    if blocks == [] {
      return Ok(None);
    }
    r := DeliverBatch(s, journal, blocks, round);
    BatchIsPass(s.config, round, old(s.State()), old(journal.rows), blocks, s.State(), journal.rows, r);
  }

  /** Past the end nothing can be pending and no batch is left. */
  lemma PastEndIsComplete(config: SchedulerConfig, c: Cursor)
    requires PendingIsNext(config, NO_BYPASS, c) && Workable(config)
    requires Position(c) > config.endHeight.value
    ensures Complete(config, NO_BYPASS, c)
  {
  }

  /** How many of the first `n` rounds have heads past the end. */
  ghost function Chances(config: SchedulerConfig, rounds: seq<Round>, n: nat): nat
    requires config.endHeight.Some? && n <= |rounds|
  {
    if n == 0 then 0
    else Chances(config, rounds, n - 1) + if HeadsPastEnd(config, rounds[n - 1].report) then 1 else 0
  }

  /** No round does harm, and enough of them, one for each height still to go, have heads past the end. */
  ghost predicate WellServed(config: SchedulerConfig, rows: seq<Header>, from: nat, rounds: seq<Round>,
                             canon: u64 -> Header)
  {
    && Workable(config) && OnCanon(config, rows, canon)
    && (forall k :: 0 <= k < |rounds| ==> Harmless(rounds[k], canon))
    && Chances(config, rounds, |rounds|) > config.endHeight.value - from
  }

  /** What one round adds: rows `low` up to `high`, all delivered by its adapter before it was cancelled. */
  ghost predicate RoundAdds(round: Round, rows: seq<Header>, low: nat, high: nat) {
    && low <= high <= |rows|
    && NotCancelled(round, high - low) && (round.cancelled ==> low == high)
    && forall i :: low <= i < high ==> round.adapter(rows[i].height) == Some(rows[i])
  }

  ghost predicate Uncancelled(rounds: seq<Round>, k: nat) {
    k < |rounds| && !rounds[k].cancelled
  }

  /**
   Round by round: `marks` gives the journal's length at the outset and after each round entered.
   No round is entered after a cancelled one.
   */
  ghost predicate Traced(rounds: seq<Round>, rows: seq<Header>, from: nat, marks: seq<nat>) {
    && 0 < |marks| <= |rounds| + 1
    && marks[0] == from && marks[|marks| - 1] == |rows|
    && (forall k :: 0 <= k < |marks| - 1 ==> RoundAdds(rounds[k], rows, marks[k], marks[k + 1]))
    && (forall k :: 0 <= k < |marks| - 2 ==> Uncancelled(rounds, k))
  }

  lemma {:induction false} RoundStillAdds(round: Round, rows: seq<Header>, after: seq<Header>, low: nat, high: nat)
    requires RoundAdds(round, rows, low, high) && rows <= after
    ensures RoundAdds(round, after, low, high)
  {
    forall i | low <= i < high ensures round.adapter(after[i].height) == Some(after[i]) {
      assert after[i] == rows[i];
    }
  }

  /** One more round, after rounds of which none was cancelled. */
  lemma {:induction false} TracedOn(rounds: seq<Round>, rows: seq<Header>, after: seq<Header>, from: nat,
                                    marks: seq<nat>)
    requires Traced(rounds, rows, from, marks) && rows <= after && |marks| <= |rounds|
    requires RoundAdds(rounds[|marks| - 1], after, |rows|, |after|)
    requires |marks| >= 2 ==> Uncancelled(rounds, |marks| - 2)
    ensures Traced(rounds, after, from, marks + [|after|])
  {
    var more := marks + [|after|];
    forall k | 0 <= k < |more| - 1 ensures RoundAdds(rounds[k], after, more[k], more[k + 1]) {
      if k < |marks| - 1 {
        RoundStillAdds(rounds[k], rows, after, marks[k], marks[k + 1]);
      }
    }
  }

  /** What stays fixed over a run: its configuration, script and canonical chain, and where it began. */
  datatype Trip = Trip(
    config: SchedulerConfig, rounds: seq<Round>, canon: u64 -> Header,
    before: seq<Header>, from: nat)

  /**
   The journal once some rounds have been entered: still a chain, begun at the start height if it
   was empty, and grown round by round.
   */
  ghost predicate Grown(t: Trip, rows: seq<Header>, marks: seq<nat>) {
    && IsChain(rows) && t.before <= rows
    && (t.before == [] && rows != [] ==> rows[0].height == t.config.startHeight)
    && Traced(t.rounds, rows, |t.before|, marks)
  }

  /** How far a well-served run has got after the first `k` rounds. */
  ghost predicate OnCourse(t: Trip, c: Cursor, rows: seq<Header>, k: nat) {
    WellServed(t.config, t.before, t.from, t.rounds, t.canon) ==>
      && k <= |t.rounds|
      && OnCanon(t.config, rows, t.canon)
      && Position(c) >= t.from + Chances(t.config, t.rounds, k)
  }

  /** The script is used up, or the last round entered is where the run was cancelled. */
  ghost predicate StopsIn(rounds: seq<Round>, marks: seq<nat>) {
    || |marks| == |rounds| + 1
    || (&& 2 <= |marks| <= |rounds| + 1 && marks[|marks| - 2] <= marks[|marks| - 1]
        && StopsAfter(rounds[|marks| - 2], marks[|marks| - 1] - marks[|marks| - 2]))
  }

  /** The last round entered is where the run failed. */
  ghost predicate FailsIn(rounds: seq<Round>, marks: seq<nat>, e: IngestError) {
    && 2 <= |marks| <= |rounds| + 1 && marks[|marks| - 2] <= marks[|marks| - 1]
    && FailsAfter(rounds[|marks| - 2], marks[|marks| - 1] - marks[|marks| - 2], e)
  }

  /** The last round entered was not cancelled at the outset, so another may follow. */
  ghost predicate GoesOn(rounds: seq<Round>, marks: seq<nat>) {
    |marks| >= 2 ==> Uncancelled(rounds, |marks| - 2)
  }

  lemma {:induction false} PassKeepsGrown(t: Trip, marks: seq<nat>, c: Cursor, rows: seq<Header>, next: Cursor,
                                          after: seq<Header>, r: Result<Option<Outcome>, IngestError>)
    requires Grown(t, rows, marks) && |marks| <= |t.rounds|
    requires PassGrows(t.config, t.rounds[|marks| - 1], c, rows, next, after, r)
    requires GoesOn(t.rounds, marks)
    ensures Grown(t, after, marks + [|after|])
    ensures r == Ok(None) ==> GoesOn(t.rounds, marks + [|after|])
    ensures r == Ok(Some(Stopped)) ==> StopsIn(t.rounds, marks + [|after|])
    ensures r.Err? ==> FailsIn(t.rounds, marks + [|after|], r.error)
  {
    TracedOn(t.rounds, rows, after, |t.before|, marks);
  }

  lemma {:induction false} PassKeepsCourse(t: Trip, k: nat, c: Cursor, rows: seq<Header>, next: Cursor,
                                           after: seq<Header>, r: Result<Option<Outcome>, IngestError>)
    requires k < |t.rounds| && OnCourse(t, c, rows, k) && Aligned(t.config, c, rows)
    requires !Complete(t.config, NO_BYPASS, c)
    requires Served(t.config, rows, t.rounds[k], t.canon) ==>
               PassServes(t.config, t.rounds[k], t.canon, c, next, after, r)
    ensures OnCourse(t, next, after, k + 1)
    ensures WellServed(t.config, t.before, t.from, t.rounds, t.canon) ==> r == Ok(None)
  {
    if WellServed(t.config, t.before, t.from, t.rounds, t.canon) && Position(c) > t.config.endHeight.value {
      PastEndIsComplete(t.config, c);
    }
  }

  lemma {:induction false} CourseReachesEnd(t: Trip, c: Cursor, rows: seq<Header>)
    requires OnCourse(t, c, rows, |t.rounds|) && Aligned(t.config, c, rows)
    ensures WellServed(t.config, t.before, t.from, t.rounds, t.canon) ==> Complete(t.config, NO_BYPASS, c)
  {
    if WellServed(t.config, t.before, t.from, t.rounds, t.canon) {
      PastEndIsComplete(t.config, c);
    }
  }

  /** Between passes: grown round by round, aligned, on course, and not cancelled. */
  ghost predicate Along(t: Trip, c: Cursor, rows: seq<Header>, marks: seq<nat>) {
    && Grown(t, rows, marks) && GoesOn(t.rounds, marks)
    && Aligned(t.config, c, rows)
    && OnCourse(t, c, rows, |marks| - 1)
  }

  lemma {:induction false} PassKeepsAlong(t: Trip, marks: seq<nat>, c: Cursor, rows: seq<Header>, next: Cursor,
                                          after: seq<Header>, r: Result<Option<Outcome>, IngestError>)
    requires Along(t, c, rows, marks) && |marks| <= |t.rounds| && !Complete(t.config, NO_BYPASS, c)
    requires PassGrows(t.config, t.rounds[|marks| - 1], c, rows, next, after, r)
    requires Served(t.config, rows, t.rounds[|marks| - 1], t.canon) ==>
               PassServes(t.config, t.rounds[|marks| - 1], t.canon, c, next, after, r)
    ensures Grown(t, after, marks + [|after|])
    ensures r.Ok? ==> Aligned(t.config, next, after)
    ensures r == Ok(None) ==> Along(t, next, after, marks + [|after|])
    ensures r == Ok(Some(Stopped)) ==> StopsIn(t.rounds, marks + [|after|])
    ensures r.Err? ==> FailsIn(t.rounds, marks + [|after|], r.error)
    ensures r.Ok? ==> r.value in {None, Some(Stopped)}
    ensures WellServed(t.config, t.before, t.from, t.rounds, t.canon) ==> r == Ok(None)
  {
    PassKeepsGrown(t, marks, c, rows, next, after, r);
    PassKeepsCourse(t, |marks| - 1, c, rows, next, after, r);
  }

  /**
   How a run ends. Whatever the outcome, the journal has grown round by round. It is finished only
   when complete, and always if served well enough. It stops where it was cancelled, or because its
   script is used up; it fails in the last round it entered, or before any if the batch size is zero.
   */
  ghost predicate RunEnds(t: Trip, marks: seq<nat>, c: Cursor, rows: seq<Header>, r: Result<Outcome, IngestError>) {
    && Grown(t, rows, marks)
    && (WellServed(t.config, t.before, t.from, t.rounds, t.canon) ==> r == Ok(Finished))
    && match r
       case Ok(outcome) =>
         && t.config.batchSize > 0 && Aligned(t.config, c, rows)
         && if outcome == Finished then Complete(t.config, NO_BYPASS, c) else StopsIn(t.rounds, marks)
       case Err(e) =>
         if t.config.batchSize == 0 then e == Scheduler(ZeroBatchSize) && rows == t.before
         else FailsIn(t.rounds, marks, e)
  }

  lemma {:induction false} CompleteEndsRun(t: Trip, marks: seq<nat>, c: Cursor, rows: seq<Header>)
    requires Along(t, c, rows, marks) && Complete(t.config, NO_BYPASS, c) && t.config.batchSize > 0
    ensures RunEnds(t, marks, c, rows, Ok(Finished))
  {
  }

  lemma {:induction false} ScriptEndsRun(t: Trip, marks: seq<nat>, c: Cursor, rows: seq<Header>)
    requires Along(t, c, rows, marks) && |marks| == |t.rounds| + 1 && t.config.batchSize > 0
    ensures RunEnds(t, marks, c, rows, Ok(if Complete(t.config, NO_BYPASS, c) then Finished else Stopped))
  {
    CourseReachesEnd(t, c, rows);
  }

  /** One more pass of a run that is not complete. */
  method RunNext(s: FetchScheduler, journal: IngestionStore, round: Round, ghost t: Trip, ghost marks: seq<nat>)
    returns (r: Result<Option<Outcome>, IngestError>)
    requires s.plan == NO_BYPASS && s.config == t.config && Along(t, s.State(), journal.rows, marks)
    requires |marks| <= |t.rounds| && round == t.rounds[|marks| - 1]
    requires t.config.batchSize > 0 && !Complete(s.config, NO_BYPASS, s.State())
    modifies s, journal
    ensures match r
            case Ok(None) => Along(t, s.State(), journal.rows, marks + [|journal.rows|])
            case Ok(Some(outcome)) => RunEnds(t, marks + [|journal.rows|], s.State(), journal.rows, Ok(outcome))
            case Err(e) => RunEnds(t, marks + [|journal.rows|], s.State(), journal.rows, Err(e))
  {
    ghost var c, rows := s.State(), journal.rows;
    r := RunRound(s, journal, round, t.canon);
    PassKeepsAlong(t, marks, c, rows, s.State(), journal.rows, r);
  }

  /**
   The outer loop. `Finished` means the range is consumed, and a well-served run always gets
   there. Each script of rounds is one finite stretch of a run; a script that ends is a process
   that was stopped. `marks` records what each round entered added.
   */
  method Run(s: FetchScheduler, journal: IngestionStore, rounds: seq<Round>, ghost canon: u64 -> Header)
    returns (r: Result<Outcome, IngestError>, ghost marks: seq<nat>)
    requires s.plan == NO_BYPASS && IsChain(journal.rows)
    requires Aligned(s.config, s.State(), journal.rows)
    modifies s, journal
    ensures RunEnds(Trip(s.config, rounds, canon, old(journal.rows), Position(old(s.State()))),
                    marks, s.State(), journal.rows, r)
  {
    ghost var t := Trip(s.config, rounds, canon, journal.rows, Position(s.State()));
    marks := [|journal.rows|];
    if s.config.batchSize == 0 {
      return Err(Scheduler(ZeroBatchSize)), marks;
    }
    for k := 0 to |rounds|
      invariant |marks| == k + 1 && Along(t, s.State(), journal.rows, marks)
    {
      var complete := s.IsComplete();
      if complete {
        CompleteEndsRun(t, marks, s.State(), journal.rows);
        return Ok(Finished), marks;
      }
      var step := RunNext(s, journal, rounds[k], t, marks);
      marks := marks + [|journal.rows|];
      if step.Err? {
        return Err(step.error), marks;
      }
      if step.value.Some? {
        return Ok(step.value.value), marks;
      }
    }
    ScriptEndsRun(t, marks, s.State(), journal.rows);
    var complete := s.IsComplete();
    return Ok(if complete then Finished else Stopped), marks;
  }

  /** The checks a process makes before it fetches anything. */
  ghost predicate MayResume(config: SchedulerConfig, rows: seq<Header>, headerAt: u64 -> Option<Header>) {
    rows != [] ==>
      && headerAt(Tip(rows).height).Some?
      && headerAt(Tip(rows).height).value.hash == Tip(rows).hash
      && config.startHeight <= Tip(rows).height + 1
  }

  ghost predicate HasRow(rows: seq<Header>, height: u64) {
    exists i :: 0 <= i < |rows| && rows[i].height == height
  }

  /** Every height of the range has a row. */
  ghost predicate Covers(rows: seq<Header>, low: u64, high: u64) {
    forall h: u64 :: low <= h <= high ==> HasRow(rows, h)
  }

  /** A chain that reaches the end covers a range exactly when it begins no later than the range. */
  lemma {:induction false} CoversIff(rows: seq<Header>, low: u64, high: u64)
    requires Linked(rows) && rows != [] && low <= high <= Tip(rows).height
    ensures Covers(rows, low, high) <==> rows[0].height <= low
  {
    LinkedHeights(rows, |rows| - 1);
    if Covers(rows, low, high) {
      assert HasRow(rows, low);
      var i :| 0 <= i < |rows| && rows[i].height == low;
      LinkedHeights(rows, i);
    }
    if rows[0].height <= low {
      forall h: u64 | low <= h <= high ensures HasRow(rows, h) {
        LinkedHeights(rows, h - rows[0].height);
      }
    }
  }

  lemma FinishedReachesEnd(config: SchedulerConfig, c: Cursor, rows: seq<Header>)
    requires config.batchSize > 0 && IsChain(rows)
    requires Aligned(config, c, rows) && Complete(config, NO_BYPASS, c)
    ensures config.endHeight.Some?
    ensures config.startHeight <= config.endHeight.value ==>
              rows != [] && Tip(rows).height >= config.endHeight.value
  {
  }

  /**
   The journal has got to the end. It holds every height of the range from the start on exactly
   when it was empty or already began there or lower.
   */
  ghost predicate Reaches(config: SchedulerConfig, before: seq<Header>, after: seq<Header>)
    requires config.endHeight.Some?
  {
    && after != [] && Tip(after).height >= config.endHeight.value
    && (Covers(after, config.startHeight, config.endHeight.value) <==>
        before == [] || before[0].height <= config.startHeight)
  }

  lemma {:induction false} FinishedReaches(config: SchedulerConfig, c: Cursor, before: seq<Header>, after: seq<Header>)
    requires config.batchSize > 0 && IsChain(after) && before <= after
    requires before == [] && after != [] ==> after[0].height == config.startHeight
    requires Aligned(config, c, after) && Complete(config, NO_BYPASS, c)
    ensures config.endHeight.Some?
    ensures config.startHeight <= config.endHeight.value ==> Reaches(config, before, after)
  {
    FinishedReachesEnd(config, c, after);
    if config.startHeight <= config.endHeight.value {
      CoversIff(after, config.startHeight, config.endHeight.value);
      assert before != [] ==> before[0] == after[0];
    }
  }

  /** What harmless rounds add is canonical. */
  lemma {:induction false} AddedIsCanonical(rounds: seq<Round>, rows: seq<Header>, from: nat, marks: seq<nat>, n: nat,
                                            canon: u64 -> Header)
    requires Traced(rounds, rows, from, marks) && n < |marks|
    requires forall k :: 0 <= k < |rounds| ==> Harmless(rounds[k], canon)
    ensures from <= marks[n] <= |rows|
    ensures forall i :: from <= i < marks[n] ==> rows[i] == canon(rows[i].height)
  {
    if n == 0 {
      assert |marks| > 1 ==> RoundAdds(rounds[0], rows, marks[0], marks[1]);
    } else {
      AddedIsCanonical(rounds, rows, from, marks, n - 1, canon);
      assert RoundAdds(rounds[n - 1], rows, marks[n - 1], marks[n]) && Harmless(rounds[n - 1], canon);
    }
  }

  /**
   `ingest::run`: start fresh over an empty journal, otherwise resume after its tip, provided
   the tip is still canonical and the configured start leaves no gap. `shutdown` means that the
   process is told to stop while it looks the tip up.
   */
  method IngestRun(config: SchedulerConfig, journal: IngestionStore, headerAt: u64 -> Option<Header>, shutdown: bool,
                   rounds: seq<Round>, ghost canon: u64 -> Header)
    returns (r: Result<Outcome, IngestError>, ghost marks: seq<nat>)
    requires IsChain(journal.rows)
    modifies journal
    ensures IsChain(journal.rows) && old(journal.rows) <= journal.rows
    ensures old(journal.rows) == [] && journal.rows != [] ==> journal.rows[0].height == config.startHeight
    ensures Traced(rounds, journal.rows, |old(journal.rows)|, marks)
    ensures r == Ok(Stopped) ==>
              (shutdown && |marks| == 1) || StopsIn(rounds, marks)
    ensures !shutdown && MayResume(config, old(journal.rows), headerAt) && r.Err? ==>
              if config.batchSize == 0 then r == Err(Scheduler(ZeroBatchSize)) && journal.rows == old(journal.rows)
              else FailsIn(rounds, marks, r.error)
    ensures old(journal.rows) != [] && shutdown ==> r == Ok(Stopped) && journal.rows == old(journal.rows)
    ensures !shutdown && !MayResume(config, old(journal.rows), headerAt) ==> r.Err? && journal.rows == old(journal.rows)
    ensures !shutdown && old(journal.rows) != [] ==>
              var tip := Tip(old(journal.rows));
              && (headerAt(tip.height).None? ==> r == Err(HeaderUnavailable))
              && (headerAt(tip.height).Some? && headerAt(tip.height).value.hash != tip.hash ==> r == Err(NotCanonical))
              && ((&& headerAt(tip.height).Some? && headerAt(tip.height).value.hash == tip.hash
                   && config.startHeight > tip.height + 1) ==> r == Err(StartSkipsJournal))
    ensures r == Ok(Finished) ==>
              && config.batchSize > 0
              && config.endHeight.Some?
              && (config.startHeight <= config.endHeight.value ==> Reaches(config, old(journal.rows), journal.rows))
    ensures !shutdown && MayResume(config, old(journal.rows), headerAt) &&
            WellServed(config, old(journal.rows), config.startHeight, rounds, canon) ==>
              && r == Ok(Finished)
              && forall i :: |old(journal.rows)| <= i < |journal.rows| ==>
                   journal.rows[i] == canon(journal.rows[i].height)
  {
    var s := new FetchScheduler(config, NO_BYPASS);
    var last := journal.Load();
    if last.Some? {
      if shutdown {
        return Ok(Stopped), [|journal.rows|];
      }
      HighestIsTip(journal.rows, last.value);
      var canonical := headerAt(last.value.height);
      if canonical.None? {
        return Err(HeaderUnavailable), [|journal.rows|];
      }
      if canonical.value.hash != last.value.hash {
        return Err(NotCanonical), [|journal.rows|];
      }
      if config.startHeight > SatAdd(last.value.height, 1, U64_MAX) {
        return Err(StartSkipsJournal), [|journal.rows|];
      }
      s.ResumeFrom(last.value.height);
    }
    r, marks := Run(s, journal, rounds, canon);
    if r == Ok(Finished) {
      FinishedReaches(config, s.State(), old(journal.rows), journal.rows);
    }
    if WellServed(config, old(journal.rows), config.startHeight, rounds, canon) {
      AddedIsCanonical(rounds, journal.rows, |old(journal.rows)|, marks, |marks| - 1, canon);
    }
  }

  /** Started again from a lower height, a process may resume, is complete at once, and leaves the gap. */
  lemma LowerStartLeavesGap()
    ensures var row := Header(100, "a", None, None);
            var config := SchedulerConfig(10, Some(100), 1, false, FetchBackpressure.Backpressure(1, 1));
            && IsChain([row]) && MayResume(config, [row], (h: u64) => Some(row))
            && Complete(config, NO_BYPASS, Resumed(config, 100))
            && !HasRow([row], 10)
  {
  }
}
