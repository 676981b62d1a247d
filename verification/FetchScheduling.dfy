/**
 The acknowledgement scheduler (crates/core/src/fetch/scheduler.rs).

 The class updates its fields as the source does. Each method is tied to a function on
 `Cursor` values, and the promises about whole runs are proved about those functions.
 */
module FetchScheduling {
  import opened Prelude
  import opened Chain
  import opened FetchBackpressure
  import opened RangePlanning

  datatype SchedulerConfig = SchedulerConfig(
    startHeight: u64,
    endHeight: Option<u64>,
    batchSize: u32,
    indexUnfinalized: bool,
    backpressure: Backpressure)

  datatype Error =
    | AdapterFailed
    | OutOfOrderAcknowledgement
    | WrongBlockHeight
    | InconsistentParents
    | ZeroBatchSize

  /** The mutable part of a scheduler. */
  datatype Cursor = Cursor(nextHeight: u64, exhausted: bool, pending: seq<u64>)

  function Fresh(config: SchedulerConfig): Cursor {
    Cursor(config.startHeight, false, [])
  }

  function Resumed(config: SchedulerConfig, last: u64): Cursor {
    Cursor(Max(SatAdd(last, 1, U64_MAX), config.startHeight), last == U64_MAX, [])
  }

  function Acknowledged(c: Cursor, height: u64): Result<Cursor, Error> {
    if c.pending == [] || c.pending[0] != height then Err(OutOfOrderAcknowledgement)
    else Ok(Cursor(SatAdd(height, 1, U64_MAX), height == U64_MAX, c.pending[1..]))
  }

  ghost predicate Complete(config: SchedulerConfig, plan: RangePlan, c: Cursor) {
    || c.exhausted
    || (&& c.pending == []
        && config.endHeight.Some?
        && BatchAt(plan, c.nextHeight, config.endHeight.value, config.batchSize).None?)
  }

  /** What the adapter says about the head; `None` stands for a failed call. */
  datatype HeadReport = HeadReport(latest: Option<u64>, finalized: Option<u64>)

  function ReportedHead(config: SchedulerConfig, report: HeadReport): Option<u64> {
    if report.latest.None? || report.finalized.None? then None
    else Some(SafeHead(report.latest.value, report.finalized.value, config.indexUnfinalized))
  }

  /** The heights handed out, or the adapter's failure, and the cursor afterwards. */
  ghost function Planned(config: SchedulerConfig, plan: RangePlan, c: Cursor,
                         inFlight: u32, queued: u32, report: HeadReport)
    : (Cursor, Result<seq<u64>, Error>)
  {
    var budget := config.backpressure.ClampBatch(config.batchSize, inFlight, queued);
    if Complete(config, plan, c) || budget == 0 then (c, Ok([]))
    else if c.pending != [] then (c, Ok(c.pending[..Min(budget, |c.pending|)]))
    else
      match ReportedHead(config, report)
      case None => (c, Err(AdapterFailed))
      case Some(head) =>
        match BatchAt(plan, c.nextHeight, Ceiling(head, config.endHeight), budget)
        case None => (c, Ok([]))
        case Some(range) => (c.(pending := plan.HeightsIn(range)), Ok(plan.HeightsIn(range)))
  }

  /** A fetched batch is good when each block is the one asked for and continues its predecessor. */
  ghost predicate GoodBatch(heights: seq<u64>, blocks: seq<Header>) {
    && |blocks| == |heights|
    && (forall i :: 0 <= i < |blocks| ==> blocks[i].height == heights[i])
    && Linked(blocks)
  }

  /** Why a fetch failed: an unanswered height, a block of another height, or parents that do not link. */
  ghost predicate FailsWith(heights: seq<u64>, adapter: u64 -> Option<Header>, e: Error) {
    match e
    case AdapterFailed => exists i :: 0 <= i < |heights| && adapter(heights[i]).None?
    case WrongBlockHeight =>
      exists i :: 0 <= i < |heights| && adapter(heights[i]).Some? && adapter(heights[i]).value.height != heights[i]
    case InconsistentParents =>
      && (forall i :: 0 <= i < |heights| ==>
            adapter(heights[i]).Some? && adapter(heights[i]).value.height == heights[i])
      && exists i :: 0 < i < |heights| &&
                     !adapter(heights[i]).value.IsChildOf(adapter(heights[i - 1]).value)
    case _ => false
  }

  class FetchScheduler {
    const config: SchedulerConfig
    const plan: RangePlan
    var nextHeight: u64
    var exhausted: bool
    var pending: seq<u64>

    function State(): Cursor
      reads this
    {
      Cursor(nextHeight, exhausted, pending)
    }

    constructor (config: SchedulerConfig, plan: RangePlan)
      ensures this.config == config && this.plan == plan
      ensures State() == Fresh(config)
    {
      this.config, this.plan := config, plan;
      nextHeight, exhausted, pending := config.startHeight, false, [];
    }

    method ResumeFrom(last: u64)
      modifies this
      ensures State() == Resumed(config, last)
    {
      exhausted := last == U64_MAX;
      nextHeight := Max(SatAdd(last, 1, U64_MAX), config.startHeight);
      pending := [];
    }

    method IsComplete() returns (r: bool)
      ensures r == Complete(config, plan, State())
    {
      if exhausted {
        return true;
      }
      if pending != [] || config.endHeight.None? {
        return false;
      }
      var end := config.endHeight.value;
      var batch := plan.NextBatch(nextHeight, end, config.batchSize, Some(end));
      return batch.None?;
    }

    /** Plans a batch without advancing past unacknowledged work. */
    method NextHeights(inFlight: u32, queued: u32, report: HeadReport) returns (r: Result<seq<u64>, Error>)
      modifies this`pending
      ensures (State(), r) == Planned(config, plan, old(State()), inFlight, queued, report)
    {
      var complete := IsComplete();
      if complete {
        return Ok([]);
      }
      var budget := config.backpressure.ClampBatch(config.batchSize, inFlight, queued);
      if budget == 0 {
        return Ok([]);
      }
      if pending != [] {
        return Ok(pending[..Min(budget, |pending|)]);
      }
      var head := ReportedHead(config, report);
      if head.None? {
        return Err(AdapterFailed);
      }
      var range := plan.NextBatch(nextHeight, head.value, budget, config.endHeight);
      if range.None? {
        return Ok([]);
      }
      pending := plan.HeightsIn(range.value);
      return Ok(pending);
    }

    /** Advances only past the first pending height; anything else is refused and changes nothing. */
    method Acknowledge(height: u64) returns (r: Result<(), Error>)
      modifies this
      ensures match Acknowledged(old(State()), height)
              case Ok(next) => r == Ok(()) && State() == next
              case Err(e) => r == Err(e) && State() == old(State())
    {
      if pending == [] || pending[0] != height {
        return Err(OutOfOrderAcknowledgement);
      }
      pending := pending[1..];
      exhausted := height == U64_MAX;
      nextHeight := SatAdd(height, 1, U64_MAX);
      return Ok(());
    }

    /** Fetches what was planned. `adapter` answers each height, `None` for a failed fetch. */
    method FetchNext(report: HeadReport, adapter: u64 -> Option<Header>)
      returns (r: Result<seq<Header>, Error>)
      modifies this`pending
      ensures var (next, plannedHeights) := Planned(config, plan, old(State()), 0, 0, report);
              && State() == next
              && (r.Ok? ==> plannedHeights.Ok? && GoodBatch(plannedHeights.value, r.value))
              && (r.Ok? ==> forall i :: 0 <= i < |r.value| ==> adapter(plannedHeights.value[i]) == Some(r.value[i]))
              && (plannedHeights.Err? ==> r == Err(plannedHeights.error))
              && (plannedHeights.Ok? && r.Err? ==> FailsWith(plannedHeights.value, adapter, r.error))
              && (plannedHeights.Ok? && r.Err? ==>
                    forall blocks :: GoodBatch(plannedHeights.value, blocks) ==>
                      exists i :: 0 <= i < |blocks| && adapter(plannedHeights.value[i]) != Some(blocks[i]))
    {
      var planned := NextHeights(0, 0, report);
      if planned.Err? {
        return Err(planned.error);
      }
      var heights := planned.value;
      var blocks: seq<Header> := [];
      for i := 0 to |heights|
        invariant |blocks| == i
        invariant forall j :: 0 <= j < i ==>
          blocks[j].height == heights[j] && adapter(heights[j]) == Some(blocks[j])
      {
        var answer := adapter(heights[i]);
        if answer.None? {
          return Err(AdapterFailed);
        }
        if answer.value.height != heights[i] {
          return Err(WrongBlockHeight);
        }
        blocks := blocks + [answer.value];
      }
      var i := 1;
      while i < |blocks|
        invariant 1 <= i
        invariant forall j :: 0 < j < i && j < |blocks| ==> blocks[j].IsChildOf(blocks[j - 1])
      {
        if !blocks[i].IsChildOf(blocks[i - 1]) {
          forall other: seq<Header> | GoodBatch(heights, other)
            ensures exists k :: 0 <= k < |other| && adapter(heights[k]) != Some(other[k])
          {
            assert other[i].IsChildOf(other[i - 1]);
            assert other[i] != blocks[i] || other[i - 1] != blocks[i - 1];
          }
          return Err(InconsistentParents);
        }
        i := i + 1;
      }
      return Ok(blocks);
    }
  }
}
