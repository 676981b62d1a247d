/**
 Whole runs of the acknowledgement scheduler (crates/core/src/fetch/scheduler.rs): any
 interleaving of planning under any reported heads, acknowledgements in any order, and
 restarts from the last acknowledged height.
 */
module SchedulerRuns {
  import opened Prelude
  import opened FetchBackpressure
  import opened RangePlanning
  import opened FetchScheduling

  datatype Event =
    | Plan(inFlight: u32, queued: u32, report: HeadReport)
    | Acknowledge(height: u64)
    | Restart  // a new process: fresh, then resumed from the last acknowledged height if there is one

  /** A scheduler and every height it has acknowledged, oldest first. */
  datatype History = History(cursor: Cursor, acked: seq<u64>)

  function Last(s: seq<u64>): u64
    requires s != []
  {
    s[|s| - 1]
  }

  ghost function Step(config: SchedulerConfig, plan: RangePlan, h: History, e: Event): History {
    match e
    case Plan(inFlight, queued, report) =>
      h.(cursor := Planned(config, plan, h.cursor, inFlight, queued, report).0)
    case Acknowledge(height) =>
      (match Acknowledged(h.cursor, height)
       case Ok(next) => History(next, h.acked + [height])
       case Err(_) => h)
    case Restart =>
      h.(cursor := if h.acked == [] then Fresh(config) else Resumed(config, Last(h.acked)))
  }

  ghost function Run(config: SchedulerConfig, plan: RangePlan, events: seq<Event>): History {
    if events == [] then History(Fresh(config), [])
    else Step(config, plan, Run(config, plan, events[..|events| - 1]), events[|events| - 1])
  }

  /** The first height not yet acknowledged; one past `u64::MAX` once that has been. */
  function Position(c: Cursor): nat {
    if c.exhausted then U64_MAX + 1 else c.nextHeight
  }

  ghost predicate PendingIsNext(config: SchedulerConfig, plan: RangePlan, c: Cursor) {
    && |c.pending| <= config.batchSize
    && |c.pending| <= config.backpressure.maxInFlight
    && |c.pending| <= config.backpressure.queueCapacity
    && (c.pending != [] ==>
          && !c.exhausted
          && c.nextHeight <= c.pending[0]
          && forall h :: c.nextHeight <= h < c.pending[0] ==> plan.IsBypassed(h))
    && (forall i :: 0 <= i < |c.pending| ==>
          && c.pending[i] == c.pending[0] + i
          && !plan.IsBypassed(c.pending[i])
          && (config.endHeight.Some? ==> c.pending[i] <= config.endHeight.value))
  }

  ghost predicate Inv(config: SchedulerConfig, plan: RangePlan, h: History) {
    && PendingIsNext(config, plan, h.cursor)
    && h.acked == OpenHeights(plan, config.startHeight, Position(h.cursor) - 1)
    && (h.acked == [] ==> Position(h.cursor) == config.startHeight)
    && (h.acked != [] ==> Position(h.cursor) == Last(h.acked) + 1)
    && (h.acked != [] && config.endHeight.Some? ==> Last(h.acked) <= config.endHeight.value)
  }

  /** A freshly planned batch sits right after the cursor and inside every limit. */
  lemma {:induction false} BatchIsNext(config: SchedulerConfig, plan: RangePlan, c: Cursor, head: u64, budget: u32)
    requires !c.exhausted
    requires budget <= config.batchSize
    requires budget <= config.backpressure.maxInFlight && budget <= config.backpressure.queueCapacity
    requires BatchAt(plan, c.nextHeight, Ceiling(head, config.endHeight), budget).Some?
    ensures var range := BatchAt(plan, c.nextHeight, Ceiling(head, config.endHeight), budget).value;
            PendingIsNext(config, plan, c.(pending := plan.HeightsIn(range)))
  {
    var ceiling := Ceiling(head, config.endHeight);
    var range := BatchAt(plan, c.nextHeight, ceiling, budget).value;
    BatchIsMaximal(plan, c.nextHeight, ceiling, budget);
    OpenRunIsWhole(plan, range.start, range.end);
  }

  /** Resumed, a scheduler stands one past the last height, but not below its start, with nothing pending. */
  lemma ResumedStands(config: SchedulerConfig, last: u64)
    ensures Resumed(config, last).pending == []
    ensures last < U64_MAX ==> Position(Resumed(config, last)) == Max(last + 1, config.startHeight)
    ensures last == U64_MAX ==> Position(Resumed(config, last)) == U64_MAX + 1
    ensures Fresh(config).pending == [] && Position(Fresh(config)) == config.startHeight
  {
  }

  /** Only the first pending height can be acknowledged, and then it is: nothing else changes but the cursor. */
  lemma AcknowledgesFirst(c: Cursor, height: u64)
    ensures Acknowledged(c, height).Ok? <==> c.pending != [] && c.pending[0] == height
    ensures Acknowledged(c, height).Err? ==> Acknowledged(c, height) == Err(OutOfOrderAcknowledgement)
    ensures Acknowledged(c, height).Ok? ==>
              && Position(Acknowledged(c, height).value) == height + 1
              && c.pending == [height] + Acknowledged(c, height).value.pending
  {
  }

  /** Without an end, a scheduler is complete only once `u64::MAX` is acknowledged. */
  lemma UnboundedIsCompleteIff(config: SchedulerConfig, plan: RangePlan, c: Cursor)
    requires config.endHeight.None?
    ensures Complete(config, plan, c) <==> Position(c) > U64_MAX
  {
  }

  /** Planning never moves the cursor, and hands out the front of what is then pending. */
  lemma {:induction false} PlanKeepsPending(config: SchedulerConfig, plan: RangePlan, c: Cursor,
                                            inFlight: u32, queued: u32, report: HeadReport)
    requires PendingIsNext(config, plan, c)
    ensures var (next, heights) := Planned(config, plan, c, inFlight, queued, report);
            && PendingIsNext(config, plan, next)
            && next.nextHeight == c.nextHeight && next.exhausted == c.exhausted
            && (heights.Ok? ==> heights.value <= next.pending)
  {
    var next := Planned(config, plan, c, inFlight, queued, report).0;
    if next != c {
      var budget := config.backpressure.ClampBatch(config.batchSize, inFlight, queued);
      BatchIsNext(config, plan, c, ReportedHead(config, report).value, budget);
    }
  }

  /** Acknowledging the front leaves the rest pending right after the new cursor. */
  lemma {:induction false} AcknowledgeKeepsPending(config: SchedulerConfig, plan: RangePlan, c: Cursor, height: u64)
    requires PendingIsNext(config, plan, c) && Acknowledged(c, height).Ok?
    ensures var next := Acknowledged(c, height).value;
            PendingIsNext(config, plan, next) && Position(next) == height + 1
  {
    assert |c.pending| > 1 ==> c.pending[1] == height + 1;
  }

  lemma {:induction false} OneMoreOpen(plan: RangePlan, start: u64, next: u64, height: u64)
    requires start <= next <= height && !plan.IsBypassed(height)
    requires forall h :: next <= h < height ==> plan.IsBypassed(h)
    ensures OpenHeights(plan, start, height) == OpenHeights(plan, start, next - 1) + [height]
  {
    OpenHeightsSplit(plan, start, next - 1, height);
    OpenHeightsSkip(plan, next, height, height);
    assert OpenHeights(plan, height + 1, height) == [];
    assert OpenHeights(plan, height, height) == [height];
  }

  lemma {:induction false} AcknowledgeKeepsInv(config: SchedulerConfig, plan: RangePlan, h: History, height: u64)
    requires Inv(config, plan, h)
    ensures Inv(config, plan, Step(config, plan, h, Acknowledge(height)))
  {
    var c := h.cursor;
    if Acknowledged(c, height).Ok? {
      OneMoreOpen(plan, config.startHeight, c.nextHeight, height);
      AcknowledgeKeepsPending(config, plan, c, height);
    }
  }

  lemma {:induction false} StepKeepsInv(config: SchedulerConfig, plan: RangePlan, h: History, e: Event)
    requires Inv(config, plan, h)
    ensures Inv(config, plan, Step(config, plan, h, e))
  {
    match e {
      case Plan(inFlight, queued, report) => PlanKeepsPending(config, plan, h.cursor, inFlight, queued, report);
      case Acknowledge(height) => AcknowledgeKeepsInv(config, plan, h, height);
      case Restart => assert h.acked != [] ==> config.startHeight <= Last(h.acked);
    }
  }

  lemma {:induction false} RunKeepsInv(config: SchedulerConfig, plan: RangePlan, events: seq<Event>)
    ensures Inv(config, plan, Run(config, plan, events))
  {
    if events == [] {
      assert OpenHeights(plan, config.startHeight, config.startHeight - 1) == [];
    } else {
      RunKeepsInv(config, plan, events[..|events| - 1]);
      StepKeepsInv(config, plan, Run(config, plan, events[..|events| - 1]), events[|events| - 1]);
    }
  }

  /**
   Whatever heads are reported, whatever is planned and re-planned, and whenever the process
   restarts: the acknowledged heights are, in order, exactly the open heights below the cursor,
   and no more heights are pending than the smallest configured limit.
   */
  lemma {:induction false} AcknowledgedIsInitialSegment(config: SchedulerConfig, plan: RangePlan, events: seq<Event>)
    ensures var h := Run(config, plan, events);
            && h.acked == OpenHeights(plan, config.startHeight, Position(h.cursor) - 1)
            && |h.cursor.pending| <= Min(config.batchSize,
                 Min(config.backpressure.maxInFlight, config.backpressure.queueCapacity))
  {
    RunKeepsInv(config, plan, events);
  }

  lemma {:induction false} NoOpenHeights(plan: RangePlan, low: nat, high: int)
    requires high <= U64_MAX && OpenHeights(plan, low, high) == []
    ensures forall h :: low <= h <= high ==> plan.IsBypassed(h)
    decreases high - low
  {
    if low > high {
    } else {
      NoOpenHeights(plan, low + 1, high);
    }
  }

  /** What is left to acknowledge of a bounded range. */
  lemma {:induction false} RemainderIsEmptyIffDone(config: SchedulerConfig, plan: RangePlan, h: History)
    requires Inv(config, plan, h) && config.endHeight.Some?
    ensures var end := config.endHeight.value;
            h.acked == OpenHeights(plan, config.startHeight, end) <==>
            forall x :: Position(h.cursor) <= x <= end ==> plan.IsBypassed(x)
  {
    var end: int, position: int := config.endHeight.value, Position(h.cursor);
    if config.startHeight <= end {
      OpenHeightsSplit(plan, config.startHeight, position - 1, end);
      var rest := OpenHeights(plan, position, end);
      assert h.acked == OpenHeights(plan, config.startHeight, end) <==> |rest| == 0;
      if |rest| == 0 {
        NoOpenHeights(plan, position, end);
      } else if forall x :: position <= x <= end ==> plan.IsBypassed(x) {
        BypassedRunIsEmpty(plan, position, end);
        assert false;
      }
    }
  }

  /**
   A bounded run is complete exactly when every open height up to its end has been acknowledged,
   `u64::MAX` included. The one exception is a zero batch size, which `is_complete` also calls
   complete; `run` refuses that configuration before asking.
   */
  lemma {:induction false} CompleteIffAllAcknowledged(config: SchedulerConfig, plan: RangePlan, events: seq<Event>)
    requires config.endHeight.Some?
    ensures var h := Run(config, plan, events);
            Complete(config, plan, h.cursor) <==>
              || h.acked == OpenHeights(plan, config.startHeight, config.endHeight.value)
              || config.batchSize == 0
  {
    RunKeepsInv(config, plan, events);
    var h := Run(config, plan, events);
    var c, end := h.cursor, config.endHeight.value;
    RemainderIsEmptyIffDone(config, plan, h);
    if c.pending != [] {
      assert Position(c) <= c.pending[0] <= end && !plan.IsBypassed(c.pending[0]);
    } else if !c.exhausted {
      BatchIsMaximal(plan, c.nextHeight, end, config.batchSize);
    }
  }

  /** The zero-batch exception is real: nothing acknowledged, yet complete. */
  lemma ZeroBatchLooksComplete()
    ensures var config := SchedulerConfig(0, Some(20), 0, false, Backpressure(8, 16));
            var h := Run(config, RangePlan([]), []);
            && Complete(config, RangePlan([]), h.cursor)
            && h.acked == []
            && 0 in OpenHeights(RangePlan([]), 0, 20)
  {
    var plan := RangePlan([]);
    assert OpenHeights(plan, 0, 20) == [0] + OpenHeights(plan, 1, 20);
  }

  /** The heights a report allows: up to the latest, no further than final unless so configured, nor past the end. */
  ghost predicate Allowed(config: SchedulerConfig, report: HeadReport, height: nat) {
    && report.latest.Some? && report.finalized.Some?
    && height <= report.latest.value
    && (config.indexUnfinalized || height <= report.finalized.value)
    && (config.endHeight.Some? ==> height <= config.endHeight.value)
  }

  /** The heights handed out are the next open ones in order, none bypassed and none skipped. */
  ghost predicate NextOpenRun(plan: RangePlan, from: nat, heights: seq<u64>) {
    && (forall i :: 0 <= i < |heights| ==> heights[i] == heights[0] + i && !plan.IsBypassed(heights[i]))
    && (heights != [] ==> from <= heights[0] && forall h :: from <= h < heights[0] ==> plan.IsBypassed(h))
  }

  ghost predicate AllAllowed(config: SchedulerConfig, report: HeadReport, heights: seq<u64>) {
    forall i :: 0 <= i < |heights| ==> Allowed(config, report, heights[i])
  }

  /** A fresh plan never reaches past the safe head or the end. */
  lemma {:induction false} FreshPlanIsAllowed(config: SchedulerConfig, plan: RangePlan, c: Cursor,
                                              inFlight: u32, queued: u32, report: HeadReport)
    requires c.pending == []
    ensures var (next, heights) := Planned(config, plan, c, inFlight, queued, report);
            AllAllowed(config, report, next.pending) && (heights.Ok? ==> heights.value == next.pending)
  {
    var (next, heights) := Planned(config, plan, c, inFlight, queued, report);
    if heights.Ok? && heights.value != [] {
      var budget := config.backpressure.ClampBatch(config.batchSize, inFlight, queued);
      var ceiling := Ceiling(ReportedHead(config, report).value, config.endHeight);
      BatchIsMaximal(plan, c.nextHeight, ceiling, budget);
      var range := BatchAt(plan, c.nextHeight, ceiling, budget).value;
      OpenRunIsWhole(plan, range.start, range.end);
    }
  }

  /** The ceiling a plan works under: the reported head, or the end when that is lower. */
  function PlanCeiling(config: SchedulerConfig, report: HeadReport): u64
    requires ReportedHead(config, report).Some?
  {
    Ceiling(ReportedHead(config, report).value, config.endHeight)
  }

  /**
   A plan is as large as it may be. A fresh one fills the budget, or reaches the ceiling, or stops
   at a bypassed height; one handed out again is as much of what is pending as the budget allows.
   */
  lemma {:induction false} PlanIsFull(config: SchedulerConfig, plan: RangePlan, c: Cursor,
                                      inFlight: u32, queued: u32, report: HeadReport)
    requires !Complete(config, plan, c)
    ensures var heights := Planned(config, plan, c, inFlight, queued, report).1;
            var budget := config.backpressure.ClampBatch(config.batchSize, inFlight, queued);
            && (c.pending == [] && heights.Ok? && heights.value != [] ==>
                  && ReportedHead(config, report).Some?
                  && (|| |heights.value| == budget
                      || Last(heights.value) == PlanCeiling(config, report)
                      || plan.IsBypassed(Last(heights.value) + 1)))
            && (c.pending != [] ==>
                  && heights.Ok? && heights.value <= c.pending
                  && |heights.value| == Min(budget, |c.pending|))
  {
    var heights := Planned(config, plan, c, inFlight, queued, report).1;
    if c.pending == [] && heights.Ok? && heights.value != [] {
      var budget := config.backpressure.ClampBatch(config.batchSize, inFlight, queued);
      var ceiling := PlanCeiling(config, report);
      BatchIsMaximal(plan, c.nextHeight, ceiling, budget);
      var range := BatchAt(plan, c.nextHeight, ceiling, budget).value;
      OpenRunIsWhole(plan, range.start, range.end);
    }
  }

  /**
   Nothing is handed out exactly when the scheduler is complete, the budget is used up, or every
   height from the cursor to the ceiling is bypassed; planning fails exactly when a head it has to
   ask for is not answered.
   */
  lemma {:induction false} PlanIsEmptyIff(config: SchedulerConfig, plan: RangePlan, c: Cursor,
                                          inFlight: u32, queued: u32, report: HeadReport)
    ensures var heights := Planned(config, plan, c, inFlight, queued, report).1;
            var budget := config.backpressure.ClampBatch(config.batchSize, inFlight, queued);
            var asks := !Complete(config, plan, c) && budget > 0 && c.pending == [];
            && (heights.Err? <==> asks && ReportedHead(config, report).None?)
            && (heights.Err? ==> heights == Err(AdapterFailed))
            && (heights == Ok([]) <==>
                  || Complete(config, plan, c) || budget == 0
                  || (asks && ReportedHead(config, report).Some? &&
                      forall h :: c.nextHeight <= h <= PlanCeiling(config, report) ==> plan.IsBypassed(h)))
  {
    var budget := config.backpressure.ClampBatch(config.batchSize, inFlight, queued);
    if budget > 0 && c.pending == [] && ReportedHead(config, report).Some? {
      var ceiling := PlanCeiling(config, report);
      BatchIsMaximal(plan, c.nextHeight, ceiling, budget);
      var batch := BatchAt(plan, c.nextHeight, ceiling, budget);
      if batch.Some? {
        OpenRunIsWhole(plan, batch.value.start, batch.value.end);
        assert !plan.IsBypassed(batch.value.start);
      }
    }
  }

  /**
   What is handed out is always the next open run, but heights already pending are handed out
   again without asking for the head. So it all lies under the head now reported exactly when
   nothing was pending, or that head has not fallen below the last pending height the budget reaches.
   */
  lemma {:induction false} PlanStaysUnderHeadsIff(config: SchedulerConfig, plan: RangePlan, c: Cursor,
                                                  inFlight: u32, queued: u32, report: HeadReport)
    requires PendingIsNext(config, plan, c)
    ensures var heights := Planned(config, plan, c, inFlight, queued, report).1;
            var budget := config.backpressure.ClampBatch(config.batchSize, inFlight, queued);
            heights.Ok? && heights.value != [] ==>
              && NextOpenRun(plan, c.nextHeight, heights.value)
              && (AllAllowed(config, report, heights.value) <==>
                  || c.pending == []
                  || (budget > 0 && ReportedHead(config, report).Some? &&
                      c.pending[Min(budget, |c.pending|) - 1] <= ReportedHead(config, report).value))
  {
    PlanKeepsPending(config, plan, c, inFlight, queued, report);
    var heights := Planned(config, plan, c, inFlight, queued, report).1;
    if heights.Ok? && heights.value != [] {
      if c.pending == [] {
        FreshPlanIsAllowed(config, plan, c, inFlight, queued, report);
      } else {
        assert heights.value <= c.pending;
        assert forall i :: 0 <= i < |heights.value| ==> heights.value[i] == c.pending[i];
      }
    }
  }

  /** A head that falls below what is pending does not take it back. */
  lemma PendingOutlivesFallingHead()
    ensures var config := SchedulerConfig(5, None, 1, false, Backpressure(1, 1));
            var plan := RangePlan([]);
            var c := Run(config, plan, [Plan(0, 0, HeadReport(Some(5), Some(5)))]).cursor;
            var fallen := HeadReport(Some(0), Some(0));
            Planned(config, plan, c, 0, 0, fallen).1 == Ok([5]) && !Allowed(config, fallen, 5)
  {
    var config := SchedulerConfig(5, None, 1, false, Backpressure(1, 1));
    var plan := RangePlan([]);
    var e := Plan(0, 0, HeadReport(Some(5), Some(5)));
    assert [e][..0] == [];
    assert Run(config, plan, []) == History(Fresh(config), []);
    assert BatchAt(plan, 5, 5, 1) == Some(Span(5, 5));
    assert OpenHeights(plan, 6, 5) == [] && plan.HeightsIn(Span(5, 5)) == [5];
    assert Run(config, plan, [e]).cursor == Cursor(5, false, [5]);
  }

  /** With nothing pending, the event asks for the head, which allows the height, and plans that height. */
  ghost predicate PlansAfresh(config: SchedulerConfig, plan: RangePlan, h: History, e: Event, height: u64) {
    && e.Plan? && h.cursor.pending == []
    && Allowed(config, e.report, height)
    && height in Step(config, plan, h, e).cursor.pending
  }

  /** Some plan of the run read a head that allows the height, and put the height among the pending ones. */
  ghost predicate WasPlanned(config: SchedulerConfig, plan: RangePlan, events: seq<Event>, height: u64) {
    exists k :: 0 <= k < |events| && PlansAfresh(config, plan, Run(config, plan, events[..k]), events[k], height)
  }

  ghost predicate AllWerePlanned(config: SchedulerConfig, plan: RangePlan, events: seq<Event>, heights: seq<u64>) {
    forall i :: 0 <= i < |heights| ==> WasPlanned(config, plan, events, heights[i])
  }

  lemma {:induction false} StillPlanned(config: SchedulerConfig, plan: RangePlan, events: seq<Event>, e: Event,
                                        height: u64)
    requires WasPlanned(config, plan, events, height)
    ensures WasPlanned(config, plan, events + [e], height)
  {
    var k :| 0 <= k < |events| && PlansAfresh(config, plan, Run(config, plan, events[..k]), events[k], height);
    assert (events + [e])[k] == events[k] && (events + [e])[..k] == events[..k];
  }

  lemma {:induction false} AllStillPlanned(config: SchedulerConfig, plan: RangePlan, events: seq<Event>, e: Event,
                                           heights: seq<u64>)
    requires AllWerePlanned(config, plan, events, heights)
    ensures AllWerePlanned(config, plan, events + [e], heights)
  {
    forall i | 0 <= i < |heights| ensures WasPlanned(config, plan, events + [e], heights[i]) {
      StillPlanned(config, plan, events, e, heights[i]);
    }
  }

  lemma {:induction false} FreshlyPlanned(config: SchedulerConfig, plan: RangePlan, events: seq<Event>, e: Event)
    requires e.Plan? && Run(config, plan, events).cursor.pending == []
    ensures AllWerePlanned(config, plan, events + [e], Step(config, plan, Run(config, plan, events), e).cursor.pending)
  {
    var h := Run(config, plan, events);
    var pending := Step(config, plan, h, e).cursor.pending;
    FreshPlanIsAllowed(config, plan, h.cursor, e.inFlight, e.queued, e.report);
    assert (events + [e])[|events|] == e && (events + [e])[..|events|] == events;
    forall i | 0 <= i < |pending| ensures WasPlanned(config, plan, events + [e], pending[i]) {
      assert PlansAfresh(config, plan, h, e, pending[i]);
    }
  }

  lemma {:induction false} StepKeepsPlanned(config: SchedulerConfig, plan: RangePlan, events: seq<Event>, e: Event)
    requires AllWerePlanned(config, plan, events, Run(config, plan, events).cursor.pending)
    requires AllWerePlanned(config, plan, events, Run(config, plan, events).acked)
    ensures var next := Step(config, plan, Run(config, plan, events), e);
            && AllWerePlanned(config, plan, events + [e], next.cursor.pending)
            && AllWerePlanned(config, plan, events + [e], next.acked)
  {
    var h := Run(config, plan, events);
    AllStillPlanned(config, plan, events, e, h.cursor.pending);
    AllStillPlanned(config, plan, events, e, h.acked);
    if e.Plan? && h.cursor.pending == [] {
      FreshlyPlanned(config, plan, events, e);
    }
  }

  /**
   Never past the safe head, over whole runs: every height pending or acknowledged was planned by
   an event of the run that read the heads and stayed under them, whatever is reported before or after.
   */
  lemma {:induction false} EveryHeightWasAllowed(config: SchedulerConfig, plan: RangePlan, events: seq<Event>)
    ensures var h := Run(config, plan, events);
            AllWerePlanned(config, plan, events, h.cursor.pending) && AllWerePlanned(config, plan, events, h.acked)
  {
    if events == [] {
    } else {
      var before, e := events[..|events| - 1], events[|events| - 1];
      EveryHeightWasAllowed(config, plan, before);
      StepKeepsPlanned(config, plan, before, e);
      assert events == before + [e];
    }
  }

  /** A cursor with something allowed ahead of it is given work that starts at its very next open height. */
  lemma {:induction false} CursorMakesProgress(config: SchedulerConfig, plan: RangePlan, c: Cursor, report: HeadReport)
    requires PendingIsNext(config, plan, c) && !Complete(config, plan, c)
    requires config.batchSize > 0
    requires config.backpressure.maxInFlight > 0 && config.backpressure.queueCapacity > 0
    requires report.latest.Some? && report.finalized.Some?
    requires exists h: nat :: Position(c) <= h && Allowed(config, report, h) && !plan.IsBypassed(h)
    ensures var work := Planned(config, plan, c, 0, 0, report).1;
            && work.Ok? && work.value != []
            && FirstOpen(plan, Position(c), U64_MAX) == Some(work.value[0])
  {
    if c.pending == [] {
      var ceiling := Ceiling(ReportedHead(config, report).value, config.endHeight);
      var budget := config.backpressure.ClampBatch(config.batchSize, 0, 0);
      assert forall h: nat :: Allowed(config, report, h) ==> h <= ceiling;
      BatchIsMaximal(plan, c.nextHeight, ceiling, budget);
      var range := BatchAt(plan, c.nextHeight, ceiling, budget).value;
      OpenRunIsWhole(plan, range.start, range.end);
      FirstOpenIs(plan, c.nextHeight, U64_MAX, range.start);
    } else {
      FirstOpenIs(plan, c.nextHeight, U64_MAX, c.pending[0]);
    }
  }

  /** A restart forgets what is pending, and neither loses nor repeats what is acknowledged. */
  lemma {:induction false} RestartKeepsPlace(config: SchedulerConfig, plan: RangePlan, events: seq<Event>)
    ensures var h := Run(config, plan, events);
            var restarted := Step(config, plan, h, Restart);
            && restarted.cursor.pending == [] && restarted.acked == h.acked
            && Position(restarted.cursor) == Position(h.cursor)
  {
    RunKeepsInv(config, plan, events);
  }

  /**
   Work gets done: planned under heads that allow anything, and acknowledged, the very next open
   height joins those acknowledged.
   */
  lemma {:induction false} NextHeightIsAcknowledged(config: SchedulerConfig, plan: RangePlan, events: seq<Event>,
                                                    report: HeadReport, height: u64)
    requires !Complete(config, plan, Run(config, plan, events).cursor)
    requires config.batchSize > 0
    requires config.backpressure.maxInFlight > 0 && config.backpressure.queueCapacity > 0
    requires Allowed(config, report, height)
    requires FirstOpen(plan, Position(Run(config, plan, events).cursor), U64_MAX) == Some(height)
    ensures var h := Run(config, plan, events);
            var next := Step(config, plan, Step(config, plan, h, Plan(0, 0, report)), Acknowledge(height));
            next.acked == h.acked + [height] && Position(next.cursor) == height + 1
  {
    RunKeepsInv(config, plan, events);
    var c := Run(config, plan, events).cursor;
    CursorMakesProgress(config, plan, c, report);
    PlanKeepsPending(config, plan, c, 0, 0, report);
  }

  /**
   Progress: an idle, incomplete scheduler with limits of at least one and an open height the
   report allows is given work, and that work starts at the very next open height.
   */
  lemma {:induction false} IdleSchedulerMakesProgress(config: SchedulerConfig, plan: RangePlan, events: seq<Event>,
                                                      report: HeadReport)
    requires !Complete(config, plan, Run(config, plan, events).cursor)
    requires config.batchSize > 0
    requires config.backpressure.maxInFlight > 0 && config.backpressure.queueCapacity > 0
    requires report.latest.Some? && report.finalized.Some?
    requires exists h: nat ::
               Position(Run(config, plan, events).cursor) <= h && Allowed(config, report, h) && !plan.IsBypassed(h)
    ensures var c := Run(config, plan, events).cursor;
            var work := Planned(config, plan, c, 0, 0, report).1;
            && work.Ok? && work.value != []
            && FirstOpen(plan, Position(c), U64_MAX) == Some(work.value[0])
  {
    RunKeepsInv(config, plan, events);
    CursorMakesProgress(config, plan, Run(config, plan, events).cursor, report);
  }
}
