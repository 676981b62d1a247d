/**
 From fetch planning to commit order (tests/integration/pipeline_ordering.rs): admission control,
 the range planner and the reorder buffer working together over any number of batches. Each
 request asks for what `clamp_batch` allows at the current occupancy and fetches on from where the
 last batch ended; blocks come back in any order, any number of times.
 */
module PipelineOrdering {
  import opened Prelude
  import opened RangePlanning
  import opened OrderedCommit
  import FetchBackpressure

  datatype Event =
    | Request(desired: u32, ceiling: Height)
    | Arrive(height: Height)

  /**
   Where the next batch starts, every height planned so far, which of them are still being fetched
   and which have come back, and the buffer with what it has released, in order.
   */
  datatype Pipe<T> = Pipe(
    next: u64,
    planned: seq<u64>,
    inFlight: set<u64>,
    arrived: set<u64>,
    buffer: Buffer<T>,
    log: seq<(u64, T)>)

  /** The fixed surroundings of a run; `value` is the block at each height. */
  datatype Setting<!T> = Setting(bp: FetchBackpressure.Backpressure, plan: RangePlan, start: u64, value: u64 -> T)

  /** The source's `as u32`. */
  function AsU32(n: nat): u32 {
    n % 0x1_0000_0000
  }

  ghost function Budget<T>(s: Setting<T>, p: Pipe<T>, desired: u32): u32 {
    s.bp.ClampBatch(desired, AsU32(|p.inFlight|), AsU32(|p.buffer.pending|))
  }

  ghost function SetOf(heights: seq<u64>): set<u64> {
    set h | h in heights
  }

  ghost function Requested<T>(s: Setting<T>, p: Pipe<T>, desired: u32, ceiling: Height): Pipe<T> {
    match BatchAt(s.plan, p.next, ceiling, Budget(s, p, desired))
    case None => p
    case Some(range) =>
      var heights := s.plan.HeightsIn(range);
      p.(next := range.end + 1, planned := p.planned + heights, inFlight := p.inFlight + SetOf(heights))
  }

  /** A height that was never asked for does not come back. */
  ghost function Arrived<T>(s: Setting<T>, p: Pipe<T>, height: Height): Pipe<T>
    requires Valid(p.buffer)
  {
    if height !in p.arrived + p.inFlight then p
    else
      var (after, released) := Completed(p.buffer, 0, height, s.value(height));
      p.(inFlight := p.inFlight - {height}, arrived := p.arrived + {height},
         buffer := after, log := p.log + released)
  }

  ghost function Step<T>(s: Setting<T>, p: Pipe<T>, e: Event): Pipe<T>
    requires Valid(p.buffer)
  {
    match e
    case Request(desired, ceiling) => Requested(s, p, desired, ceiling)
    case Arrive(height) => Arrived(s, p, height)
  }

  ghost function Started<T>(s: Setting<T>): Pipe<T> {
    Pipe(s.start, [], {}, {}, Buffer(s.start, map[], 0), [])
  }

  ghost function Run<T>(s: Setting<T>, events: seq<Event>): (p: Pipe<T>)
    ensures Valid(p.buffer)
  {
    if events == [] then Started(s)
    else Step(s, Run(s, events[..|events| - 1]), events[|events| - 1])
  }

  // ---------------------------------------------------------------- sets and plans

  lemma {:induction false} SetSize(heights: seq<u64>)
    ensures |SetOf(heights)| <= |heights|
  {
    if heights == [] {
      assert SetOf(heights) == {};
    } else {
      var front, last := heights[..|heights| - 1], heights[|heights| - 1];
      SetSize(front);
      assert heights == front + [last];
      assert SetOf(heights) == SetOf(front) + {last};
    }
  }

  lemma {:induction false} SmallerSet<X>(a: set<X>, b: set<X>)
    requires a <= b
    ensures |a| <= |b|
  {
    assert b == a + (b - a);
    assert |b| == |a| + |b - a|;
  }

  lemma {:induction false} OpenHeightsHold(plan: RangePlan, low: nat, high: int, height: u64)
    requires high <= U64_MAX
    ensures height in OpenHeights(plan, low, high) <==> low <= height <= high && !plan.IsBypassed(height)
    decreases high - low
  {
    if low > high {
    } else {
      OpenHeightsHold(plan, low + 1, high, height);
    }
  }

  /** The open heights from `start` up to, not including, `next`. */
  ghost function OpenSet(plan: RangePlan, start: u64, next: u64): set<u64> {
    set h: u64 | start <= h < next && !plan.IsBypassed(h)
  }

  /** A batch continues the plan without repeating it, and is no longer than was asked for. */
  lemma {:induction false} BatchContinuesPlan(plan: RangePlan, start: u64, next: u64, ceiling: u64, size: u32)
    requires start <= next && BatchAt(plan, next, ceiling, size).Some?
    ensures var range := BatchAt(plan, next, ceiling, size).value;
            var heights := plan.HeightsIn(range);
            && next <= range.end <= ceiling
            && OpenHeights(plan, start, range.end) == OpenHeights(plan, start, next - 1) + heights
            && |heights| <= size
            && heights == OpenHeights(plan, next, range.end)
  {
    var range := BatchAt(plan, next, ceiling, size).value;
    BatchIsMaximal(plan, next, ceiling, size);
    OpenRunIsWhole(plan, range.start, range.end);
    OpenHeightsSkip(plan, next, range.start, range.end);
    OpenHeightsSplit(plan, start, next - 1, range.end);
  }

  lemma {:induction false} OpenHeightsSet(plan: RangePlan, low: u64, high: u64)
    ensures forall h: u64 :: h in SetOf(OpenHeights(plan, low, high)) <==> low <= h <= high && !plan.IsBypassed(h)
  {
    forall h: u64 ensures h in SetOf(OpenHeights(plan, low, high)) <==> low <= h <= high && !plan.IsBypassed(h) {
      OpenHeightsHold(plan, low, high, h);
    }
  }

  // ---------------------------------------------------------------- what every step keeps

  ghost predicate WithinLimits(bp: FetchBackpressure.Backpressure, inFlight: nat, waiting: nat) {
    inFlight <= bp.maxInFlight && inFlight + waiting <= bp.queueCapacity
  }

  /** The buffer has released the unbroken run of what arrived, and holds the rest. */
  ghost predicate BufferHolds<T>(start: u64, arrived: set<u64>, value: u64 -> T, buffer: Buffer<T>,
                                 log: seq<(u64, T)>)
  {
    && (forall h :: h in arrived ==> h < U64_MAX)
    && FirstMissing(start, arrived) == buffer.nextExpected
    && buffer == Buffer(buffer.nextExpected, Waiting(arrived, buffer.nextExpected, value), 0)
    && log == Released(Graph(arrived, value), start, buffer.nextExpected)
  }

  /** The releases are blocks at consecutive heights from the start. */
  ghost predicate InOrder<T>(start: u64, value: u64 -> T, next: u64, log: seq<(u64, T)>) {
    && start + |log| == next
    && forall i :: 0 <= i < |log| ==> log[i] == (start + i, value(start + i))
  }

  /** What was asked for is the plan so far: the open heights below `next`, in flight or arrived. */
  ghost predicate PlanHolds(plan: RangePlan, start: u64, next: u64, planned: seq<u64>, arrived: set<u64>,
                            inFlight: set<u64>)
  {
    && start <= next
    && planned == OpenHeights(plan, start, next - 1)
    && arrived + inFlight == OpenSet(plan, start, next)
    && arrived !! inFlight
  }

  ghost predicate Inv<T>(s: Setting<T>, p: Pipe<T>) {
    && PlanHolds(s.plan, s.start, p.next, p.planned, p.arrived, p.inFlight)
    && BufferHolds(s.start, p.arrived, s.value, p.buffer, p.log)
    && WithinLimits(s.bp, |p.inFlight|, |p.buffer.pending|)
  }

  lemma {:induction false} RequestKeepsPlan(plan: RangePlan, start: u64, next: u64, planned: seq<u64>,
                                            arrived: set<u64>,
                                            inFlight: set<u64>, ceiling: Height, size: u32)
    requires PlanHolds(plan, start, next, planned, arrived, inFlight)
    requires BatchAt(plan, next, ceiling, size).Some?
    ensures var range := BatchAt(plan, next, ceiling, size).value;
            var heights := plan.HeightsIn(range);
            && range.end <= ceiling
            && |heights| <= size
            && PlanHolds(plan, start, range.end + 1, planned + heights, arrived, inFlight + SetOf(heights))
  {
    BatchContinuesPlan(plan, start, next, ceiling, size);
    var range := BatchAt(plan, next, ceiling, size).value;
    var more := SetOf(plan.HeightsIn(range));
    OpenHeightsSet(plan, next, range.end);
    assert forall h :: h in arrived ==> h in OpenSet(plan, start, next);
    assert arrived + (inFlight + more) == OpenSet(plan, start, range.end + 1) by {
      forall h: u64 ensures h in arrived + (inFlight + more) <==> h in OpenSet(plan, start, range.end + 1) {
        assert h in arrived + inFlight <==> h in OpenSet(plan, start, next);
      }
    }
  }

  /** Asking for no more than the clamp allows keeps both limits. */
  lemma {:induction false} RequestFits(bp: FetchBackpressure.Backpressure, inFlight: set<u64>, waiting: nat,
                                       desired: u32,
                                       heights: seq<u64>)
    requires WithinLimits(bp, |inFlight|, waiting)
    requires |heights| <= bp.ClampBatch(desired, AsU32(|inFlight|), AsU32(waiting))
    ensures WithinLimits(bp, |inFlight + SetOf(heights)|, waiting)
  {
    SetSize(heights);
    assert |inFlight + SetOf(heights)| <= |inFlight| + |SetOf(heights)|;
  }

  lemma {:induction false} RequestKeepsLimits<T>(s: Setting<T>, p: Pipe<T>, desired: u32, ceiling: Height)
    requires PlanHolds(s.plan, s.start, p.next, p.planned, p.arrived, p.inFlight)
    requires WithinLimits(s.bp, |p.inFlight|, |p.buffer.pending|)
    ensures var after := Requested(s, p, desired, ceiling);
            && PlanHolds(s.plan, s.start, after.next, after.planned, after.arrived, after.inFlight)
            && WithinLimits(s.bp, |after.inFlight|, |after.buffer.pending|)
            && after.arrived == p.arrived && after.buffer == p.buffer && after.log == p.log
  {
    var budget := Budget(s, p, desired);
    if BatchAt(s.plan, p.next, ceiling, budget).Some? {
      RequestKeepsPlan(s.plan, s.start, p.next, p.planned, p.arrived, p.inFlight, ceiling, budget);
      RequestFits(s.bp, p.inFlight, |p.buffer.pending|, desired,
                  s.plan.HeightsIn(BatchAt(s.plan, p.next, ceiling, budget).value));
    }
  }

  lemma {:induction false} RequestKeepsInv<T>(s: Setting<T>, p: Pipe<T>, desired: u32, ceiling: Height)
    requires Inv(s, p)
    ensures Inv(s, Requested(s, p, desired, ceiling))
  {
    RequestKeepsLimits(s, p, desired, ceiling);
  }

  /** What has arrived is released or held, and nothing else is held. */
  lemma {:induction false} HeldIsArrived<T>(start: u64, arrived: set<u64>, value: u64 -> T, buffer: Buffer<T>,
                                            log: seq<(u64, T)>)
    requires BufferHolds(start, arrived, value, buffer, log)
    ensures Valid(buffer)
    ensures start <= buffer.nextExpected && buffer.nextExpected !in arrived
    ensures forall h: u64 :: start <= h < buffer.nextExpected ==> h in arrived
    ensures buffer.pending.Keys == Above(arrived, buffer.nextExpected)
    ensures InOrder(start, value, buffer.nextExpected, log)
  {
  }

  lemma {:induction false} ArriveKeepsBuffer<T>(start: u64, arrived: set<u64>, value: u64 -> T, buffer: Buffer<T>,
                                                log: seq<(u64, T)>, height: Height)
    requires Valid(buffer) && BufferHolds(start, arrived, value, buffer, log)
    ensures var (after, released) := Completed(buffer, 0, height, value(height));
            && BufferHolds(start, arrived + {height}, value, after, log + released)
            && buffer.nextExpected <= after.nextExpected
  {
    OneMoreArrival(start, 0, arrived, height, value);
  }

  /** A block moves from flight to buffer: together they never grow. */
  lemma {:induction false} ArrivalFits(start: u64, arrived: set<u64>, inFlight: set<u64>, height: u64, next: nat,
                                       after: nat)
    requires arrived !! inFlight && height in arrived + inFlight && next <= after
    ensures |inFlight - {height}| + |Above(arrived + {height}, after)| <= |inFlight| + |Above(arrived, next)|
  {
    if height in inFlight {
      SmallerSet(Above(arrived + {height}, after), Above(arrived, next) + {height});
    } else {
      assert arrived + {height} == arrived && inFlight - {height} == inFlight;
      SmallerSet(Above(arrived, after), Above(arrived, next));
    }
  }

  lemma {:induction false} ArriveKeepsPlan(plan: RangePlan, start: u64, next: u64, planned: seq<u64>, arrived: set<u64>,
                                           inFlight: set<u64>, height: u64)
    requires PlanHolds(plan, start, next, planned, arrived, inFlight) && height in arrived + inFlight
    ensures PlanHolds(plan, start, next, planned, arrived + {height}, inFlight - {height})
  {
    assert arrived + {height} + (inFlight - {height}) == arrived + inFlight;
  }

  lemma {:induction false} ArriveKeepsInv<T>(s: Setting<T>, p: Pipe<T>, height: Height)
    requires Inv(s, p)
    ensures Inv(s, Arrived(s, p, height))
  {
    if height in p.arrived + p.inFlight {
      var (after, released) := Completed(p.buffer, 0, height, s.value(height));
      ArriveKeepsPlan(s.plan, s.start, p.next, p.planned, p.arrived, p.inFlight, height);
      ArriveKeepsBuffer(s.start, p.arrived, s.value, p.buffer, p.log, height);
      HeldIsArrived(s.start, p.arrived, s.value, p.buffer, p.log);
      HeldIsArrived(s.start, p.arrived + {height}, s.value, after, p.log + released);
      ArrivalFits(s.start, p.arrived, p.inFlight, height, p.buffer.nextExpected, after.nextExpected);
      assert |after.pending| == |after.pending.Keys| && |p.buffer.pending| == |p.buffer.pending.Keys|;
    }
  }

  lemma {:induction false} StartedInv<T>(s: Setting<T>)
    ensures Inv(s, Started(s))
  {
    FirstMissingIs(s.start, {}, s.start);
    assert OpenHeights(s.plan, s.start, s.start - 1) == [];
    assert OpenSet(s.plan, s.start, s.start) == {};
  }

  lemma {:induction false} RunKeepsInv<T>(s: Setting<T>, events: seq<Event>)
    ensures Inv(s, Run(s, events))
  {
    if events == [] {
      StartedInv(s);
    } else {
      var earlier, e := events[..|events| - 1], events[|events| - 1];
      RunKeepsInv(s, earlier);
      match e {
        case Request(desired, ceiling) => RequestKeepsInv(s, Run(s, earlier), desired, ceiling);
        case Arrive(height) => ArriveKeepsInv(s, Run(s, earlier), height);
      }
    }
  }

  // ---------------------------------------------------------------- every step takes effect

  lemma {:induction false} FirstOfBatch(plan: RangePlan, next: u64, ceiling: u64, size: u32)
    requires size > 0 && FirstOpen(plan, next, ceiling).Some?
    ensures var first, batch := FirstOpen(plan, next, ceiling).value, BatchAt(plan, next, ceiling, size);
            && batch.Some? && first <= batch.value.end <= ceiling
            && [first] <= plan.HeightsIn(batch.value) && first in SetOf(plan.HeightsIn(batch.value))
            && (|| |plan.HeightsIn(batch.value)| == size || batch.value.end == ceiling
                || plan.IsBypassed(batch.value.end + 1))
  {
    BatchIsMaximal(plan, next, ceiling, size);
    var range := BatchAt(plan, next, ceiling, size).value;
    OpenRunIsWhole(plan, range.start, range.end);
  }

  /** What a request does with a batch. */
  lemma {:induction false} RequestAdds<T>(s: Setting<T>, p: Pipe<T>, desired: u32, ceiling: Height)
    requires BatchAt(s.plan, p.next, ceiling, Budget(s, p, desired)).Some?
    ensures var range := BatchAt(s.plan, p.next, ceiling, Budget(s, p, desired)).value;
            var heights := s.plan.HeightsIn(range);
            && range.end <= ceiling
            && Requested(s, p, desired, ceiling) ==
                 p.(next := range.end + 1, planned := p.planned + heights, inFlight := p.inFlight + SetOf(heights))
  {
  }

  lemma BudgetIsClamp<T>(s: Setting<T>, p: Pipe<T>, desired: u32)
    requires desired > 0
    requires |p.inFlight| < s.bp.maxInFlight && |p.inFlight| + |p.buffer.pending| < s.bp.queueCapacity
    ensures Budget(s, p, desired) == s.bp.ClampBatch(desired, |p.inFlight|, |p.buffer.pending|) > 0
  {
  }

  /** With room left and an open height up to the ceiling, a request puts the first of them in flight. */
  lemma {:induction false} RequestTakesEffect<T>(s: Setting<T>, p: Pipe<T>, desired: u32, ceiling: Height)
    requires desired > 0
    requires |p.inFlight| < s.bp.maxInFlight && |p.inFlight| + |p.buffer.pending| < s.bp.queueCapacity
    requires FirstOpen(s.plan, p.next, ceiling).Some?
    ensures var first, after := FirstOpen(s.plan, p.next, ceiling).value, Requested(s, p, desired, ceiling);
            && first in after.inFlight && first < after.next
            && p.planned + [first] <= after.planned && p.inFlight <= after.inFlight
            && after.buffer == p.buffer && after.log == p.log
  {
    BudgetIsClamp(s, p, desired);
    FirstOfBatch(s.plan, p.next, ceiling, Budget(s, p, desired));
    RequestAdds(s, p, desired, ceiling);
  }

  /** And it goes on until the clamp, the ceiling or a bypassed height. */
  lemma {:induction false} RequestIsFull<T>(s: Setting<T>, p: Pipe<T>, desired: u32, ceiling: Height)
    requires desired > 0
    requires |p.inFlight| < s.bp.maxInFlight && |p.inFlight| + |p.buffer.pending| < s.bp.queueCapacity
    requires FirstOpen(s.plan, p.next, ceiling).Some?
    ensures var after := Requested(s, p, desired, ceiling);
            || |after.planned| - |p.planned| == s.bp.ClampBatch(desired, |p.inFlight|, |p.buffer.pending|)
            || after.next == ceiling + 1
            || s.plan.IsBypassed(after.next)
  {
    BudgetIsClamp(s, p, desired);
    FirstOfBatch(s.plan, p.next, ceiling, Budget(s, p, desired));
    RequestAdds(s, p, desired, ceiling);
  }

  /** A block that comes back is no longer in flight: it is released, or held with its value. */
  lemma {:induction false} ArrivalTakesEffect<T>(s: Setting<T>, p: Pipe<T>, height: Height)
    requires Inv(s, p) && height in p.inFlight
    ensures var after := Arrived(s, p, height);
            && after.inFlight == p.inFlight - {height} && after.next == p.next && after.planned == p.planned
            && p.log <= after.log
            && (height < after.buffer.nextExpected ||
                (height in after.buffer.pending && after.buffer.pending[height] == s.value(height)))
  {
    OnlyCurrentIsTakenUp(p.buffer, 0, height, s.value(height));
  }

  // ---------------------------------------------------------------- the promises

  /** Over every run, what is in flight and what waits in the buffer share the queue's capacity. */
  lemma {:induction false} PipelineStaysWithinCapacity<T>(s: Setting<T>, events: seq<Event>)
    ensures var p := Run(s, events);
            && |p.inFlight| <= s.bp.maxInFlight
            && |p.inFlight| + |p.buffer.pending| <= s.bp.queueCapacity
  {
    RunKeepsInv(s, events);
  }

  /** Every planned height is released, or waits above the expected one, or is in flight; only one of these. */
  ghost predicate Placed(plan: RangePlan, start: u64, upTo: u64, next: u64, waiting: set<u64>, inFlight: set<u64>) {
    && (forall h: u64 :: start <= h < upTo && !plan.IsBypassed(h) <==>
          (start <= h < next) || h in waiting || h in inFlight)
    && (forall h :: h in waiting ==> h > next && h !in inFlight)
    && (forall h :: h in inFlight ==> h >= next)
  }

  lemma {:induction false} PlacedFrom(plan: RangePlan, start: u64, upTo: u64, arrived: set<u64>, inFlight: set<u64>,
                                      next: u64)
    requires arrived !! inFlight && arrived + inFlight == OpenSet(plan, start, upTo)
    requires start <= next && next !in arrived && forall h: u64 :: start <= h < next ==> h in arrived
    ensures Placed(plan, start, upTo, next, Above(arrived, next), inFlight)
  {
    forall h: u64
      ensures start <= h < upTo && !plan.IsBypassed(h) <==>
              (start <= h < next) || h in Above(arrived, next) || h in inFlight
    {
      assert h in OpenSet(plan, start, upTo) <==> h in arrived || h in inFlight;
    }
    forall h | h in inFlight ensures h >= next {
      assert h in OpenSet(plan, start, upTo);
    }
  }

  /** What a run promises at every step: the plan, the releases, and where every planned height is. */
  ghost predicate Orderly<T>(s: Setting<T>, p: Pipe<T>) {
    && s.start <= p.next && s.start <= p.buffer.nextExpected
    && p.planned == OpenHeights(s.plan, s.start, p.next - 1)
    && InOrder(s.start, s.value, p.buffer.nextExpected, p.log)
    && Placed(s.plan, s.start, p.next, p.buffer.nextExpected, p.buffer.pending.Keys, p.inFlight)
  }

  lemma {:induction false} InvIsOrderly<T>(s: Setting<T>, p: Pipe<T>)
    requires Inv(s, p)
    ensures Orderly(s, p)
  {
    HeldIsArrived(s.start, p.arrived, s.value, p.buffer, p.log);
    PlacedFrom(s.plan, s.start, p.next, p.arrived, p.inFlight, p.buffer.nextExpected);
  }

  /**
   Over every run, the plan is the open heights from the start in order, and the releases of all
   batches together are the blocks at consecutive heights of it; each planned height is released,
   waiting or in flight, and only one of these.
   */
  lemma {:induction false} ReleasesArePlannedInOrder<T>(s: Setting<T>, events: seq<Event>)
    ensures Orderly(s, Run(s, events))
  {
    RunKeepsInv(s, events);
    InvIsOrderly(s, Run(s, events));
  }

  ghost function Heights<T>(log: seq<(u64, T)>): seq<u64> {
    seq(|log|, i requires 0 <= i < |log| => log[i].0)
  }

  /** No bypassed height lies below one that was planned. */
  ghost predicate NoGap(plan: RangePlan, start: u64, upTo: u64) {
    forall h: u64, q: u64 :: start <= h < q < upTo && !plan.IsBypassed(q) ==> !plan.IsBypassed(h)
  }

  /** Whatever waits, waits for a block in flight, or else for a height that no batch will ever hold. */
  lemma {:induction false} WaitsFor(plan: RangePlan, start: u64, upTo: u64, next: u64, waiting: set<u64>,
                                    inFlight: set<u64>)
    requires start <= next && Placed(plan, start, upTo, next, waiting, inFlight)
    ensures waiting != {} ==> next < upTo && (next in inFlight <==> !plan.IsBypassed(next))
  {
    if waiting != {} {
      var q :| q in waiting;
      assert start <= q < upTo && !plan.IsBypassed(q);
      assert next !in waiting;
    }
  }

  /** With everything planned below `next`, the plan lists exactly that run. */
  lemma {:induction false} PlanIsRun(plan: RangePlan, start: u64, upTo: u64, next: u64)
    requires start <= next && start <= upTo && Placed(plan, start, upTo, next, {}, {})
    ensures var planned := OpenHeights(plan, start, upTo - 1);
            |planned| == next - start && forall i :: 0 <= i < |planned| ==> planned[i] == start + i
  {
    assert next > start ==> !plan.IsBypassed(next - 1) && next - 1 < upTo;
    OpenHeightsSplit(plan, start, next - 1, upTo - 1);
    BypassedRunIsEmpty(plan, next, upTo - 1);
    if start < next {
      OpenRunIsWhole(plan, start, next - 1);
    } else {
      assert OpenHeights(plan, start, next - 1) == [];
    }
  }

  lemma {:induction false} DrainedIff(plan: RangePlan, start: u64, upTo: u64, next: u64, waiting: set<u64>)
    requires start <= next && Placed(plan, start, upTo, next, waiting, {})
    ensures waiting == {} <==> NoGap(plan, start, upTo)
  {
    WaitsFor(plan, start, upTo, next, waiting, {});
    if waiting != {} {
      var q :| q in waiting;
      assert start <= next < q < upTo && !plan.IsBypassed(q) && plan.IsBypassed(next);
    } else {
      forall h: u64, q: u64 | start <= h < q < upTo && !plan.IsBypassed(q) ensures !plan.IsBypassed(h) {
        assert q < next;
      }
    }
  }

  lemma {:induction false} OrderlyDrainedIff<T>(s: Setting<T>, p: Pipe<T>)
    requires Orderly(s, p) && p.inFlight == {}
    ensures p.buffer.pending == map[] <==> NoGap(s.plan, s.start, p.next)
    ensures Heights(p.log) == p.planned <==> NoGap(s.plan, s.start, p.next)
  {
    var waiting, next := p.buffer.pending.Keys, p.buffer.nextExpected;
    DrainedIff(s.plan, s.start, p.next, next, waiting);
    if waiting == {} {
      PlanIsRun(s.plan, s.start, p.next, next);
    } else {
      var q :| q in waiting;
      OpenHeightsHold(s.plan, s.start, p.next - 1, q);
      assert q in p.planned && q !in Heights(p.log);
    }
  }

  /**
   Once everything asked for has arrived, the releases are all planned heights in order, with
   nothing left waiting, exactly when no bypassed height lies below a planned one. The buffer
   expects every height in turn, so it waits for good at the first one that is bypassed.
   */
  lemma {:induction false} EverythingIsReleasedIff<T>(s: Setting<T>, events: seq<Event>)
    ensures var p := Run(s, events);
            p.inFlight == {} ==>
              && (p.buffer.pending == map[] <==> NoGap(s.plan, s.start, p.next))
              && (Heights(p.log) == p.planned <==> NoGap(s.plan, s.start, p.next))
  {
    ReleasesArePlannedInOrder(s, events);
    if Run(s, events).inFlight == {} {
      OrderlyDrainedIff(s, Run(s, events));
    }
  }

  /** The highest ceiling any request of a run may have. */
  ghost predicate CeilingsUpTo(events: seq<Event>, top: u64) {
    forall e :: e in events && e.Request? ==> e.ceiling <= top
  }

  lemma {:induction false} PlanStaysUnderCeilings<T>(s: Setting<T>, events: seq<Event>, top: u64)
    requires CeilingsUpTo(events, top)
    ensures Run(s, events).next <= Max(s.start, top + 1)
  {
    if events == [] {
    } else {
      var earlier, e := events[..|events| - 1], events[|events| - 1];
      PlanStaysUnderCeilings(s, earlier, top);
      assert e in events;
      if e.Request? {
        BatchIsMaximal(s.plan, Run(s, earlier).next, e.ceiling, Budget(s, Run(s, earlier), e.desired));
      }
    }
  }

  /**
   What can be checked before a run: if no bypassed height lies below an open one up to the highest
   ceiling, then whenever everything asked for has arrived, everything planned has been released.
   */
  lemma {:induction false} GapFreePlanIsReleased<T>(s: Setting<T>, events: seq<Event>, top: u64)
    requires top < U64_MAX && CeilingsUpTo(events, top) && NoGap(s.plan, s.start, Max(s.start, top + 1))
    ensures var p := Run(s, events);
            p.inFlight == {} ==> Heights(p.log) == p.planned && p.buffer.pending == map[]
  {
    PlanStaysUnderCeilings(s, events, top);
    EverythingIsReleasedIff(s, events);
  }

  /** Short of that, a buffer that waits always waits for a block in flight, or for a bypassed height. */
  lemma {:induction false} WaitsForFlightOrBypass<T>(s: Setting<T>, events: seq<Event>)
    ensures var p := Run(s, events);
            p.buffer.pending != map[] ==>
              (p.buffer.nextExpected in p.inFlight <==> !s.plan.IsBypassed(p.buffer.nextExpected))
  {
    ReleasesArePlannedInOrder(s, events);
    var p := Run(s, events);
    WaitsFor(s.plan, s.start, p.next, p.buffer.nextExpected, p.buffer.pending.Keys, p.inFlight);
  }

  /** A bypassed height does stall a buffer that outlives a batch: nothing in flight, and still waiting. */
  lemma BypassStallsBuffer()
    ensures var plan := RangePlan([Span(0, 0)]);
            var s := Setting(FetchBackpressure.Backpressure(8, 16), plan, 0, (h: u64) => h);
            var p := Run(s, [Request(1, 1), Arrive(1)]);
            p.planned == [1] && p.inFlight == {} && p.log == [] && 1 in p.buffer.pending
  {
    var plan := RangePlan([Span(0, 0)]);
    var s := Setting(FetchBackpressure.Backpressure(8, 16), plan, 0, (h: u64) => h);
    var events := [Request(1, 1), Arrive(1)];
    assert events[..1] == [Request(1, 1)] && events[..1][..0] == [];
    var asked := Requested(s, Started(s), 1, 1);
    assert Run(s, []) == Started(s);
    assert Run(s, events[..1]) == asked;
    assert plan.bypass[0].Contains(0);
    FirstOpenIs(plan, 0, 1, 1);
    assert BatchAt(plan, 0, 1, 1) == Some(Span(1, 1));
    assert OpenHeights(plan, 2, 1) == [];
    assert plan.HeightsIn(Span(1, 1)) == [1];
    assert SetOf([1]) == {1};
    FirstMissingIs(0, {1}, 0);
    assert asked.buffer.pending[1 := 1].Keys == {1};
  }
}
