/** Admission control for the fetch loop (crates/core/src/fetch/backpressure.rs). */
module FetchBackpressure {
  import opened Prelude

  datatype Backpressure = Backpressure(maxInFlight: u32, queueCapacity: u32) {
    static function New(maxInFlight: u32, queueCapacity: u32): Backpressure {
      Backpressure(Max(maxInFlight, 1), Max(queueCapacity, 1))
    }

    /** How many more blocks may be requested; in-flight and queued blocks share the queue budget. */
    function Available(inFlight: u32, queued: u32): u32 {
      var byFlight := SatSub(maxInFlight, inFlight);
      var byQueue := SatSub(queueCapacity, SatAdd(queued, inFlight, U32_MAX));
      Min(byFlight, byQueue)
    }

    predicate ShouldPause(inFlight: u32, queued: u32) {
      Available(inFlight, queued) == 0
    }

    function ClampBatch(desired: u32, inFlight: u32, queued: u32): u32 {
      Min(desired, Available(inFlight, queued))
    }
  }

  /** Saturation never changes an answer, and pausing means exactly that a limit is reached. */
  lemma SaturationIsExact(bp: Backpressure, inFlight: u32, queued: u32)
    ensures bp.Available(inFlight, queued) ==
            Max(0, Min(bp.maxInFlight - inFlight, bp.queueCapacity - (inFlight + queued)))
    ensures bp.ShouldPause(inFlight, queued) <==>
            inFlight >= bp.maxInFlight || inFlight + queued >= bp.queueCapacity
  {
  }

  /** A clamped batch is as large as it may be: all that is desired, or all that is available. */
  lemma ClampIsLargest(bp: Backpressure, desired: u32, inFlight: u32, queued: u32)
    ensures var size := bp.ClampBatch(desired, inFlight, queued);
            && size <= desired && size <= bp.Available(inFlight, queued)
            && (size == desired || size == bp.Available(inFlight, queued))
  {
  }

  /** Limits are taken as configured, but never below one. */
  lemma LimitsAreKept(maxInFlight: u32, queueCapacity: u32)
    ensures var bp := Backpressure.New(maxInFlight, queueCapacity);
            && bp.maxInFlight >= 1 && (maxInFlight >= 1 ==> bp.maxInFlight == maxInFlight)
            && bp.queueCapacity >= 1 && (queueCapacity >= 1 ==> bp.queueCapacity == queueCapacity)
            && (maxInFlight == 0 ==> bp.maxInFlight == 1) && (queueCapacity == 0 ==> bp.queueCapacity == 1)
  {
  }

  /** Where every block asked for so far has got to. */
  datatype Pipeline = Pipeline(inFlight: u32, queued: u32, failed: nat, committed: nat)

  datatype Event =
    | Request(desired: u32)  // ask for as many as ClampBatch allows right now
    | Arrive                 // an in-flight fetch completes
    | Fail                   // an in-flight fetch is abandoned
    | Commit                 // a queued block is committed

  ghost predicate WithinLimits(bp: Backpressure, p: Pipeline) {
    p.inFlight <= bp.maxInFlight && p.inFlight + p.queued <= bp.queueCapacity
  }

  /** Blocks requested by one event. */
  function Asked(bp: Backpressure, p: Pipeline, e: Event): nat {
    if e.Request? then bp.ClampBatch(e.desired, p.inFlight, p.queued) else 0
  }

  ghost function Step(bp: Backpressure, p: Pipeline, e: Event): Pipeline
    requires WithinLimits(bp, p)
  {
    match e
    case Request(_) => p.(inFlight := p.inFlight + Asked(bp, p, e))
    case Arrive => if p.inFlight == 0 then p else p.(inFlight := p.inFlight - 1, queued := p.queued + 1)
    case Fail => if p.inFlight == 0 then p else p.(inFlight := p.inFlight - 1, failed := p.failed + 1)
    case Commit => if p.queued == 0 then p else p.(queued := p.queued - 1, committed := p.committed + 1)
  }

  /** A block asked for, fetched and committed passes through every stage. */
  lemma BlocksPassThrough(bp: Backpressure, p: Pipeline)
    requires WithinLimits(bp, p) && !bp.ShouldPause(p.inFlight, p.queued)
    ensures var asked := Step(bp, p, Request(1));
            var arrived := Step(bp, asked, Arrive);
            && asked == p.(inFlight := p.inFlight + 1)
            && arrived == p.(queued := p.queued + 1)
            && Step(bp, arrived, Commit) == p.(committed := p.committed + 1)
            && Step(bp, asked, Fail) == p.(failed := p.failed + 1)
  {
  }

  /** Runs the events, returning the final pipeline and the number of blocks asked for. */
  ghost function Run(bp: Backpressure, p: Pipeline, events: seq<Event>): (r: (Pipeline, nat))
    requires WithinLimits(bp, p)
    ensures WithinLimits(bp, r.0)
    ensures r.1 == (r.0.inFlight + r.0.queued + r.0.failed + r.0.committed)
                   - (p.inFlight + p.queued + p.failed + p.committed)
    decreases |events|
  {
    if events == [] then (p, 0)
    else
      var (last, asked) := Run(bp, Step(bp, p, events[0]), events[1..]);
      (last, asked + Asked(bp, p, events[0]))
  }

  /**
   From an idle pipeline, every run stays inside both limits and loses no block; and an idle
   pipeline built through `New` can always ask for at least one.
   */
  lemma {:induction false} RunsStayWithinLimits(bp: Backpressure, events: seq<Event>)
    ensures var (p, asked) := Run(bp, Pipeline(0, 0, 0, 0), events);
            && p.inFlight <= bp.maxInFlight
            && p.inFlight + p.queued <= bp.queueCapacity
            && asked == p.inFlight + p.queued + p.failed + p.committed
    ensures forall a: u32, b: u32, desired: u32 :: desired > 0 ==>
              Backpressure.New(a, b).ClampBatch(desired, 0, 0) > 0
  {
    var idle := Pipeline(0, 0, 0, 0);
    assert WithinLimits(bp, idle);
    var (p, asked) := Run(bp, idle, events);
    assert asked == (p.inFlight + p.queued + p.failed + p.committed)
                    - (idle.inFlight + idle.queued + idle.failed + idle.committed);
  }
}
