/**
 Batch planning (crates/core/src/fetch/range.rs).

 `NextBatch` skips over arbitrary bypass spans by looping over the span list. It is
 proved equal to `BatchAt`, a reference that scans heights one at a time and never
 looks at a span's bounds; everything else is proved about that reference.
 */
module RangePlanning {
  import opened Prelude

  datatype Span = Span(start: u64, end: u64) {
    predicate Contains(height: int) { start <= height <= end }
  }

  /** Spans only come from `BlockRange::new`, which refuses `end < start`. */
  type BlockRange = s: Span | s.start <= s.end witness Span(0, 0)

  function NewRange(start: u64, end: u64): Option<BlockRange> {
    if start <= end then Some(Span(start, end)) else None
  }

  /** The first span in list order that covers `height`. */
  function FirstCovering(spans: seq<BlockRange>, height: int): (r: Option<BlockRange>)
    ensures r.Some? ==> r.value in spans && r.value.Contains(height)
    ensures r.None? ==> forall i :: 0 <= i < |spans| ==> !spans[i].Contains(height)
  {
    if spans == [] then None
    else if spans[0].Contains(height) then Some(spans[0])
    else FirstCovering(spans[1..], height)
  }

  /** How many spans still end at or above `height`: what each pass of the skip loop uses up. */
  ghost function Ahead(spans: seq<BlockRange>, height: int): nat {
    if spans == [] then 0
    else (if spans[0].end >= height then 1 else 0) + Ahead(spans[1..], height)
  }

  lemma {:induction false} AheadMonotone(spans: seq<BlockRange>, low: int, high: int)
    requires low <= high
    ensures Ahead(spans, high) <= Ahead(spans, low)
  {
    if spans == [] {
    } else {
      AheadMonotone(spans[1..], low, high);
    }
  }

  lemma {:induction false} AheadShrinks(spans: seq<BlockRange>, r: BlockRange, height: int)
    requires r in spans && r.Contains(height)
    ensures Ahead(spans, r.end + 1) < Ahead(spans, height)
  {
    if spans[0] == r {
      AheadMonotone(spans[1..], height, r.end + 1);
    } else {
      AheadShrinks(spans[1..], r, height);
    }
  }

  lemma {:induction false} AheadBounded(spans: seq<BlockRange>, height: int)
    ensures Ahead(spans, height) <= |spans|
  {
    if spans == [] {
    } else {
      AheadBounded(spans[1..], height);
    }
  }

  /** `min` of `r.start - 1` over the spans opening inside `(start, spanEnd]`, else `spanEnd`. */
  function CutBefore(spans: seq<BlockRange>, start: u64, spanEnd: u64): (e: u64)
    requires start <= spanEnd
    ensures start <= e <= spanEnd
    ensures forall i :: 0 <= i < |spans| && start < spans[i].start <= spanEnd ==> e < spans[i].start
    ensures e < spanEnd ==> exists i :: 0 <= i < |spans| && spans[i].start == e + 1
  {
    if spans == [] then spanEnd
    else
      var rest := CutBefore(spans[1..], start, spanEnd);
      if start < spans[0].start <= spanEnd && spans[0].start - 1 < rest then
        assert spans[0].start == spans[0].start - 1 + 1;
        spans[0].start - 1
      else
        assert rest < spanEnd ==> exists i :: 0 <= i < |spans| && spans[i].start == rest + 1 by {
          if rest < spanEnd {
            var i :| 0 <= i < |spans[1..]| && spans[1..][i].start == rest + 1;
            assert spans[i + 1].start == rest + 1;
          }
        }
        rest
  }

  datatype RangePlan = RangePlan(bypass: seq<BlockRange>) {
    predicate IsBypassed(height: int) {
      exists i :: 0 <= i < |bypass| && bypass[i].Contains(height)
    }

    /** The builder: an inverted span is ignored. */
    function Bypass(start: u64, end: u64): RangePlan {
      match NewRange(start, end)
      case Some(r) => RangePlan(bypass + [r])
      case None => this
    }

    /** Moves forward past covering spans, in at most `len + 1` passes over the list. */
    method AdvancePastBypass(from: u64, ceiling: u64) returns (r: Option<u64>)
      ensures r == FirstOpen(this, from, ceiling)
    {
      var height := from;
      AheadBounded(bypass, height);
      for pass := 0 to |bypass| + 1
        invariant from <= height <= U64_MAX
        invariant Ahead(bypass, height) + pass <= |bypass|
        invariant forall h :: from <= h < height ==> IsBypassed(h)
      {
        match FirstCovering(bypass, height) {
          case Some(span) =>
            AheadShrinks(bypass, span, height);
            assert forall h :: height <= h <= span.end ==> span.Contains(h);
            if span.end == U64_MAX {
              return None;
            }
            height := span.end + 1;
          case None =>
            FirstOpenIs(this, from, ceiling, height);
            return if height <= ceiling then Some(height) else None;
        }
      }
      assert false;
    }

    /** The next batch to fetch, or `None` when nothing is left below the ceiling. */
    method NextBatch(nextHeight: u64, safeHead: u64, batchSize: u32, endHeight: Option<u64>)
      returns (r: Option<BlockRange>)
      ensures r == BatchAt(this, nextHeight, Ceiling(safeHead, endHeight), batchSize)
    {
      var ceiling := Ceiling(safeHead, endHeight);
      if batchSize == 0 || nextHeight > ceiling {
        return None;
      }
      var first := AdvancePastBypass(nextHeight, ceiling);
      if first.None? {
        return None;
      }
      var start := first.value;
      var spanEnd := Min(SatAdd(start, batchSize - 1, U64_MAX), ceiling);
      var end := CutBefore(bypass, start, spanEnd);
      CutIsRunEnd(this, start, spanEnd);
      r := NewRange(start, end);
    }

    /** The heights of a batch that are worth fetching. */
    function HeightsIn(range: BlockRange): seq<u64> {
      OpenHeights(this, range.start, range.end)
    }
  }

  function Ceiling(safeHead: u64, endHeight: Option<u64>): u64 {
    match endHeight
    case Some(end) => Min(safeHead, end)
    case None => safeHead
  }

  /** How far it is safe to index: the head, or the finalized height when that is required. */
  function SafeHead(latest: u64, finalized: u64, unfinalized: bool): u64 {
    if unfinalized then latest else Min(finalized, latest)
  }

  // ---------------------------------------------------------------- the reference

  /** The least height in `[from, ceiling]` that no span covers, found by looking at each in turn. */
  ghost function FirstOpen(plan: RangePlan, from: nat, ceiling: u64): (r: Option<u64>)
    ensures r.Some? ==> from <= r.value <= ceiling && !plan.IsBypassed(r.value)
    ensures r.Some? ==> forall h :: from <= h < r.value ==> plan.IsBypassed(h)
    ensures r.None? ==> forall h :: from <= h <= ceiling ==> plan.IsBypassed(h)
    decreases ceiling - from
  {
    if from > ceiling then None
    else if plan.IsBypassed(from) then FirstOpen(plan, from + 1, ceiling)
    else Some(from)
  }

  lemma FirstOpenIs(plan: RangePlan, from: nat, ceiling: u64, height: u64)
    requires from <= height && !plan.IsBypassed(height)
    requires forall h :: from <= h < height ==> plan.IsBypassed(h)
    ensures FirstOpen(plan, from, ceiling) == if height <= ceiling then Some(height) else None
  {
  }

  /** The last height of the unbroken run of open heights that begins at `start`. */
  ghost function RunEnd(plan: RangePlan, start: u64, limit: u64): (e: u64)
    requires start <= limit && !plan.IsBypassed(start)
    ensures start <= e <= limit
    ensures forall h :: start <= h <= e ==> !plan.IsBypassed(h)
    ensures e < limit ==> plan.IsBypassed(e + 1)
    decreases limit - start
  {
    if start == limit || plan.IsBypassed(start + 1) then start else RunEnd(plan, start + 1, limit)
  }

  ghost function BatchAt(plan: RangePlan, next: u64, ceiling: u64, size: u32): Option<BlockRange> {
    if size == 0 then None
    else
      match FirstOpen(plan, next, ceiling)
      case None => None
      case Some(start) => Some(Span(start, RunEnd(plan, start, Min(start + size - 1, ceiling))))
  }

  /** Every open height in `[low, high]`, ascending. */
  function OpenHeights(plan: RangePlan, low: nat, high: int): (hs: seq<u64>)
    requires high <= U64_MAX
    decreases high - low
  {
    if low > high then []
    else (if plan.IsBypassed(low) then [] else [low]) + OpenHeights(plan, low + 1, high)
  }

  /** Cutting the batch before the nearest span start is cutting it at the end of the open run. */
  lemma CutIsRunEnd(plan: RangePlan, start: u64, spanEnd: u64)
    requires start <= spanEnd && !plan.IsBypassed(start)
    ensures CutBefore(plan.bypass, start, spanEnd) == RunEnd(plan, start, spanEnd)
  {
    var e := CutBefore(plan.bypass, start, spanEnd);
    forall h | start <= h <= e ensures !plan.IsBypassed(h) {
      assert forall i :: 0 <= i < |plan.bypass| ==> !plan.bypass[i].Contains(start);
    }
    if e < spanEnd {
      var i :| 0 <= i < |plan.bypass| && plan.bypass[i].start == e + 1;
      assert plan.bypass[i].Contains(e + 1);
    }
    var other := RunEnd(plan, start, spanEnd);
    assert other < e ==> !plan.IsBypassed(other + 1);
    assert e < other ==> !plan.IsBypassed(e + 1);
  }

  // ---------------------------------------------------------------- what is promised

  /**
   `None` means exactly that there is nothing to do; otherwise the batch holds only open
   heights, begins at the first one, respects the size, and could not be one height longer.
   */
  lemma {:induction false} BatchIsMaximal(plan: RangePlan, next: u64, ceiling: u64, size: u32)
    ensures BatchAt(plan, next, ceiling, size).None? <==>
            size == 0 || forall h :: next <= h <= ceiling ==> plan.IsBypassed(h)
    ensures var b := BatchAt(plan, next, ceiling, size);
            b.Some? ==>
              && next <= b.value.start <= b.value.end <= ceiling
              && b.value.end - b.value.start < size
              && (forall h :: next <= h < b.value.start ==> plan.IsBypassed(h))
              && (forall h :: b.value.start <= h <= b.value.end ==> !plan.IsBypassed(h))
              && (|| b.value.end == ceiling
                  || b.value.end - b.value.start + 1 == size
                  || plan.IsBypassed(b.value.end + 1))
  {
    if size > 0 && FirstOpen(plan, next, ceiling).Some? {
      var start := FirstOpen(plan, next, ceiling).value;
      assert !plan.IsBypassed(start) && next <= start <= ceiling;
    }
  }

  /** A span added to a plan bypasses its own heights besides, and an inverted one nothing. */
  lemma {:induction false} BypassAdds(plan: RangePlan, start: u64, end: u64, height: int)
    ensures plan.Bypass(start, end).IsBypassed(height) <==> plan.IsBypassed(height) || start <= height <= end
  {
    var more := plan.Bypass(start, end);
    if start <= end {
      assert more.bypass[|plan.bypass|].Contains(height) <==> start <= height <= end;
      forall i | 0 <= i < |plan.bypass| ensures more.bypass[i] == plan.bypass[i] {
      }
    }
  }

  /** On an unbroken run the filter keeps everything. */
  lemma {:induction false} OpenRunIsWhole(plan: RangePlan, low: u64, high: u64)
    requires low <= high + 1
    requires forall h :: low <= h <= high ==> !plan.IsBypassed(h)
    ensures var hs := OpenHeights(plan, low, high);
            |hs| == high + 1 - low && forall i :: 0 <= i < |hs| ==> hs[i] == low + i
    decreases high - low
  {
    if low < high {
      OpenRunIsWhole(plan, low + 1, high);
    } else if low == high {
      assert OpenHeights(plan, low + 1, high) == [];
    }
  }

  lemma {:induction false} BypassedRunIsEmpty(plan: RangePlan, low: nat, high: int)
    requires high <= U64_MAX
    requires forall h :: low <= h <= high ==> plan.IsBypassed(h)
    ensures OpenHeights(plan, low, high) == []
    decreases high - low
  {
    if low > high {
    } else {
      BypassedRunIsEmpty(plan, low + 1, high);
    }
  }

  lemma {:induction false} OpenHeightsSplit(plan: RangePlan, low: nat, mid: int, high: int)
    requires low - 1 <= mid <= high <= U64_MAX
    ensures OpenHeights(plan, low, high) == OpenHeights(plan, low, mid) + OpenHeights(plan, mid + 1, high)
    decreases mid - low
  {
    if low > mid {
    } else {
      OpenHeightsSplit(plan, low + 1, mid, high);
    }
  }

  /** Bypassed heights in front contribute nothing. */
  lemma {:induction false} OpenHeightsSkip(plan: RangePlan, low: nat, mid: nat, high: int)
    requires low <= mid <= high + 1 && high <= U64_MAX
    requires forall h :: low <= h < mid ==> plan.IsBypassed(h)
    ensures OpenHeights(plan, low, high) == OpenHeights(plan, mid, high)
  {
    BypassedRunIsEmpty(plan, low, mid - 1);
    OpenHeightsSplit(plan, low, mid - 1, high);
  }

  lemma {:induction false} NoBatchIsEmpty(plan: RangePlan, next: u64, ceiling: u64, size: u32)
    requires size > 0 && BatchAt(plan, next, ceiling, size).None?
    ensures OpenHeights(plan, next, ceiling) == []
  {
    BypassedRunIsEmpty(plan, next, ceiling);
  }

  /** A batch is the front of what is left. */
  lemma {:induction false} BatchIsFront(plan: RangePlan, next: u64, ceiling: u64, size: u32)
    requires BatchAt(plan, next, ceiling, size).Some?
    ensures var range := BatchAt(plan, next, ceiling, size).value;
            && next <= range.end <= ceiling
            && OpenHeights(plan, next, ceiling) == plan.HeightsIn(range) + OpenHeights(plan, range.end + 1, ceiling)
  {
    var range := BatchAt(plan, next, ceiling, size).value;
    OpenHeightsSkip(plan, next, range.start, ceiling);
    OpenHeightsSplit(plan, range.start, range.end, ceiling);
  }

  /** All the heights one gets by fetching batch after batch, each starting where the last ended. */
  ghost function AllBatches(plan: RangePlan, from: nat, ceiling: u64, size: u32): seq<u64>
    requires size > 0
    decreases ceiling - from
  {
    if from > ceiling then []
    else
      match BatchAt(plan, from, ceiling, size)
      case None => []
      case Some(range) => plan.HeightsIn(range) + AllBatches(plan, range.end + 1, ceiling, size)
  }

  /**
   Whatever the batch size and however spans overlap, touch or are ordered, the batches
   together are exactly the ascending open heights. The left side mentions the size and the
   batch boundaries; the right side mentions neither.
   */
  lemma {:induction false} BatchesEnumerateOpenHeights(plan: RangePlan, from: nat, ceiling: u64, size: u32)
    requires size > 0
    ensures AllBatches(plan, from, ceiling, size) == OpenHeights(plan, from, ceiling)
    decreases ceiling - from
  {
    if from > ceiling {
    } else {
      var batch := BatchAt(plan, from, ceiling, size);
      if batch.None? {
        NoBatchIsEmpty(plan, from, ceiling, size);
      } else {
        BatchIsFront(plan, from, ceiling, size);
        BatchesEnumerateOpenHeights(plan, batch.value.end + 1, ceiling, size);
      }
    }
  }
}
