/**
 Finality and the fork check (crates/core/src/finality/tracker.rs). `Check` walks down from the
 tip and stops at the first agreeing height; it is proved to decide as if it had compared the
 whole search window.
 */
module FinalityTracking {
  import opened Prelude
  import opened Chain
  import opened Checkpoints
  import opened Reorg

  /** What the chain says about one height. */
  datatype Answer =
    | Found(hash: string)
    | Missing    // a non-retryable failure: the endpoint cannot serve this height
    | Retryable  // a transport failure or rate limit

  datatype CheckError = Store(error: StoreError) | Unreachable

  function Compared(header: StoredHeader, answer: Answer): HeightComparison {
    HeightComparison(header.height, header.hash, if answer.Found? then Some(answer.hash) else None)
  }

  /** Every row of the window against its answer, with no early stop. */
  ghost function WholeWindow(stored: seq<StoredHeader>, headerAt: u64 -> Answer): seq<HeightComparison> {
    seq(|stored|, i requires 0 <= i < |stored| => Compared(stored[i], headerAt(stored[i].height)))
  }

  /** The walk up to a match decides as the whole window does. */
  lemma FirstMatchDecides(window: seq<HeightComparison>, i: nat)
    requires i < |window| && window[i].Matches()
    ensures FindCommonAncestor(window[..i + 1]) == FindCommonAncestor(window)
  {
    TailIsIrrelevant(window[..i + 1], window[i + 1..]);
    assert window == window[..i + 1] + window[i + 1..];
  }

  /** The whole window's verdict, or a failure at a retryable answer with no agreement above it. */
  ghost predicate Decides(stored: seq<StoredHeader>, headerAt: u64 -> Answer, r: Result<ReorgDecision, CheckError>) {
    var window := WholeWindow(stored, headerAt);
    && (r.Err? <==> exists i :: 0 <= i < |stored| && headerAt(stored[i].height).Retryable?
                                && forall j :: 0 <= j < i ==> !window[j].Matches())
    && (r.Ok? ==> r.value == FindCommonAncestor(window))
  }

  class FinalityTracker {
    const checkpoints: CheckpointStore
    const searchDepth: u64
    var finalizedHeight: u64

    constructor (checkpoints: CheckpointStore, searchDepth: u64)
      ensures this.checkpoints == checkpoints
      ensures this.searchDepth == Max(searchDepth, 1) && finalizedHeight == 0
    {
      this.checkpoints := checkpoints;
      this.searchDepth := Max(searchDepth, 1);
      finalizedHeight := 0;
    }

    /** Finality only moves forward: a lower reading, or none, leaves it where it was. */
    method Refresh(reported: Option<u64>) returns (r: Option<u64>)
      modifies this`finalizedHeight
      ensures finalizedHeight >= old(finalizedHeight)
      ensures reported.Some? ==>
                && finalizedHeight >= reported.value
                && finalizedHeight in {old(finalizedHeight), reported.value}
                && r == Some(finalizedHeight)
      ensures reported.None? ==> r == None && finalizedHeight == old(finalizedHeight)
    {
      if reported.None? {
        return None;
      }
      finalizedHeight := Max(finalizedHeight, reported.value);
      return Some(finalizedHeight);
    }

    /**
     The verdict equals the whole window's. It fails only where the walk itself is cut off: by a
     height PostgreSQL cannot hold, or by a retryable answer with no agreement above it.
     */
    method Check(tip: BlockPtr, headerAt: u64 -> Answer) returns (r: Result<ReorgDecision, CheckError>)
      requires checkpoints.Valid()
      ensures tip.height > I64_MAX <==> r == Err(Store(HeightExceedsBigint))
      ensures tip.height <= I64_MAX ==>
                Decides(Descending(checkpoints.blocks, tip.height, SatSub(tip.height, searchDepth)), headerAt, r)
    {
      var floor := SatSub(tip.height, searchDepth);
      var rows := checkpoints.HeadersDescending(tip.height, floor);
      if rows.Err? {
        return Err(Store(rows.error));
      }
      r := WalkDown(rows.value, headerAt);
    }

    /** The loop of the check: from the highest row down, to the first that agrees. */
    method WalkDown(stored: seq<StoredHeader>, headerAt: u64 -> Answer) returns (r: Result<ReorgDecision, CheckError>)
      ensures Decides(stored, headerAt, r) && (r.Err? ==> r == Err(Unreachable))
    {
      ghost var window := WholeWindow(stored, headerAt);
      var comparisons: seq<HeightComparison> := [];
      for i := 0 to |stored|
        invariant comparisons == window[..i]
        invariant forall j :: 0 <= j < i ==> !window[j].Matches() && !headerAt(stored[j].height).Retryable?
      {
        var answer := headerAt(stored[i].height);
        if answer.Retryable? {
          return Err(Unreachable);
        }
        var comparison := Compared(stored[i], answer);
        comparisons := comparisons + [comparison];
        if comparison.Matches() {
          FirstMatchDecides(window, i);
          return Ok(FindCommonAncestor(comparisons));
        }
      }
      assert comparisons == window;
      return Ok(FindCommonAncestor(comparisons));
    }
  }

  // ---------------------------------------------------------------- what the verdict means

  /** The stored row at a height is the one the chain reports now. */
  ghost predicate Agrees(blocks: Blocks, headerAt: u64 -> Answer, height: u64) {
    height in blocks && headerAt(height) == Found(blocks[height].hash)
  }

  ghost function Verdict(blocks: Blocks, top: u64, floor: u64, headerAt: u64 -> Answer): ReorgDecision {
    FindCommonAncestor(WholeWindow(Descending(blocks, top, floor), headerAt))
  }

  /** The window is empty, or its highest row agrees. */
  ghost predicate IsCanonical(blocks: Blocks, top: u64, floor: u64, headerAt: u64 -> Answer) {
    forall h :: h in StoredIn(blocks, floor, top) && StoredIn(blocks, h + 1, top) == {} ==> Agrees(blocks, headerAt, h)
  }

  /** The ancestor is the highest agreeing row of the window and the depth counts what is above it. */
  ghost predicate IsForkPoint(blocks: Blocks, top: u64, floor: u64, headerAt: u64 -> Answer, ancestor: BlockPtr,
                              depth: nat)
  {
    && ancestor.height in StoredIn(blocks, floor, top)
    && ancestor.hash == blocks[ancestor.height].hash
    && Agrees(blocks, headerAt, ancestor.height)
    && (forall h :: h in StoredIn(blocks, ancestor.height + 1, top) ==> !Agrees(blocks, headerAt, h))
    && depth == |StoredIn(blocks, ancestor.height + 1, top)| > 0
  }

  /** The window is not empty, nothing in it agrees, and `oldest` is its lowest row. */
  ghost predicate IsBeyond(blocks: Blocks, top: u64, floor: u64, headerAt: u64 -> Answer, oldest: u64) {
    && oldest in StoredIn(blocks, floor, top)
    && forall h :: h in StoredIn(blocks, floor, top) ==> oldest <= h && !Agrees(blocks, headerAt, h)
  }

  /** The window row by row: what matches, and where each stored height appears. */
  lemma {:induction false} WindowRows(blocks: Blocks, top: u64, floor: u64, headerAt: u64 -> Answer)
    requires WellKeyed(blocks)
    ensures var rows := Descending(blocks, top, floor);
            var window := WholeWindow(rows, headerAt);
            && |window| == |rows|
            && (forall i :: 0 <= i < |rows| ==>
                  && rows[i].height in StoredIn(blocks, floor, top)
                  && window[i].height == rows[i].height
                  && window[i].storedHash == blocks[rows[i].height].hash
                  && (window[i].Matches() <==> Agrees(blocks, headerAt, rows[i].height))
                  && |StoredIn(blocks, rows[i].height + 1, top)| == i)
            && (forall i, j :: 0 <= i < j < |rows| ==> rows[j].height < rows[i].height)
  {
    var rows := Descending(blocks, top, floor);
    forall i | 0 <= i < |rows|
      ensures rows[i].height in StoredIn(blocks, floor, top) && rows[i] == blocks[rows[i].height]
      ensures |StoredIn(blocks, rows[i].height + 1, top)| == i
    {
      RowIsStored(blocks, top, floor, i);
      RowPosition(blocks, top, floor, i);
    }
    forall i, j | 0 <= i < j < |rows| ensures rows[j].height < rows[i].height {
      RowsDescend(blocks, top, floor, i, j);
    }
  }

  lemma {:induction false} RowOfHeight(blocks: Blocks, top: u64, floor: u64, height: u64) returns (i: nat)
    requires WellKeyed(blocks) && height in StoredIn(blocks, floor, top)
    ensures i < |Descending(blocks, top, floor)| && Descending(blocks, top, floor)[i].height == height
    ensures i == |StoredIn(blocks, height + 1, top)|
  {
    StoredIsRow(blocks, top, floor, height);
    i :| 0 <= i < |Descending(blocks, top, floor)| && Descending(blocks, top, floor)[i] == blocks[height];
    RowPosition(blocks, top, floor, i);
  }

  lemma {:induction false} CanonicalMeans(blocks: Blocks, top: u64, floor: u64, headerAt: u64 -> Answer)
    requires WellKeyed(blocks)
    ensures Verdict(blocks, top, floor, headerAt).Canonical? <==> IsCanonical(blocks, top, floor, headerAt)
  {
    WindowRows(blocks, top, floor, headerAt);
    var rows := Descending(blocks, top, floor);
    forall h | h in StoredIn(blocks, floor, top) && StoredIn(blocks, h + 1, top) == {}
      ensures rows != [] && h == rows[0].height
    {
      var i := RowOfHeight(blocks, top, floor, h);
    }
    if rows != [] {
      assert StoredIn(blocks, rows[0].height + 1, top) == {};
    }
  }

  lemma {:induction false} RewindMeans(blocks: Blocks, top: u64, floor: u64, headerAt: u64 -> Answer,
                                       ancestor: BlockPtr, depth: nat)
    requires WellKeyed(blocks)
    ensures Verdict(blocks, top, floor, headerAt) == Rewind(ancestor, depth) <==>
            IsForkPoint(blocks, top, floor, headerAt, ancestor, depth)
  {
    WindowRows(blocks, top, floor, headerAt);
    var rows := Descending(blocks, top, floor);
    var window := WholeWindow(rows, headerAt);
    if Verdict(blocks, top, floor, headerAt) == Rewind(ancestor, depth) {
      forall h | h in StoredIn(blocks, ancestor.height + 1, top) ensures !Agrees(blocks, headerAt, h) {
        var i := RowOfHeight(blocks, top, floor, h);
        assert i < depth;
      }
    }
    if IsForkPoint(blocks, top, floor, headerAt, ancestor, depth) {
      var i := RowOfHeight(blocks, top, floor, ancestor.height);
      forall j | 0 <= j < i ensures !window[j].Matches() {
        assert rows[j].height in StoredIn(blocks, ancestor.height + 1, top);
      }
      assert window[i].Matches();
    }
  }

  lemma {:induction false} BeyondMeans(blocks: Blocks, top: u64, floor: u64, headerAt: u64 -> Answer, oldest: u64)
    requires WellKeyed(blocks)
    ensures Verdict(blocks, top, floor, headerAt) == BeyondHistory(oldest) <==>
            IsBeyond(blocks, top, floor, headerAt, oldest)
  {
    WindowRows(blocks, top, floor, headerAt);
    var rows := Descending(blocks, top, floor);
    if Verdict(blocks, top, floor, headerAt) == BeyondHistory(oldest) {
      forall h | h in StoredIn(blocks, floor, top) ensures oldest <= h && !Agrees(blocks, headerAt, h) {
        var i := RowOfHeight(blocks, top, floor, h);
      }
    }
    if IsBeyond(blocks, top, floor, headerAt, oldest) {
      var i := RowOfHeight(blocks, top, floor, oldest);
      assert rows[|rows| - 1].height in StoredIn(blocks, floor, top);
    }
  }

  /**
   `oldest_known` is the lowest height compared. It is the oldest height stored, which its
   documentation calls it, exactly when the search window reaches the bottom of the table.
   */
  lemma {:induction false} OldestKnownIsOldestStored(blocks: Blocks, top: u64, floor: u64, headerAt: u64 -> Answer)
    requires WellKeyed(blocks)
    requires Verdict(blocks, top, floor, headerAt).BeyondHistory?
    ensures var oldest := Verdict(blocks, top, floor, headerAt).oldestKnown;
            (forall h :: h in blocks && h <= top ==> oldest <= h) <==>
            (forall h :: h in blocks && h <= top ==> floor <= h)
  {
    var oldest := Verdict(blocks, top, floor, headerAt).oldestKnown;
    BeyondMeans(blocks, top, floor, headerAt, oldest);
    assert floor <= oldest;
    forall h | h in blocks && floor <= h <= top ensures oldest <= h {
      assert h in StoredIn(blocks, floor, top);
    }
  }

  /** A window that stops short of the bottom: height 1 is named, and 0 is stored. */
  lemma ShortWindowMissesOldest()
    ensures var blocks := map[0 := StoredHeader(0, "a", None, Final), 1 := StoredHeader(1, "b", Some("a"), Final),
                              2 := StoredHeader(2, "c", Some("b"), Final)];
            WellKeyed(blocks) && Verdict(blocks, 2, 1, (h: u64) => Missing) == BeyondHistory(1) && 0 in blocks
  {
    var blocks := map[0 := StoredHeader(0, "a", None, Final), 1 := StoredHeader(1, "b", Some("a"), Final),
                      2 := StoredHeader(2, "c", Some("b"), Final)];
    BeyondMeans(blocks, 2, 1, (h: u64) => Missing, 1);
    assert 1 in StoredIn(blocks, 1, 2);
  }

  lemma {:induction false} PruningKeepsForkPointIff(blocks: Blocks, top: u64, floor: u64, headerAt: u64 -> Answer,
                                                    below: u64, ancestor: BlockPtr, depth: nat)
    requires WellKeyed(blocks)
    requires IsForkPoint(blocks, top, floor, headerAt, ancestor, depth)
    ensures IsForkPoint(PrunedBelow(blocks, below), top, floor, headerAt, ancestor, depth) <==>
            forall h :: h in StoredIn(blocks, ancestor.height, top) ==> h >= below || blocks[h].finality == Unfinalized
  {
    var pruned := PrunedBelow(blocks, below);
    var above := StoredIn(blocks, ancestor.height + 1, top);
    var kept := StoredIn(pruned, ancestor.height + 1, top);
    SubsetIsNoLarger(kept, above);
    assert forall h :: h in kept ==> h in above && !Agrees(blocks, headerAt, h);
    assert forall h :: h in StoredIn(blocks, ancestor.height, top) ==> h == ancestor.height || h in above;
    if forall h :: h in StoredIn(blocks, ancestor.height, top) ==> h >= below || blocks[h].finality == Unfinalized {
      assert ancestor.height in StoredIn(blocks, ancestor.height, top);
      forall h | h in above ensures h in kept {
        assert h in StoredIn(blocks, ancestor.height, top);
      }
      assert kept == above;
    }
  }

  /**
   Pruning old finalized rows leaves a rewind verdict as it was exactly when it deletes nothing
   from the ancestor up to the tip.
   */
  lemma {:induction false} PruningKeepsRewindIff(blocks: Blocks, top: u64, floor: u64, headerAt: u64 -> Answer,
                                                 below: u64)
    requires WellKeyed(blocks)
    requires Verdict(blocks, top, floor, headerAt).Rewind?
    ensures var v := Verdict(blocks, top, floor, headerAt);
            Verdict(PrunedBelow(blocks, below), top, floor, headerAt) == v <==>
            forall h :: h in StoredIn(blocks, v.ancestor.height, top) ==>
              h >= below || blocks[h].finality == Unfinalized
  {
    var v := Verdict(blocks, top, floor, headerAt);
    RewindMeans(blocks, top, floor, headerAt, v.ancestor, v.depth);
    RewindMeans(PrunedBelow(blocks, below), top, floor, headerAt, v.ancestor, v.depth);
    PruningKeepsForkPointIff(blocks, top, floor, headerAt, below, v.ancestor, v.depth);
  }
}
