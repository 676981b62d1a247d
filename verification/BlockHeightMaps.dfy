/** A value that changes at known heights (crates/core/src/project/block_height_map.rs). */
module BlockHeightMaps {
  import opened Prelude

  datatype Entry<+T> = Entry(key: u64, value: T)

  ghost predicate Ascending<T>(entries: seq<Entry<T>>) {
    forall i, j :: 0 <= i < j < |entries| ==> entries[i].key < entries[j].key
  }

  /** `[startHeight, endHeight]`, open ended when there is no end. */
  datatype GetRange<+T> = GetRange(value: T, startHeight: u64, endHeight: Option<u64>) {
    predicate Covers(height: u64) {
      startHeight <= height && (endHeight.Some? ==> height <= endHeight.value)
    }
  }

  /** How many entries have a key at or below the height. */
  function AtOrBelow<T>(entries: seq<Entry<T>>, height: int): (n: nat)
    requires Ascending(entries)
    ensures n <= |entries|
    ensures forall i :: 0 <= i < |entries| ==> (i < n <==> entries[i].key <= height)
  {
    if entries == [] then 0
    else if entries[|entries| - 1].key <= height then |entries|
    else AtOrBelow(entries[..|entries| - 1], height)
  }

  /** A range runs to just below the next key. */
  function RangeOf<T>(entries: seq<Entry<T>>, i: nat): GetRange<T>
    requires Ascending(entries) && i < |entries|
  {
    GetRange(entries[i].value, entries[i].key,
             if i + 1 < |entries| then
               assert entries[i].key < entries[i + 1].key;
               Some(entries[i + 1].key - 1)
             else None)
  }

  /**
   The entries relevant to a range, as one slice: from the last key below the start, through the
   keys inside the range. Nothing at all when every key is below the start.
   */
  ghost function Relevant<T>(entries: seq<Entry<T>>, startHeight: u64, endHeight: u64): seq<Entry<T>>
    requires Ascending(entries)
  {
    var first := AtOrBelow(entries, startHeight - 1);
    if first == |entries| then []
    else entries[Max(first - 1, 0)..Max(first, AtOrBelow(entries, endHeight))]
  }

  lemma SliceAscends<T>(entries: seq<Entry<T>>, low: nat, high: nat)
    requires Ascending(entries) && low <= high <= |entries|
    ensures Ascending(entries[low..high])
  {
  }

  /** Inside the range, or the last key below the start with some key at or past the start after it. */
  ghost predicate IsRelevant<T>(entries: seq<Entry<T>>, start: u64, end: u64, i: nat)
    requires i < |entries|
  {
    || start <= entries[i].key <= end
    || (entries[i].key < start && i + 1 < |entries| && start <= entries[i + 1].key)
  }

  /** A `BTreeMap` keyed by height, as its entries in iteration order. */
  datatype BlockHeightMap<T> = BlockHeightMap(entries: seq<Entry<T>>) {
    ghost predicate Valid() {
      Ascending(entries)
    }

    /** The entry active at a height: the greatest key at or below it, up to the next key. */
    function GetDetails(height: u64): Option<GetRange<T>>
      requires Valid()
    {
      var n := AtOrBelow(entries, height);
      if n == 0 then None else Some(RangeOf(entries, n - 1))
    }

    function GetAllWithRange(): seq<GetRange<T>>
      requires Valid()
    {
      seq(|entries|, i requires 0 <= i < |entries| => RangeOf(entries, i))
    }

    /** One pass over the entries. Keys are inserted in ascending order, so each goes at the end. */
    method GetWithinRange(startHeight: u64, endHeight: u64) returns (result: seq<Entry<T>>)
      requires Valid()
      ensures result == Relevant(entries, startHeight, endHeight) && Ascending(result)
    {
      ghost var first: int := AtOrBelow(entries, startHeight - 1);
      ghost var low, high := Max(first - 1, 0), Max(first, AtOrBelow(entries, endHeight));
      result := [];
      var previous: Option<Entry<T>> := None;
      for i := 0 to |entries|
        invariant previous == if i == 0 then None else Some(entries[i - 1])
        invariant result == if i <= first then [] else entries[low..Min(i, high)]
      {
        var key := entries[i].key;
        if previous.Some? && previous.value.key < startHeight && key >= startHeight {
          result := result + [previous.value];
        }
        if startHeight <= key <= endHeight {
          result := result + [entries[i]];
        }
        previous := Some(entries[i]);
      }
      SliceAscends(entries, low, Max(low, high));
    }
  }

  // ---------------------------------------------------------------- lookups

  lemma {:induction false} AtOrBelowIs<T>(entries: seq<Entry<T>>, height: int, n: nat)
    requires Ascending(entries) && n <= |entries|
    requires forall i :: 0 <= i < |entries| ==> (i < n <==> entries[i].key <= height)
    ensures AtOrBelow(entries, height) == n
  {
    var m := AtOrBelow(entries, height);
    assert m < |entries| ==> (m < n <==> entries[m].key <= height);
    assert n < |entries| ==> (n < m <==> entries[n].key <= height);
  }

  /**
   The lookup, said of the entries: the entry whose key is at or below the height and whose
   successor, if any, is above it, with its own value and key, ending just below the successor.
   */
  lemma {:induction false} DetailsAre<T>(m: BlockHeightMap<T>, i: nat, height: u64)
    requires m.Valid() && i < |m.entries| && m.entries[i].key <= height
    requires i + 1 < |m.entries| ==> height < m.entries[i + 1].key
    ensures m.GetDetails(height).Some?
    ensures var range := m.GetDetails(height).value;
            && range.value == m.entries[i].value && range.startHeight == m.entries[i].key
            && range.endHeight == if i + 1 < |m.entries| then Some(m.entries[i + 1].key - 1) else None
  {
    assert AtOrBelow(m.entries, height) == i + 1 by {
      forall k | 0 <= k < |m.entries| ensures k < i + 1 <==> m.entries[k].key <= height {
        assert k > i + 1 ==> m.entries[i + 1].key < m.entries[k].key;
      }
      AtOrBelowIs(m.entries, height, i + 1);
    }
  }

  /** The ranges are listed in key order, one to an entry, each with its entry's value and key. */
  lemma RangesAre<T>(m: BlockHeightMap<T>, i: nat)
    requires m.Valid() && i < |m.entries|
    ensures |m.GetAllWithRange()| == |m.entries|
    ensures m.GetAllWithRange()[i].value == m.entries[i].value
    ensures m.GetAllWithRange()[i].startHeight == m.entries[i].key
    ensures m.GetAllWithRange()[i].endHeight.Some? <==> i + 1 < |m.entries|
    ensures i + 1 < |m.entries| ==> m.GetAllWithRange()[i].endHeight.value + 1 == m.GetAllWithRange()[i + 1].startHeight
  {
  }

  /** The value in effect at a height: that of the greatest key at or below it. */
  ghost function ValueAt<T>(entries: seq<Entry<T>>, height: u64): Option<T>
    requires Ascending(entries)
  {
    var n := AtOrBelow(entries, height);
    if n == 0 then None else Some(entries[n - 1].value)
  }

  /** The lookup gives the value in effect, and nothing where none is. */
  lemma {:induction false} DetailsGiveValue<T>(m: BlockHeightMap<T>, height: u64)
    requires m.Valid()
    ensures m.GetDetails(height).Some? <==> ValueAt(m.entries, height).Some?
    ensures m.GetDetails(height).Some? ==> ValueAt(m.entries, height) == Some(m.GetDetails(height).value.value)
  {
    var n := AtOrBelow(m.entries, height);
    if n > 0 {
      DetailsAre(m, n - 1, height);
    }
  }

  ghost function RelevantLow<T>(entries: seq<Entry<T>>, start: u64): (low: nat)
    requires Ascending(entries)
    ensures low <= |entries|
  {
    Max(AtOrBelow(entries, start - 1) as int - 1, 0)
  }

  ghost function RelevantHigh<T>(entries: seq<Entry<T>>, start: u64, end: u64): (high: nat)
    requires Ascending(entries)
    ensures RelevantLow(entries, start) <= high <= |entries|
  {
    Max(AtOrBelow(entries, start - 1), AtOrBelow(entries, end))
  }

  lemma {:induction false} RelevantPositions<T>(entries: seq<Entry<T>>, start: u64, end: u64, i: nat)
    requires Ascending(entries) && i < |entries|
    ensures IsRelevant(entries, start, end, i) <==>
            AtOrBelow(entries, start - 1) < |entries| &&
            RelevantLow(entries, start) <= i < RelevantHigh(entries, start, end)
  {
    var first: int, last := AtOrBelow(entries, start - 1), AtOrBelow(entries, end);
    assert i < first <==> entries[i].key < start;
    assert i < last <==> entries[i].key <= end;
    if i + 1 < |entries| {
      assert i + 1 < first <==> entries[i + 1].key < start;
    }
  }

  lemma SliceHolds<T>(entries: seq<Entry<T>>, low: nat, high: nat, entry: Entry<T>)
    requires low <= high <= |entries|
    ensures entry in entries[low..high] <==> exists i :: low <= i < high && entries[i] == entry
  {
    if entry in entries[low..high] {
      var k :| 0 <= k < high - low && entries[low..high][k] == entry;
      assert entries[low + k] == entry;
    }
    if i :| low <= i < high && entries[i] == entry {
      assert entries[low..high][i - low] == entry;
    }
  }

  /**
   The restricted map, said of the entries: those inside the range, and the last one below its
   start, which is there only to carry the value in effect; none of them if every key is lower.
   */
  lemma {:induction false} RelevantAre<T>(entries: seq<Entry<T>>, start: u64, end: u64, entry: Entry<T>)
    requires Ascending(entries)
    ensures entry in Relevant(entries, start, end) <==>
            exists i :: 0 <= i < |entries| && entries[i] == entry && IsRelevant(entries, start, end, i)
  {
    forall i | 0 <= i < |entries|
      ensures IsRelevant(entries, start, end, i) <==>
              AtOrBelow(entries, start - 1) < |entries| &&
              RelevantLow(entries, start) <= i < RelevantHigh(entries, start, end)
    {
      RelevantPositions(entries, start, end, i);
    }
    if AtOrBelow(entries, start - 1) < |entries| {
      SliceHolds(entries, RelevantLow(entries, start), RelevantHigh(entries, start, end), entry);
    }
  }

  /**
   The listed ranges partition every height from the first key up: each such height is covered
   by exactly one of them, which is the one `GetDetails` gives; lower heights by none.
   */
  lemma {:induction false} RangesPartitionHeights<T>(m: BlockHeightMap<T>, height: u64)
    requires m.Valid()
    ensures var ranges := m.GetAllWithRange();
            && (m.GetDetails(height).None? <==> m.entries == [] || height < m.entries[0].key)
            && (m.GetDetails(height).None? ==> forall i :: 0 <= i < |ranges| ==> !ranges[i].Covers(height))
            && (m.GetDetails(height).Some? ==>
                  exists i :: 0 <= i < |ranges| && ranges[i] == m.GetDetails(height).value && ranges[i].Covers(height)
                              && forall j :: 0 <= j < |ranges| && ranges[j].Covers(height) ==> j == i)
  {
    var ranges := m.GetAllWithRange();
    var n := AtOrBelow(m.entries, height);
    if n > 0 {
      assert ranges[n - 1] == m.GetDetails(height).value && ranges[n - 1].Covers(height);
      forall j | 0 <= j < |ranges| && ranges[j].Covers(height) ensures j == n - 1 {
      }
    }
  }

  /** Looking up in a slice that reaches far enough both ways is looking up in the whole. */
  lemma {:induction false} SliceLookup<T>(entries: seq<Entry<T>>, low: nat, high: nat, height: u64)
    requires Ascending(entries) && low <= high <= |entries|
    requires low < AtOrBelow(entries, height) <= high || (low == 0 && AtOrBelow(entries, height) == 0)
    ensures ValueAt(entries[low..high], height) == ValueAt(entries, height)
  {
    var slice := entries[low..high];
    var n := AtOrBelow(entries, height);
    forall i | 0 <= i < |slice| ensures i < n - low <==> slice[i].key <= height {
      assert slice[i] == entries[low + i];
    }
    AtOrBelowIs(slice, height, n - low);
  }

  lemma {:induction false} AtOrBelowMonotone<T>(entries: seq<Entry<T>>, low: int, high: int)
    requires Ascending(entries) && low <= high
    ensures AtOrBelow(entries, low) <= AtOrBelow(entries, high)
  {
    var a := AtOrBelow(entries, low);
    assert a > 0 ==> entries[a - 1].key <= low;
  }

  lemma {:induction false} RelevantAscends<T>(entries: seq<Entry<T>>, start: u64, end: u64)
    requires Ascending(entries)
    ensures Ascending(Relevant(entries, start, end))
  {
    var first: int := AtOrBelow(entries, start - 1);
    SliceAscends(entries, Max(first - 1, 0), Max(first, AtOrBelow(entries, end)));
  }

  lemma {:induction false} RelevantLookup<T>(entries: seq<Entry<T>>, start: u64, end: u64, height: u64)
    requires Ascending(entries) && entries != [] && entries[|entries| - 1].key >= start && start <= height <= end
    ensures ValueAt(Relevant(entries, start, end), height) == ValueAt(entries, height)
  {
    var first := AtOrBelow(entries, start - 1);
    assert first < |entries|;
    AtOrBelowMonotone(entries, start - 1, height);
    AtOrBelowMonotone(entries, height, end);
    SliceLookup(entries, Max(first - 1, 0), Max(first, AtOrBelow(entries, end)), height);
  }

  lemma {:induction false} LowKeysAreLost<T>(entries: seq<Entry<T>>, start: u64, end: u64)
    requires Ascending(entries) && entries != [] && entries[|entries| - 1].key < start
    ensures ValueAt(Relevant(entries, start, end), start) == None && ValueAt(entries, start).Some?
  {
    assert AtOrBelow(entries, start - 1) == |entries| == AtOrBelow(entries, start);
    assert Relevant(entries, start, end) == [];
  }

  /**
   Restricting the map to a range loses nothing inside it exactly when some key is at or past
   the start, or there is no key at all, or the range is empty. When every key is below the
   start the result is empty although a value is in effect: the documentation's own proviso.
   */
  lemma {:induction false} WithinRangeAgreesIff<T>(entries: seq<Entry<T>>, start: u64, end: u64)
    requires Ascending(entries)
    ensures Ascending(Relevant(entries, start, end))
    ensures (forall height: u64 :: start <= height <= end ==>
               ValueAt(Relevant(entries, start, end), height) == ValueAt(entries, height)) <==>
            || start > end
            || entries == []
            || entries[|entries| - 1].key >= start
  {
    RelevantAscends(entries, start, end);
    if entries != [] && start <= end {
      if entries[|entries| - 1].key >= start {
        forall height: u64 | start <= height <= end
          ensures ValueAt(Relevant(entries, start, end), height) == ValueAt(entries, height)
        {
          RelevantLookup(entries, start, end, height);
        }
      } else {
        LowKeysAreLost(entries, start, end);
      }
    }
  }

  /** The proviso matters: one key below the start, and the value in effect is lost. */
  lemma LowKeyIsLost()
    ensures var entries := [Entry(1, "v")];
            && Relevant(entries, 2, 3) == []
            && ValueAt(entries, 2) == Some("v") && ValueAt(Relevant(entries, 2, 3), 2) == None
  {
  }
}
