/**
 The reorder buffer (crates/dispatcher/src/ordered_commit.rs).

 The class drains its pending map in a loop, as the source does. It is proved equal to
 `Completed`, which has no loop: it finds the first missing height and splits the map there.
 */
module OrderedCommit {
  import opened Prelude

  /** Heights a buffer may be given: below `u64::MAX`, because `next_expected += 1` does not saturate. */
  type Height = n: int | 0 <= n < U64_MAX

  /** The mutable state of a buffer. */
  datatype Buffer<T> = Buffer(nextExpected: u64, pending: map<u64, T>, generation: nat)

  /** The least height from `from` on that is not held. */
  ghost function FirstMissing(from: nat, held: set<u64>): (n: nat)
    ensures from <= n && n !in held
    ensures forall h: nat :: from <= h < n ==> h in held
    decreases held
  {
    if from !in held then from
    else
      var n := FirstMissing(from + 1, held - {from});
      assert forall h: nat :: from < h < n ==> h in held - {from};
      n
  }

  lemma FirstMissingIs(from: nat, held: set<u64>, n: nat)
    requires from <= n && n !in held && forall h: nat :: from <= h < n ==> h in held
    ensures FirstMissing(from, held) == n
  {
    var m := FirstMissing(from, held);
    assert m < n ==> m in held;
    assert n < m ==> n in held;
  }

  /** The run of held entries `low, low + 1, .., high - 1`. */
  ghost function Released<T>(held: map<u64, T>, low: nat, high: nat): seq<(u64, T)>
    requires low <= high && forall h: nat :: low <= h < high ==> h in held
  {
    seq(high - low, i requires 0 <= i < high - low => (low + i, held[low + i]))
  }

  ghost function AtOrAbove<T>(held: map<u64, T>, low: nat): map<u64, T> {
    map h | h in held && low <= h :: held[h]
  }

  /** Between calls every pending height is strictly above the next expected one. */
  ghost predicate Valid<T>(b: Buffer<T>) {
    && b.nextExpected !in b.pending
    && forall h :: h in b.pending ==> b.nextExpected < h < U64_MAX
  }

  /** Whether a completion is taken up rather than dropped as stale. */
  predicate IsCurrent<T>(b: Buffer<T>, generation: nat, height: u64) {
    generation == b.generation && height >= b.nextExpected
  }

  ghost function Completed<T>(b: Buffer<T>, generation: nat, height: Height, value: T): (r: (Buffer<T>, seq<(u64, T)>))
    requires Valid(b)
    ensures Valid(r.0)
  {
    if !IsCurrent(b, generation, height) then (b, [])
    else
      var held := b.pending[height := value];
      var next := FirstMissing(b.nextExpected, held.Keys);
      assert next > b.nextExpected ==> next - 1 in held.Keys;
      (Buffer(next, AtOrAbove(held, next), b.generation),
       Released(held, b.nextExpected, next))
  }

  /**
   Only work of the buffer's own generation, at or above the expected height, is taken up: it is
   released or held afterwards. Anything else changes nothing.
   */
  lemma {:induction false} OnlyCurrentIsTakenUp<T>(b: Buffer<T>, generation: nat, height: Height, value: T)
    requires Valid(b)
    ensures var (after, released) := Completed(b, generation, height, value);
            if generation != b.generation || height < b.nextExpected then after == b && released == []
            else if height < after.nextExpected then
              height - b.nextExpected < |released| && released[height - b.nextExpected] == (height, value)
            else height in after.pending && after.pending[height] == value
  {
    if generation == b.generation && height >= b.nextExpected {
      var held := b.pending[height := value];
      assert height in held.Keys;
    }
  }

  /** A reset forgets everything pending, starts a new generation, and counts what it dropped. */
  ghost function ResetTo<T>(b: Buffer<T>, height: u64): (Buffer<T>, nat) {
    (Buffer(height, map[], b.generation + 1), |b.pending|)
  }

  lemma {:induction false} Least(held: set<u64>) returns (low: u64)
    requires held != {}
    ensures low in held && forall h :: h in held ==> low <= h
    decreases held
  {
    low :| low in held;
    var rest := held - {low};
    assert forall h :: h in held ==> h == low || h in rest;
    if rest == {} {
    } else {
      var other := Least(rest);
      low := if other < low then other else low;
    }
  }

  class OrderedCommitBuffer<T> {
    var nextExpected: u64
    var pending: map<u64, T>
    const capacity: nat
    var generation: nat

    ghost function State(): Buffer<T>
      reads this
    {
      Buffer(nextExpected, pending, generation)
    }

    constructor (startHeight: u64, capacity: nat)
      ensures State() == Buffer(startHeight, map[], 0) && Valid(State())
      ensures this.capacity == Max(capacity, 1)
    {
      nextExpected, pending, generation := startHeight, map[], 0;
      this.capacity := Max(capacity, 1);
    }

    method CompleteFrom(generation: nat, height: Height, value: T) returns (released: seq<(u64, T)>)
      requires Valid(State())
      modifies this
      ensures Valid(State())
      ensures (State(), released) == Completed(old(State()), generation, height, value)
    {
      if generation != this.generation {
        return [];
      }
      if height < nextExpected {
        return [];
      }
      pending := pending[height := value];
      ghost var held := pending;
      ghost var from := nextExpected;
      released := [];
      while nextExpected in pending
        invariant from <= nextExpected && this.generation == old(this.generation)
        invariant forall h: nat :: from <= h < nextExpected ==> h in held
        invariant released == Released(held, from, nextExpected)
        invariant pending == AtOrAbove(held, nextExpected)
        invariant forall h :: h in pending ==> h < U64_MAX
        decreases U64_MAX - nextExpected
      {
        released := released + [(nextExpected, pending[nextExpected])];
        pending := pending - {nextExpected};
        nextExpected := nextExpected + 1;
      }
      FirstMissingIs(from, held.Keys, nextExpected);
    }

    method Reset(height: u64) returns (discarded: nat)
      modifies this
      ensures (State(), discarded) == ResetTo(old(State()), height)
      ensures Valid(State())
    {
      discarded := |pending|;
      pending := map[];
      nextExpected := height;
      generation := generation + 1;
    }

    /** The expected height and the lowest height waiting on it, when anything waits. */
    method StallGap() returns (r: Option<(u64, u64)>)
      requires Valid(State())
      ensures r.None? <==> pending == map[]
      ensures r.Some? ==>
                && r.value.0 == nextExpected < r.value.1
                && r.value.1 in pending
                && forall h :: nextExpected <= h < r.value.1 ==> h !in pending
    {
      if pending == map[] {
        return None;
      }
      ghost var least := Least(pending.Keys);
      var lowest :| lowest in pending && forall h :: h in pending ==> lowest <= h;
      return Some((nextExpected, lowest));
    }
  }

  // ---------------------------------------------------------------- arrival order

  /** One completion after another, all from the buffer's generation: final state and all releases. */
  ghost function Deliver<T>(b: Buffer<T>, arrivals: seq<Height>, value: u64 -> T): (r: (Buffer<T>, seq<(u64, T)>))
    requires Valid(b)
    ensures Valid(r.0)
  {
    if arrivals == [] then (b, [])
    else
      var (before, released) := Deliver(b, arrivals[..|arrivals| - 1], value);
      var height := arrivals[|arrivals| - 1];
      var (after, more) := Completed(before, b.generation, height, value(height));
      (after, released + more)
  }

  ghost function Delivered(arrivals: seq<Height>): set<u64> {
    set h | h in arrivals
  }

  ghost function Graph<T>(heights: set<u64>, value: u64 -> T): map<u64, T> {
    map h | h in heights :: value(h)
  }

  /** What a buffer still holds once everything below `next` has been released. */
  ghost function Waiting<T>(delivered: set<u64>, next: nat, value: u64 -> T): map<u64, T> {
    map h | h in delivered && next < h :: value(h)
  }

  lemma {:induction false} StaleArrival<T>(start: u64, generation: nat, seen: set<u64>, last: Height, value: u64 -> T)
    requires last < FirstMissing(start, seen) <= U64_MAX
    requires forall h :: h in seen ==> h < U64_MAX
    ensures var low := FirstMissing(start, seen);
            var before := Buffer(low, Waiting(seen, low, value), generation);
            && FirstMissing(start, seen + {last}) == low
            && Waiting(seen + {last}, low, value) == before.pending
            && Completed(before, generation, last, value(last)) ==
                 (before, Released(Graph(seen + {last}, value), low, low))
  {
    var delivered := seen + {last};
    var low := FirstMissing(start, seen);
    FirstMissingIs(start, delivered, low);
    assert Waiting(seen, low, value) == Waiting(delivered, low, value);
    assert Released(Graph(delivered, value), low, low) == [];
  }

  ghost function Above(heights: set<u64>, low: nat): set<u64> {
    set h | h in heights && low < h
  }

  /** Once `seen` is released up to its first missing height, only that height and the rest matter. */
  lemma {:induction false} FirstMissingAfter(start: u64, seen: set<u64>, last: Height)
    requires last >= FirstMissing(start, seen)
    ensures var low := FirstMissing(start, seen);
            FirstMissing(start, seen + {last}) == FirstMissing(low, Above(seen, low) + {last})
  {
    var low := FirstMissing(start, seen);
    var waiting := Above(seen, low);
    var high := FirstMissing(low, waiting + {last});
    assert high in seen + {last} ==> high == low || high in waiting + {last};
    forall h: nat | start <= h < high ensures h in seen + {last} {
      if h < low {
        assert h in seen;
      } else {
        assert h in waiting + {last};
      }
    }
    FirstMissingIs(start, seen + {last}, high);
  }

  lemma {:induction false} NewArrival<T>(start: u64, generation: nat, seen: set<u64>, last: Height, value: u64 -> T)
    requires FirstMissing(start, seen) <= last
    requires forall h :: h in seen ==> h < U64_MAX
    ensures var low, high := FirstMissing(start, seen), FirstMissing(start, seen + {last});
            var before := Buffer(low, Waiting(seen, low, value), generation);
            && low <= high <= U64_MAX
            && Completed(before, generation, last, value(last)) ==
                 (Buffer(high, Waiting(seen + {last}, high, value), generation),
                  Released(Graph(seen + {last}, value), low, high))
  {
    var delivered := seen + {last};
    var low, high := FirstMissing(start, seen), FirstMissing(start, delivered);
    FirstMissingAfter(start, seen, last);
    var held := Waiting(seen, low, value)[last := value(last)];
    assert held.Keys == Above(seen, low) + {last};
    assert high > low ==> high - 1 in held.Keys;
    assert Released(held, low, high) == Released(Graph(delivered, value), low, high);
    assert AtOrAbove(held, high) == Waiting(delivered, high, value);
  }

  /** Two releases in a row are one. */
  lemma {:induction false} ReleasesJoin<T>(before: map<u64, T>, after: map<u64, T>, start: nat, low: nat, high: nat)
    requires start <= low <= high
    requires forall h: nat :: start <= h < low ==> h in before && h in after && before[h] == after[h]
    requires forall h: nat :: low <= h < high ==> h in after
    ensures Released(before, start, low) + Released(after, low, high) == Released(after, start, high)
  {
  }

  /** The inductive step: one more completion on top of a delivered set. */
  lemma {:induction false} OneMoreArrival<T>(start: u64, generation: nat, seen: set<u64>, last: Height, value: u64 -> T)
    requires forall h :: h in seen ==> h < U64_MAX
    requires FirstMissing(start, seen) <= U64_MAX
    ensures var low, high := FirstMissing(start, seen), FirstMissing(start, seen + {last});
            var before := Buffer(low, Waiting(seen, low, value), generation);
            && low <= high <= U64_MAX
            && Completed(before, generation, last, value(last)) ==
                 (Buffer(high, Waiting(seen + {last}, high, value), generation),
                  Released(Graph(seen + {last}, value), low, high))
            && Released(Graph(seen, value), start, low) + Released(Graph(seen + {last}, value), low, high) ==
                 Released(Graph(seen + {last}, value), start, high)
  {
    if last < FirstMissing(start, seen) {
      StaleArrival(start, generation, seen, last, value);
    } else {
      NewArrival(start, generation, seen, last, value);
    }
    ReleasesJoin(Graph(seen, value), Graph(seen + {last}, value), start,
                 FirstMissing(start, seen), FirstMissing(start, seen + {last}));
  }

  /**
   Duplicates and order do not matter: the releases together are exactly the longest unbroken
   run from the start height present in the delivered set, and what stays pending is the rest
   of that set above the first missing height.
   */
  lemma {:induction false} ReleasesAreTheDeliveredRun<T>(start: u64, generation: nat, arrivals: seq<Height>,
                                                         value: u64 -> T)
    ensures var delivered := Delivered(arrivals);
            var next := FirstMissing(start, delivered);
            && next <= U64_MAX
            && Deliver(Buffer(start, map[], generation), arrivals, value) ==
                 (Buffer(next, Waiting(delivered, next, value), generation),
                  Released(Graph(delivered, value), start, next))
  {
    var empty: Buffer<T> := Buffer(start, map[], generation);
    var delivered := Delivered(arrivals);
    if arrivals == [] {
      FirstMissingIs(start, delivered, start);
      assert Waiting(delivered, start, value) == map[];
      assert Released(Graph(delivered, value), start, start) == [];
    } else {
      var last := arrivals[|arrivals| - 1];
      var earlier := arrivals[..|arrivals| - 1];
      ReleasesAreTheDeliveredRun(start, generation, earlier, value);
      assert delivered == Delivered(earlier) + {last} by {
        assert arrivals == earlier + [last];
      }
      OneMoreArrival(start, generation, Delivered(earlier), last, value);
    }
  }

  /**
   Arrival-order independence: completions of the same set of heights, in any two orders and
   with any repetitions, release the same blocks in the same order and leave the same buffer.
   */
  lemma {:induction false} ArrivalOrderIsIrrelevant<T>(start: u64, generation: nat,
                                                       a: seq<Height>, b: seq<Height>, value: u64 -> T)
    requires forall h :: h in a <==> h in b
    ensures Deliver(Buffer(start, map[], generation), a, value) == Deliver(Buffer(start, map[], generation), b, value)
  {
    ReleasesAreTheDeliveredRun(start, generation, a, value);
    ReleasesAreTheDeliveredRun(start, generation, b, value);
    assert Delivered(a) == Delivered(b);
  }
}
