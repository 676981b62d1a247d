/**
 The dispatcher around the reorder buffer (crates/dispatcher/src/dispatcher.rs). Every method
 takes the buffer's lock for its whole body, so each is one atomic step.

 A worker's output carries, for the proofs, the generation that worker captured when it took
 the block; the program itself only compares that number on arrival.
 */
module Dispatch {
  import opened Prelude
  import opened RangePlanning
  import opened OrderedCommit

  datatype WorkerOutput<P> = WorkerOutput(height: u64, captured: nat, payload: P)

  ghost function Outputs<P>(released: seq<(u64, WorkerOutput<P>)>): seq<WorkerOutput<P>> {
    seq(|released|, i requires 0 <= i < |released| => released[i].1)
  }

  class TokioDispatcher<P> {
    const buffer: OrderedCommitBuffer<WorkerOutput<P>>

    constructor (startHeight: u64, reorderCapacity: nat)
      ensures fresh(buffer)
      ensures buffer.State() == Buffer(startHeight, map[], 0) && Valid(buffer.State())
    {
      buffer := new OrderedCommitBuffer(startHeight, reorderCapacity);
    }

    /** What a worker captures when it takes a block. */
    method Generation() returns (g: nat)
      ensures g == buffer.State().generation
    {
      g := buffer.generation;
    }

    /** Everything now ready to commit, in height order. */
    method TakeCommittable(generation: nat, output: WorkerOutput<P>) returns (ready: seq<WorkerOutput<P>>)
      requires Valid(buffer.State()) && output.height < U64_MAX
      modifies buffer
      ensures Valid(buffer.State())
      ensures var (after, released) := Completed(old(buffer.State()), generation, output.height, output);
              buffer.State() == after && ready == Outputs(released)
    {
      var released := buffer.CompleteFrom(generation, output.height, output);
      ready := seq(|released|, i requires 0 <= i < |released| => released[i].1);
    }

    method ResetTo(height: u64) returns (discarded: nat)
      modifies buffer
      ensures (buffer.State(), discarded) == OrderedCommit.ResetTo(old(buffer.State()), height)
      ensures Valid(buffer.State())
    {
      discarded := buffer.Reset(height);
    }
  }

  // ---------------------------------------------------------------- whole runs

  datatype Event<P> =
    | PickUp(worker: nat)
    | Finish(worker: nat, height: Height, payload: P)  // possibly late, possibly repeated
    | Reset(target: u64)     // a rewind drops what is queued
    | Truncate(target: u64)  // and then, in its own transaction, the committed rows

  /**
   The buffer, what each worker captured, and the run's history: the height each generation
   began at, every output released in order, the completions taken up and what became of the
   rest of them (replaced by a repeat, or discarded, reset by reset, beside the number that
   reset returned), the committed table, and the rewind begun and not yet carried out on it.
   */
  datatype System<P(==)> = System(
    buffer: Buffer<WorkerOutput<P>>,
    tickets: map<nat, nat>,
    bases: seq<u64>,
    log: seq<WorkerOutput<P>>,
    accepted: multiset<WorkerOutput<P>>,
    replaced: multiset<WorkerOutput<P>>,
    discarded: seq<multiset<WorkerOutput<P>>>,
    counts: seq<nat>,
    table: map<u64, WorkerOutput<P>>,
    rewinding: Option<u64>)

  ghost function Started<P>(start: u64): System<P> {
    System(Buffer(start, map[], 0), map[], [start], [], multiset{}, multiset{}, [], [], map[], None)
  }

  /** Commits released outputs to the table, each under its own height. */
  ghost function CommitAll<P>(table: map<u64, WorkerOutput<P>>, outputs: seq<WorkerOutput<P>>)
    : map<u64, WorkerOutput<P>>
  {
    if outputs == [] then table
    else CommitAll(table, outputs[..|outputs| - 1])[outputs[|outputs| - 1].height := outputs[|outputs| - 1]]
  }

  /** What a buffer holds. Held outputs carry their own heights, so none occurs twice. */
  ghost function Held<P>(b: Buffer<WorkerOutput<P>>): multiset<WorkerOutput<P>> {
    multiset(b.pending.Values)
  }

  /** The completion itself, unless it is dropped as stale. */
  ghost function TakenUp<P>(b: Buffer<WorkerOutput<P>>, generation: nat, output: WorkerOutput<P>)
    : multiset<WorkerOutput<P>>
  {
    if IsCurrent(b, generation, output.height) then multiset{output} else multiset{}
  }

  /** What the completion pushes out: an earlier output of its height that is still waiting. */
  ghost function PushedOut<P>(b: Buffer<WorkerOutput<P>>, generation: nat, height: u64): multiset<WorkerOutput<P>> {
    if IsCurrent(b, generation, height) && height in b.pending then multiset{b.pending[height]} else multiset{}
  }

  ghost function Finished<P>(sys: System<P>, generation: nat, height: Height, payload: P): System<P>
    requires Valid(sys.buffer)
  {
    var output := WorkerOutput(height, generation, payload);
    var (after, released) := Completed(sys.buffer, generation, height, output);
    sys.(buffer := after,
         log := sys.log + Outputs(released),
         accepted := sys.accepted + TakenUp(sys.buffer, generation, output),
         replaced := sys.replaced + PushedOut(sys.buffer, generation, height),
         table := CommitAll(sys.table, Outputs(released)))
  }

  /** The committed table after rewinding to below a height. */
  ghost function Below<P>(table: map<u64, WorkerOutput<P>>, height: u64): map<u64, WorkerOutput<P>> {
    map h | h in table && h < height :: table[h]
  }

  ghost function Cleared<P>(sys: System<P>, height: u64): System<P> {
    var (after, dropped) := OrderedCommit.ResetTo(sys.buffer, height);
    sys.(buffer := after,
         bases := sys.bases + [height],
         discarded := sys.discarded + [Held(sys.buffer)],
         counts := sys.counts + [dropped],
         rewinding := Some(height))
  }

  ghost function Step<P>(sys: System<P>, e: Event<P>): System<P>
    requires Valid(sys.buffer)
  {
    match e
    case PickUp(worker) => sys.(tickets := sys.tickets[worker := sys.buffer.generation])
    case Finish(worker, height, payload) =>
      if worker in sys.tickets then Finished(sys, sys.tickets[worker], height, payload) else sys
    case Reset(target) => Cleared(sys, target)
    case Truncate(target) => sys.(table := Below(sys.table, target), rewinding := None)
  }

  ghost function Run<P>(sys: System<P>, events: seq<Event<P>>): (r: System<P>)
    requires Valid(sys.buffer)
    ensures Valid(r.buffer)
  {
    if events == [] then sys else Step(Run(sys, events[..|events| - 1]), events[|events| - 1])
  }

  // ---------------------------------------------------------------- one completion

  /** Everything held carries its own height and was captured under the current generation. */
  ghost predicate Tagged<P>(b: Buffer<WorkerOutput<P>>) {
    && Valid(b)
    && forall h :: h in b.pending ==> b.pending[h].height == h && b.pending[h].captured == b.generation
  }

  /** What one completion releases: consecutive heights from the old cursor, all of this generation. */
  ghost predicate IsRelease<P>(outputs: seq<WorkerOutput<P>>, from: nat, generation: nat) {
    forall i :: 0 <= i < |outputs| ==> outputs[i].height == from + i && outputs[i].captured == generation
  }

  /** One completion: what it releases, and where it leaves the cursor. */
  lemma {:induction false} CompletionReleases<P>(b: Buffer<WorkerOutput<P>>, generation: nat, height: Height,
                                                 payload: P)
    requires Tagged(b)
    ensures var (after, released) := Completed(b, generation, height, WorkerOutput(height, generation, payload));
            && Tagged(after)
            && after.generation == b.generation
            && after.nextExpected == b.nextExpected + |released|
            && IsRelease(Outputs(released), b.nextExpected, b.generation)
  {
    if IsCurrent(b, generation, height) {
      var held := b.pending[height := WorkerOutput(height, generation, payload)];
      assert forall h :: h in held ==> held[h].height == h && held[h].captured == b.generation;
    }
  }

  lemma OneMoreHeld<P>(rest: map<u64, WorkerOutput<P>>, output: WorkerOutput<P>)
    requires output.height !in rest && forall h :: h in rest ==> rest[h].height == h
    ensures multiset(rest[output.height := output].Values) == multiset(rest.Values) + multiset{output}
  {
    var more := rest[output.height := output];
    assert output !in rest.Values;
    forall o ensures o in more.Values <==> o in rest.Values || o == output {
      if o in rest.Values {
        var h :| h in rest && rest[h] == o;
        assert h in more && more[h] == o;
      }
      assert output.height in more && more[output.height] == output;
    }
    assert more.Values == rest.Values + {output};
  }

  /** Holding one more output adds it, and pushes out what was held at its height. */
  lemma {:induction false} HoldingAdds<P>(pending: map<u64, WorkerOutput<P>>, output: WorkerOutput<P>)
    requires forall h :: h in pending ==> pending[h].height == h
    ensures multiset(pending[output.height := output].Values) +
              (if output.height in pending then multiset{pending[output.height]} else multiset{}) ==
            multiset(pending.Values) + multiset{output}
  {
    var rest := pending - {output.height};
    OneMoreHeld(rest, output);
    assert pending[output.height := output] == rest[output.height := output];
    if output.height in pending {
      OneMoreHeld(rest, pending[output.height]);
      assert pending == rest[output.height := pending[output.height]];
    } else {
      assert pending == rest;
    }
  }

  /** What is held is the run released and the rest kept, with nothing lost and nothing new. */
  lemma {:induction false} RunAndRest<P>(held: map<u64, WorkerOutput<P>>, low: nat, high: nat)
    requires low <= high && forall h: nat :: low <= h < high ==> h in held
    requires forall h :: h in held ==> low <= h && held[h].height == h
    ensures multiset(held.Values) ==
            multiset(Outputs(Released(held, low, high))) + multiset(AtOrAbove(held, high).Values)
    decreases high
  {
    if low == high {
      assert AtOrAbove(held, high) == held;
      assert Outputs(Released(held, low, high)) == [];
    } else {
      RunAndRest(held, low, high - 1);
      OneMoreHeld(AtOrAbove(held, high), held[high - 1]);
      assert AtOrAbove(held, high - 1) == AtOrAbove(held, high)[high - 1 := held[high - 1]];
      assert Outputs(Released(held, low, high)) == Outputs(Released(held, low, high - 1)) + [held[high - 1]];
    }
  }

  /**
   Output by output, a completion conserves: what it releases, what stays held and what it pushes
   out are together what was held before and the completion itself, if it was taken up at all.
   */
  lemma {:induction false} CompletionConserves<P>(b: Buffer<WorkerOutput<P>>, generation: nat, height: Height,
                                                  payload: P)
    requires Tagged(b)
    ensures var output := WorkerOutput(height, generation, payload);
            var (after, released) := Completed(b, generation, height, output);
            multiset(Outputs(released)) + Held(after) + PushedOut(b, generation, height) ==
            Held(b) + TakenUp(b, generation, output)
  {
    var output := WorkerOutput(height, generation, payload);
    if IsCurrent(b, generation, height) {
      var held := b.pending[height := output];
      var next := FirstMissing(b.nextExpected, held.Keys);
      HoldingAdds(b.pending, output);
      RunAndRest(held, b.nextExpected, next);
    } else {
      var none: seq<(u64, WorkerOutput<P>)> := [];
      assert Outputs(none) == [];
    }
  }

  /** A reset's count is the number of outputs it drops. */
  lemma {:induction false} HeldSize<P>(pending: map<u64, WorkerOutput<P>>)
    requires forall h :: h in pending ==> pending[h].height == h
    ensures |multiset(pending.Values)| == |pending|
    decreases |pending|
  {
    if pending == map[] {
      assert pending.Values == {};
    } else {
      var h :| h in pending;
      var rest := pending - {h};
      assert rest.Keys == pending.Keys - {h};
      HeldSize(rest);
      OneMoreHeld(rest, pending[h]);
      assert pending == rest[h := pending[h]];
    }
  }

  // ---------------------------------------------------------------- generations

  /** The heights released by work captured under one generation, in release order. */
  ghost function HeightsOf<P>(log: seq<WorkerOutput<P>>, generation: nat): seq<u64> {
    if log == [] then []
    else
      var last := log[|log| - 1];
      HeightsOf(log[..|log| - 1], generation) + (if last.captured == generation then [last.height] else [])
  }

  ghost predicate Consecutive(heights: seq<u64>, from: nat) {
    forall i :: 0 <= i < |heights| ==> heights[i] == from + i
  }

  /** Adding a release of one generation extends that generation's heights and no other's. */
  lemma {:induction false} HeightsOfRelease<P>(log: seq<WorkerOutput<P>>, outputs: seq<WorkerOutput<P>>, from: nat,
                                               released: nat, generation: nat)
    requires IsRelease(outputs, from, released)
    ensures var was, now := HeightsOf(log, generation), HeightsOf(log + outputs, generation);
            && was <= now
            && |now| == |was| + (if generation == released then |outputs| else 0)
            && Consecutive(now[|was|..], from)
  {
    if outputs == [] {
      assert log + outputs == log;
    } else {
      var rest := outputs[..|outputs| - 1];
      HeightsOfRelease(log, rest, from, released, generation);
      assert (log + outputs)[..|log + outputs| - 1] == log + rest;
    }
  }

  ghost predicate GenerationsInv<P>(sys: System<P>) {
    && Tagged(sys.buffer)
    && |sys.bases| == sys.buffer.generation + 1
    && (forall w :: w in sys.tickets ==> sys.tickets[w] <= sys.buffer.generation)
    && (forall i :: 0 <= i < |sys.log| ==> sys.log[i].captured <= sys.buffer.generation)
    && (forall g :: 0 <= g <= sys.buffer.generation ==> Consecutive(HeightsOf(sys.log, g), sys.bases[g]))
    && sys.bases[sys.buffer.generation] + |HeightsOf(sys.log, sys.buffer.generation)| == sys.buffer.nextExpected
  }

  /** Nothing has been released yet under a generation that has not begun. */
  lemma {:induction false} FutureGenerationIsEmpty<P>(log: seq<WorkerOutput<P>>, generation: nat)
    requires forall i :: 0 <= i < |log| ==> log[i].captured < generation
    ensures HeightsOf(log, generation) == []
  {
    if log == [] {
    } else {
      FutureGenerationIsEmpty(log[..|log| - 1], generation);
    }
  }

  lemma {:induction false} ExtendGeneration<P>(sys: System<P>, outputs: seq<WorkerOutput<P>>, g: nat)
    requires GenerationsInv(sys) && g <= sys.buffer.generation
    requires IsRelease(outputs, sys.buffer.nextExpected, sys.buffer.generation)
    ensures Consecutive(HeightsOf(sys.log + outputs, g), sys.bases[g])
    ensures |HeightsOf(sys.log + outputs, g)| ==
            |HeightsOf(sys.log, g)| + if g == sys.buffer.generation then |outputs| else 0
  {
    HeightsOfRelease(sys.log, outputs, sys.buffer.nextExpected, sys.buffer.generation, g);
    var was, now := HeightsOf(sys.log, g), HeightsOf(sys.log + outputs, g);
    assert forall i :: |was| <= i < |now| ==> now[i] == now[|was|..][i - |was|];
  }

  lemma {:induction false} FinishKeepsGenerations<P>(sys: System<P>, generation: nat, height: Height, payload: P)
    requires GenerationsInv(sys)
    ensures GenerationsInv(Finished(sys, generation, height, payload))
  {
    var next := Finished(sys, generation, height, payload);
    var released := Completed(sys.buffer, generation, height, WorkerOutput(height, generation, payload)).1;
    var now := sys.buffer.generation;
    CompletionReleases(sys.buffer, generation, height, payload);
    forall g | 0 <= g <= now ensures Consecutive(HeightsOf(next.log, g), next.bases[g]) {
      ExtendGeneration(sys, Outputs(released), g);
    }
    ExtendGeneration(sys, Outputs(released), now);
  }

  lemma {:induction false} ResetKeepsGenerations<P>(sys: System<P>, target: u64)
    requires GenerationsInv(sys)
    ensures GenerationsInv(Cleared(sys, target))
  {
    var next := Cleared(sys, target);
    var latest := sys.buffer.generation + 1;
    FutureGenerationIsEmpty(sys.log, latest);
    forall g | 0 <= g <= latest ensures Consecutive(HeightsOf(next.log, g), next.bases[g]) {
      if g < latest {
        assert next.bases[g] == sys.bases[g];
      }
    }
  }

  lemma {:induction false} StepKeepsGenerations<P>(sys: System<P>, e: Event<P>)
    requires GenerationsInv(sys)
    ensures GenerationsInv(Step(sys, e))
  {
    match e {
      case PickUp(_) =>
      case Finish(worker, height, payload) =>
        if worker in sys.tickets {
          FinishKeepsGenerations(sys, sys.tickets[worker], height, payload);
        }
      case Reset(target) => ResetKeepsGenerations(sys, target);
      case Truncate(_) =>
    }
  }

  lemma {:induction false} RunKeepsGenerations<P>(sys: System<P>, events: seq<Event<P>>)
    requires GenerationsInv(sys)
    ensures GenerationsInv(Run(sys, events))
  {
    if events == [] {
    } else {
      RunKeepsGenerations(sys, events[..|events| - 1]);
      StepKeepsGenerations(Run(sys, events[..|events| - 1]), events[|events| - 1]);
    }
  }

  lemma OneGeneration<P>(sys: System<P>, g: nat)
    requires GenerationsInv(sys) && g < |sys.bases|
    ensures Consecutive(HeightsOf(sys.log, g), sys.bases[g])
    ensures g == |sys.bases| - 1 ==> sys.bases[g] + |HeightsOf(sys.log, g)| == sys.buffer.nextExpected
  {
  }

  /**
   In any interleaving of pick-ups, late or repeated completions and resets, each generation's
   releases are consecutive from the height it began at, with nothing skipped or repeated, and
   the current one has got exactly to the height the buffer expects next.
   */
  lemma {:induction false} EachGenerationIsContiguous<P>(start: u64, events: seq<Event<P>>, g: nat)
    requires g < |Run(Started(start), events).bases|
    ensures var sys := Run(Started(start), events);
            && Consecutive(HeightsOf(sys.log, g), sys.bases[g])
            && (g == |sys.bases| - 1 ==> sys.bases[g] + |HeightsOf(sys.log, g)| == sys.buffer.nextExpected)
  {
    RunKeepsGenerations(Started(start), events);
    OneGeneration(Run(Started(start), events), g);
  }

  /** One step only adds releases, of the current generation. */
  lemma {:induction false} StepReleasesCurrent<P>(sys: System<P>, e: Event<P>)
    requires GenerationsInv(sys)
    ensures var next := Step(sys, e);
            && sys.log <= next.log && sys.buffer.generation <= next.buffer.generation
            && forall i :: |sys.log| <= i < |next.log| ==> next.log[i].captured == sys.buffer.generation
  {
    if e.Finish? && e.worker in sys.tickets {
      CompletionReleases(sys.buffer, sys.tickets[e.worker], e.height, e.payload);
    }
  }

  /** Every release that follows, however long, is work of a generation at least this one. */
  lemma {:induction false} LaterReleasesAreNewer<P>(sys: System<P>, events: seq<Event<P>>)
    requires GenerationsInv(sys)
    ensures var later := Run(sys, events);
            && GenerationsInv(later)
            && sys.log <= later.log
            && sys.buffer.generation <= later.buffer.generation
            && forall i :: |sys.log| <= i < |later.log| ==> later.log[i].captured >= sys.buffer.generation
  {
    if events == [] {
    } else {
      var before, e := Run(sys, events[..|events| - 1]), events[|events| - 1];
      LaterReleasesAreNewer(sys, events[..|events| - 1]);
      StepKeepsGenerations(before, e);
      StepReleasesCurrent(before, e);
    }
  }

  /**
   Generation safety: once a reset has happened, no output captured by any worker before it is
   ever released, whenever that worker finishes.
   */
  lemma {:induction false} AbandonedWorkIsNeverReleased<P>(start: u64, before: seq<Event<P>>, target: u64,
                                                           after: seq<Event<P>>)
    ensures var atReset := Run(Started(start), before);
            var later := Run(Cleared(atReset, target), after);
            && (forall w :: w in atReset.tickets ==> atReset.tickets[w] <= atReset.buffer.generation)
            && atReset.log <= later.log
            && forall i :: |atReset.log| <= i < |later.log| ==> later.log[i].captured > atReset.buffer.generation
  {
    RunKeepsGenerations(Started(start), before);
    var atReset := Run(Started(start), before);
    StepKeepsGenerations(atReset, Reset(target));
    LaterReleasesAreNewer(Cleared(atReset, target), after);
  }

  // ---------------------------------------------------------------- conservation

  ghost function Total<P>(parts: seq<multiset<WorkerOutput<P>>>): multiset<WorkerOutput<P>> {
    if parts == [] then multiset{} else Total(parts[..|parts| - 1]) + parts[|parts| - 1]
  }

  /** Every completion taken up is accounted for once, and each reset accounts for its own generation. */
  ghost predicate Conserved<P>(sys: System<P>) {
    && sys.accepted == multiset(sys.log) + Held(sys.buffer) + Total(sys.discarded) + sys.replaced
    && |sys.discarded| == |sys.counts| == sys.buffer.generation
    && (forall i :: 0 <= i < |sys.discarded| ==> sys.counts[i] == |sys.discarded[i]|)
    && (forall i, o :: 0 <= i < |sys.discarded| && o in sys.discarded[i] ==> o.captured == i)
  }

  /** One completion in the books: what it adds on either side balances. */
  lemma Balance<T>(accepted: multiset<T>, log: multiset<T>, held: multiset<T>, rest: multiset<T>, replaced: multiset<T>,
                   released: multiset<T>, kept: multiset<T>, pushed: multiset<T>, taken: multiset<T>)
    requires accepted == log + held + rest + replaced
    requires released + kept + pushed == held + taken
    ensures accepted + taken == (log + released) + kept + rest + (replaced + pushed)
  {
    var after := (log + released) + kept + rest + (replaced + pushed);
    forall t ensures (accepted + taken)[t] == after[t] {
      assert (released + kept + pushed)[t] == (held + taken)[t];
    }
  }

  lemma {:induction false} FinishConserves<P>(sys: System<P>, generation: nat, height: Height, payload: P)
    requires GenerationsInv(sys) && Conserved(sys)
    ensures Conserved(Finished(sys, generation, height, payload))
  {
    var output := WorkerOutput(height, generation, payload);
    var (after, released) := Completed(sys.buffer, generation, height, output);
    CompletionConserves(sys.buffer, generation, height, payload);
    Balance(sys.accepted, multiset(sys.log), Held(sys.buffer), Total(sys.discarded), sys.replaced,
            multiset(Outputs(released)), Held(after), PushedOut(sys.buffer, generation, height),
            TakenUp(sys.buffer, generation, output));
  }

  lemma TotalGrows<P>(parts: seq<multiset<WorkerOutput<P>>>, part: multiset<WorkerOutput<P>>)
    ensures Total(parts + [part]) == Total(parts) + part
  {
    assert (parts + [part])[..|parts|] == parts;
  }

  lemma HeldIsTagged<P>(b: Buffer<WorkerOutput<P>>)
    requires Tagged(b)
    ensures forall o :: o in Held(b) ==> o.captured == b.generation
  {
  }

  lemma NothingHeld<P>(b: Buffer<WorkerOutput<P>>)
    requires b.pending == map[]
    ensures Held(b) == multiset{}
  {
    assert b.pending.Values == {};
  }

  lemma {:induction false} ResetConserves<P>(sys: System<P>, target: u64)
    requires GenerationsInv(sys) && Conserved(sys)
    ensures Conserved(Cleared(sys, target))
  {
    HeldSize(sys.buffer.pending);
    TotalGrows(sys.discarded, Held(sys.buffer));
    HeldIsTagged(sys.buffer);
    NothingHeld<P>(Cleared(sys, target).buffer);
  }

  lemma {:induction false} StepConserves<P>(sys: System<P>, e: Event<P>)
    requires GenerationsInv(sys) && Conserved(sys)
    ensures Conserved(Step(sys, e))
  {
    match e {
      case PickUp(_) =>
      case Finish(worker, height, payload) =>
        if worker in sys.tickets {
          FinishConserves(sys, sys.tickets[worker], height, payload);
        }
      case Reset(target) => ResetConserves(sys, target);
      case Truncate(_) =>
    }
  }

  /** No height was taken up twice within one generation. */
  ghost predicate Unrepeated<P>(outputs: multiset<WorkerOutput<P>>) {
    forall o, p :: o in outputs && p in outputs && o.captured == p.captured && o.height == p.height ==>
      o == p && outputs[o] == 1
  }

  /** What this generation has taken up is below the cursor or still held. */
  ghost predicate Accounted<P>(sys: System<P>) {
    forall o :: o in sys.accepted ==>
      && o.captured <= sys.buffer.generation
      && (o.captured == sys.buffer.generation ==> o.height < sys.buffer.nextExpected || o.height in sys.buffer.pending)
  }

  lemma {:induction false} FinishAccounts<P>(sys: System<P>, generation: nat, height: Height, payload: P)
    requires GenerationsInv(sys) && Accounted(sys)
    ensures Accounted(Finished(sys, generation, height, payload))
  {
    CompletionReleases(sys.buffer, generation, height, payload);
    var output := WorkerOutput(height, generation, payload);
    var next := Finished(sys, generation, height, payload);
    forall o | o in next.accepted
      ensures o.captured <= next.buffer.generation
      ensures o.captured == next.buffer.generation ==>
                o.height < next.buffer.nextExpected || o.height in next.buffer.pending
    {
      assert o in sys.accepted || (o == output && IsCurrent(sys.buffer, generation, height));
    }
  }

  ghost predicate HasSlot<P>(outputs: multiset<WorkerOutput<P>>, captured: nat, height: u64) {
    exists o :: o in outputs && o.captured == captured && o.height == height
  }

  lemma {:induction false} OneMoreTaken<P>(outputs: multiset<WorkerOutput<P>>, output: WorkerOutput<P>)
    ensures Unrepeated(outputs + multiset{output}) <==>
            Unrepeated(outputs) && !HasSlot(outputs, output.captured, output.height)
  {
    var more := outputs + multiset{output};
    assert forall o :: o in outputs ==> outputs[o] <= more[o] && o in more;
    assert output in more;
    if output in outputs {
      assert more[output] >= 2;
    }
  }

  /** A completion repeats an earlier one exactly when it pushes that one out. */
  lemma {:induction false} FinishRepeats<P>(sys: System<P>, generation: nat, height: Height, payload: P)
    requires GenerationsInv(sys) && Held(sys.buffer) <= sys.accepted && Accounted(sys)
    ensures var taken := TakenUp(sys.buffer, generation, WorkerOutput(height, generation, payload));
            Unrepeated(sys.accepted + taken) <==>
            Unrepeated(sys.accepted) && PushedOut(sys.buffer, generation, height) == multiset{}
  {
    if IsCurrent(sys.buffer, generation, height) {
      OneMoreTaken(sys.accepted, WorkerOutput(height, generation, payload));
      if height in sys.buffer.pending {
        var earlier := sys.buffer.pending[height];
        assert earlier in Held(sys.buffer) && earlier in sys.accepted;
      }
    } else {
      assert sys.accepted + multiset{} == sys.accepted;
    }
  }

  ghost predicate RepeatInv<P>(sys: System<P>) {
    Accounted(sys) && (sys.replaced == multiset{} <==> Unrepeated(sys.accepted))
  }

  lemma {:induction false} StepKeepsRepeatInv<P>(sys: System<P>, e: Event<P>)
    requires GenerationsInv(sys) && Conserved(sys) && RepeatInv(sys)
    ensures RepeatInv(Step(sys, e))
  {
    if e.Finish? && e.worker in sys.tickets {
      FinishAccounts(sys, sys.tickets[e.worker], e.height, e.payload);
      FinishRepeats(sys, sys.tickets[e.worker], e.height, e.payload);
      var pushed := PushedOut(sys.buffer, sys.tickets[e.worker], e.height);
      assert sys.replaced + pushed == multiset{} <==> sys.replaced == multiset{} && pushed == multiset{} by {
        assert pushed <= sys.replaced + pushed && sys.replaced <= sys.replaced + pushed;
      }
    }
  }

  ghost predicate BooksInv<P>(sys: System<P>) {
    GenerationsInv(sys) && Conserved(sys) && RepeatInv(sys)
  }

  lemma {:induction false} StepKeepsBooks<P>(sys: System<P>, e: Event<P>)
    requires BooksInv(sys)
    ensures BooksInv(Step(sys, e))
  {
    StepKeepsGenerations(sys, e);
    StepConserves(sys, e);
    StepKeepsRepeatInv(sys, e);
  }

  lemma {:induction false} RunKeepsBooks<P>(sys: System<P>, events: seq<Event<P>>)
    requires BooksInv(sys)
    ensures BooksInv(Run(sys, events))
  {
    if events == [] {
    } else {
      RunKeepsBooks(sys, events[..|events| - 1]);
      StepKeepsBooks(Run(sys, events[..|events| - 1]), events[|events| - 1]);
    }
  }

  lemma {:induction false} StartedBooks<P>(start: u64)
    ensures BooksInv(Started<P>(start))
  {
    var sys := Started<P>(start);
    NothingHeld(sys.buffer);
    assert Unrepeated(sys.accepted);
  }

  /**
   Conservation, output by output: over every run, the completions taken up are exactly those
   released, those still pending, those each reset dropped (all of the generation it ended, as
   many as it reported) and those a repeat replaced; and whatever is pending is above the height
   the buffer expects.
   */
  lemma {:induction false} CompletionsAreConserved<P>(start: u64, events: seq<Event<P>>)
    ensures var sys := Run(Started(start), events);
            Conserved(sys) && forall h :: h in sys.buffer.pending ==> h > sys.buffer.nextExpected
  {
    StartedBooks<P>(start);
    RunKeepsBooks(Started(start), events);
  }

  /**
   Something is lost to a repeat exactly when some height is taken up twice in one generation:
   without such repeats every completion taken up is released, pending or dropped by a reset.
   */
  lemma {:induction false} NothingReplacedIffUnrepeated<P>(start: u64, events: seq<Event<P>>)
    ensures var sys := Run(Started(start), events);
            && (sys.replaced == multiset{} <==> Unrepeated(sys.accepted))
            && (Unrepeated(sys.accepted) ==>
                  sys.accepted == multiset(sys.log) + Held(sys.buffer) + Total(sys.discarded))
  {
    StartedBooks<P>(start);
    RunKeepsBooks(Started(start), events);
  }

  // ---------------------------------------------------------------- committed state

  /** The generation a height belongs to: the last one that began at or below it. */
  ghost function Owner(bases: seq<u64>, height: u64): (g: nat)
    requires bases != [] && bases[0] <= height
    ensures g < |bases| && bases[g] <= height
    ensures forall later :: g < later < |bases| ==> height < bases[later]
  {
    if bases[|bases| - 1] <= height then |bases| - 1 else Owner(bases[..|bases| - 1], height)
  }

  /**
   What the runs below are asked to respect: a rewind goes to a height already committed or the
   next one, never before the start; it clears the buffer first and truncates the table after, with
   fetching paused in between, whatever late work still finishes; and a worker's payload is that of
   the block at its height on the branch it was started on.
   */
  ghost predicate Lawful<P(!new)>(start: u64, events: seq<Event<P>>, branch: (nat, u64) -> P) {
    events != [] ==>
      var earlier, e := events[..|events| - 1], events[|events| - 1];
      var sys := Run(Started(start), earlier);
      && Lawful(start, earlier, branch)
      && (e.PickUp? ==> sys.rewinding.None?)
      && (e.Reset? ==> sys.rewinding.None? && start <= e.target <= sys.buffer.nextExpected)
      && (e.Truncate? ==> sys.rewinding == Some(e.target))
      && (e.Finish? && e.worker in sys.tickets ==> e.payload == branch(sys.tickets[e.worker], e.height))
  }

  /** The block a height should hold: the one on the branch that owns the height. */
  ghost function Rightful<P>(bases: seq<u64>, height: u64, branch: (nat, u64) -> P): WorkerOutput<P>
    requires bases != [] && bases[0] <= height
  {
    WorkerOutput(height, Owner(bases, height), branch(Owner(bases, height), height))
  }

  ghost function Replayed<P>(bases: seq<u64>, next: u64, branch: (nat, u64) -> P): map<u64, WorkerOutput<P>>
    requires bases != []
  {
    map h: u64 | bases[0] <= h < next :: Rightful(bases, h, branch)
  }

  ghost predicate IsReplay<P>(table: map<u64, WorkerOutput<P>>, bases: seq<u64>, next: u64, branch: (nat, u64) -> P)
    requires bases != []
  {
    && (forall h: u64 :: h in table <==> bases[0] <= h < next)
    && (forall h: u64 :: bases[0] <= h < next ==> table[h] == Rightful(bases, h, branch))
  }

  ghost predicate OnBranch<P>(b: Buffer<WorkerOutput<P>>, branch: (nat, u64) -> P) {
    forall h :: h in b.pending ==> b.pending[h].payload == branch(b.generation, h)
  }

  ghost predicate TableInv<P>(start: u64, sys: System<P>, branch: (nat, u64) -> P) {
    && sys.bases != []
    && sys.bases[0] == start <= sys.buffer.nextExpected
    && sys.bases[|sys.bases| - 1] <= sys.buffer.nextExpected
    && OnBranch(sys.buffer, branch)
    && match sys.rewinding
       case None => IsReplay(sys.table, sys.bases, sys.buffer.nextExpected, branch)
       case Some(target) =>
         && target == sys.buffer.nextExpected
         && (forall w :: w in sys.tickets ==> sys.tickets[w] < sys.buffer.generation)
         && IsReplay(Below(sys.table, target), sys.bases, target, branch)
  }

  lemma {:induction false} CommitAllAdds<P>(table: map<u64, WorkerOutput<P>>, outputs: seq<WorkerOutput<P>>, from: nat)
    requires forall i :: 0 <= i < |outputs| ==> outputs[i].height == from + i
    ensures var after := CommitAll(table, outputs);
            && (forall h :: h in after <==> h in table || from <= h < from + |outputs|)
            && (forall h :: h in after ==>
                  after[h] == if from <= h < from + |outputs| then outputs[h - from] else table[h])
  {
    if outputs == [] {
    } else {
      CommitAllAdds(table, outputs[..|outputs| - 1], from);
    }
  }

  /** Payloads follow their branch through one completion. */
  lemma {:induction false} CompletionKeepsPayloads<P>(b: Buffer<WorkerOutput<P>>, generation: nat, height: Height,
                                                      branch: (nat, u64) -> P)
    requires Tagged(b) && OnBranch(b, branch)
    ensures var output := WorkerOutput(height, generation, branch(generation, height));
            var (after, released) := Completed(b, generation, height, output);
            && OnBranch(after, branch)
            && (forall i :: 0 <= i < |Outputs(released)| ==>
                  Outputs(released)[i].payload == branch(b.generation, b.nextExpected + i))
  {
  }

  /** The newest branch owns everything from the cursor on. */
  lemma {:induction false} ReleaseExtendsReplay<P>(table: map<u64, WorkerOutput<P>>, bases: seq<u64>, from: u64,
                                                   outputs: seq<WorkerOutput<P>>, branch: (nat, u64) -> P)
    requires bases != [] && bases[0] <= from && bases[|bases| - 1] <= from && from + |outputs| <= U64_MAX
    requires IsReplay(table, bases, from, branch)
    requires IsRelease(outputs, from, |bases| - 1)
    requires forall i :: 0 <= i < |outputs| ==> outputs[i].payload == branch(|bases| - 1, from + i)
    ensures IsReplay(CommitAll(table, outputs), bases, from + |outputs|, branch)
  {
    var after := CommitAll(table, outputs);
    CommitAllAdds(table, outputs, from);
    forall h: u64 | bases[0] <= h < from + |outputs| ensures h in after && after[h] == Rightful(bases, h, branch) {
      assert h in table || from <= h;
      if from <= h {
        assert outputs[h - from].payload == branch(|bases| - 1, h);
      } else {
        assert after[h] == table[h];
      }
    }
  }

  /** One completion, seen by the table alone. */
  lemma {:induction false} CompletionExtendsReplay<P>(table: map<u64, WorkerOutput<P>>, bases: seq<u64>,
                                                      b: Buffer<WorkerOutput<P>>, generation: nat, height: Height,
                                                      branch: (nat, u64) -> P)
    requires Tagged(b) && OnBranch(b, branch)
    requires |bases| == b.generation + 1 && bases[0] <= b.nextExpected && bases[b.generation] <= b.nextExpected
    requires IsReplay(table, bases, b.nextExpected, branch)
    ensures var output := WorkerOutput(height, generation, branch(generation, height));
            var (after, released) := Completed(b, generation, height, output);
            && OnBranch(after, branch)
            && b.nextExpected <= after.nextExpected
            && IsReplay(CommitAll(table, Outputs(released)), bases, after.nextExpected, branch)
  {
    CompletionReleases(b, generation, height, branch(generation, height));
    CompletionKeepsPayloads(b, generation, height, branch);
    var released := Completed(b, generation, height, WorkerOutput(height, generation, branch(generation, height))).1;
    ReleaseExtendsReplay(table, bases, b.nextExpected, Outputs(released), branch);
  }

  /** A generation that begins higher up leaves the owner of a height as it was. */
  lemma OwnerBelow(bases: seq<u64>, target: u64, height: u64)
    requires bases != [] && bases[0] <= height < target
    ensures Owner(bases + [target], height) == Owner(bases, height)
  {
    assert (bases + [target])[..|bases|] == bases;
  }

  lemma {:induction false} RewindKeepsReplay<P>(table: map<u64, WorkerOutput<P>>, bases: seq<u64>, next: u64,
                                                target: u64,
                                                branch: (nat, u64) -> P)
    requires bases != [] && bases[0] <= target <= next && IsReplay(table, bases, next, branch)
    ensures IsReplay(Below(table, target), bases + [target], target, branch)
  {
    var after := Below(table, target);
    forall h: u64 | bases[0] <= h < target ensures h in after && after[h] == Rightful(bases + [target], h, branch) {
      OwnerBelow(bases, target, h);
      assert h in table && after[h] == table[h];
    }
  }

  lemma {:induction false} ResetKeepsTable<P>(start: u64, sys: System<P>, target: u64, branch: (nat, u64) -> P)
    requires GenerationsInv(sys) && TableInv(start, sys, branch)
    requires sys.rewinding.None? && start <= target <= sys.buffer.nextExpected
    ensures TableInv(start, Cleared(sys, target), branch)
  {
    RewindKeepsReplay(sys.table, sys.bases, sys.buffer.nextExpected, target, branch);
  }

  /** While a rewind is under way, whatever finishes is stale. */
  lemma {:induction false} FinishKeepsTable<P>(start: u64, sys: System<P>, generation: nat, height: Height,
                                               branch: (nat, u64) -> P)
    requires GenerationsInv(sys) && TableInv(start, sys, branch)
    requires sys.rewinding.Some? ==> generation < sys.buffer.generation
    ensures TableInv(start, Finished(sys, generation, height, branch(generation, height)), branch)
  {
    if sys.rewinding.None? {
      CompletionExtendsReplay(sys.table, sys.bases, sys.buffer, generation, height, branch);
    } else {
      var none: seq<(u64, WorkerOutput<P>)> := [];
      assert Outputs(none) == [];
    }
  }

  lemma {:induction false} RunKeepsTable<P(!new)>(start: u64, events: seq<Event<P>>, branch: (nat, u64) -> P)
    requires Lawful(start, events, branch)
    ensures GenerationsInv(Run(Started(start), events))
    ensures TableInv(start, Run(Started(start), events), branch)
  {
    if events == [] {
    } else {
      var earlier, e := events[..|events| - 1], events[|events| - 1];
      RunKeepsTable(start, earlier, branch);
      var sys := Run(Started(start), earlier);
      StepKeepsGenerations(sys, e);
      match e {
        case PickUp(_) =>
        case Finish(worker, height, _) =>
          if worker in sys.tickets {
            FinishKeepsTable(start, sys, sys.tickets[worker], height, branch);
          }
        case Reset(target) => ResetKeepsTable(start, sys, target, branch);
        case Truncate(_) =>
      }
    }
  }

  lemma {:induction false} ReplayIsReplayed<P>(table: map<u64, WorkerOutput<P>>, bases: seq<u64>, next: u64,
                                               branch: (nat, u64) -> P)
    requires bases != [] && IsReplay(table, bases, next, branch)
    ensures table == Replayed(bases, next, branch)
  {
    assert table.Keys == Replayed(bases, next, branch).Keys;
  }

  lemma {:induction false} TableIsReplayed<P>(start: u64, sys: System<P>, branch: (nat, u64) -> P)
    requires TableInv(start, sys, branch)
    ensures (if sys.rewinding.Some? then Below(sys.table, sys.rewinding.value) else sys.table) ==
            Replayed(sys.bases, sys.buffer.nextExpected, branch)
  {
    var rows := if sys.rewinding.Some? then Below(sys.table, sys.rewinding.value) else sys.table;
    ReplayIsReplayed(rows, sys.bases, sys.buffer.nextExpected, branch);
  }

  /**
   The committed state of a whole run, however work was interleaved, delayed, repeated or cut
   off by reorgs, is what indexing the surviving branches one block after another would leave:
   every height from the start up to the cursor, each holding its own branch's block. Only the
   reset heights and the cursor are left of the interleaving. Midway through a rewind this is so of
   the rows it will leave.
   */
  lemma {:induction false} CommittedStateIsReplay<P(!new)>(start: u64, events: seq<Event<P>>, branch: (nat, u64) -> P)
    requires Lawful(start, events, branch)
    ensures var sys := Run(Started(start), events);
            && sys.bases != [] && sys.bases[0] == start
            && (if sys.rewinding.Some? then Below(sys.table, sys.rewinding.value) else sys.table) ==
               Replayed(sys.bases, sys.buffer.nextExpected, branch)
  {
    RunKeepsTable(start, events, branch);
    TableIsReplayed(start, Run(Started(start), events), branch);
  }

  /** The first block commits as soon as it arrives. */
  lemma FirstBlockCommits<P>(sys: System<P>, payload: P)
    requires sys.buffer == Buffer(0, map[], 0) && sys.table == map[]
    ensures var after := Finished(sys, 0, 0, payload);
            after.buffer == Buffer(1, map[], 0) && after.table == map[0 := WorkerOutput(0, 0, payload)]
  {
    var output := WorkerOutput(0, 0, payload);
    FirstMissingIs(0, {0}, 1);
    assert sys.buffer.pending[0 := output].Keys == {0};
    var released := Completed(sys.buffer, 0, 0, output).1;
    assert Outputs(released) == [output];
    assert [output][..0] == [];
    assert CommitAll(sys.table, [output]) == CommitAll(sys.table, [])[0 := output];
  }

  /** The order matters: truncating before the buffer is cleared lets abandoned work back into the table. */
  lemma TruncatingFirstRestoresAbandoned<P>(payload: P)
    ensures var picked := Step(Started(0), PickUp(0));
            var truncated := Step(picked, Truncate(0));
            var finished := Step(truncated, Finish(0, 0, payload));
            var cleared := Step(finished, Reset(0));
            && cleared.bases == [0, 0] && cleared.buffer.nextExpected == 0
            && cleared.table == map[0 := WorkerOutput(0, 0, payload)]
  {
    var truncated := Step(Step(Started<P>(0), PickUp(0)), Truncate(0));
    FirstBlockCommits(truncated, payload);
  }

  /**
   Work gets done: a worker that picks up now and finishes the expected height has it released at
   once, committed under its own height, and the buffer expects a later one.
   */
  lemma {:induction false} NextBlockCommits<P>(sys: System<P>, worker: nat, payload: P)
    requires GenerationsInv(sys) && sys.buffer.nextExpected < U64_MAX
    ensures var height := sys.buffer.nextExpected;
            var output := WorkerOutput(height, sys.buffer.generation, payload);
            var next := Step(Step(sys, PickUp(worker)), Finish(worker, height, payload));
            && |next.log| > |sys.log| && next.log[|sys.log|] == output
            && next.buffer.nextExpected > height
            && height in next.table && next.table[height] == output
  {
    var picked := Step(sys, PickUp(worker));
    var height, generation := sys.buffer.nextExpected, sys.buffer.generation;
    var output := WorkerOutput(height, generation, payload);
    var (after, released) := Completed(picked.buffer, generation, height, output);
    CompletionReleases(picked.buffer, generation, height, payload);
    OnlyCurrentIsTakenUp(picked.buffer, generation, height, output);
    assert after.nextExpected > height;
    assert released[0] == (height, output);
    CommitAllAdds(picked.table, Outputs(released), height);
  }

  // ---------------------------------------------------------------- with the planner

  lemma {:induction false} WholeRunIsReleased<T>(low: u64, high: u64, generation: nat, arrivals: seq<Height>,
                                                 value: u64 -> T)
    requires low <= high < U64_MAX
    requires forall h: u64 :: h in arrivals <==> low <= h <= high
    ensures var (after, released) := Deliver(Buffer(low, map[], generation), arrivals, value);
            && after == Buffer(high + 1, map[], generation)
            && |released| == high + 1 - low
            && forall i :: 0 <= i < |released| ==> released[i] == (low + i, value(low + i))
  {
    var delivered := Delivered(arrivals);
    FirstMissingIs(low, delivered, high + 1);
    ReleasesAreTheDeliveredRun(low, generation, arrivals, value);
    assert Waiting(delivered, high + 1, value) == map[];
  }

  /**
   A planned batch, delivered in any order and with repeats to a buffer that expects its first
   height, is released whole and in order, and leaves nothing behind.
   */
  lemma {:induction false} PlannedBatchCommitsInOrder<T>(plan: RangePlan, next: u64, ceiling: u64, size: u32,
                                                         generation: nat, arrivals: seq<Height>, value: u64 -> T)
    requires BatchAt(plan, next, ceiling, size).Some? && ceiling < U64_MAX
    requires var range := BatchAt(plan, next, ceiling, size).value;
             forall h :: h in arrivals <==> h in plan.HeightsIn(range)
    ensures var range := BatchAt(plan, next, ceiling, size).value;
            var (after, released) := Deliver(Buffer(range.start, map[], generation), arrivals, value);
            && after == Buffer(range.end + 1, map[], generation)
            && |released| == |plan.HeightsIn(range)|
            && forall i :: 0 <= i < |released| ==>
                 released[i] == (plan.HeightsIn(range)[i], value(plan.HeightsIn(range)[i]))
  {
    var range := BatchAt(plan, next, ceiling, size).value;
    var heights := plan.HeightsIn(range);
    BatchIsMaximal(plan, next, ceiling, size);
    OpenRunIsWhole(plan, range.start, range.end);
    forall h: u64 | range.start <= h <= range.end ensures h in heights {
      assert heights[h - range.start] == h;
    }
    WholeRunIsReleased(range.start, range.end, generation, arrivals, value);
  }
}
