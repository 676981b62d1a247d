/**
 One reorg after another (crates/core/src/finality/tracker.rs, crates/store/src/checkpoint.rs): the
 canonical chain changes any number of times, and after each change the table is checked and
 repaired. Whatever happened before, it ends as a run of the last chain alone would leave it.
 */
module ReorgRuns {
  import opened Prelude
  import opened Chain
  import opened Checkpoints
  import opened Reorg
  import opened FinalityTracking
  import opened ReorgRepair

  /** The chain at the time of one check, what the adapter answers, and the labels of what is committed. */
  datatype Episode = Episode(
    canon: map<u64, Header>, base: u64, head: u64,
    headerAt: u64 -> Answer,
    finality: u64 -> Finality)

  /** The assumption on hashing, for all chains at once: a block's hash determines the parent it names. */
  type Hashing = (u64, string) -> Option<string>

  ghost predicate RowsFollow(blocks: Blocks, parentOf: Hashing) {
    forall h :: h in blocks ==> blocks[h].parentHash == parentOf(h, blocks[h].hash)
  }

  /** A linked chain from no higher than `low`, truthfully reported. */
  ghost predicate Lawful(e: Episode, low: u64, parentOf: Hashing) {
    && e.base <= low && e.head <= I64_MAX && LinkedChain(e.canon, e.base, e.head)
    && (forall h: u64 :: e.headerAt(h) == if h in e.canon then Found(e.canon[h].hash) else Missing)
    && (forall h :: h in e.canon ==> e.canon[h].parentHash == parentOf(h, e.canon[h].hash))
  }

  /** The check of a table over `[low, tip]`, which searches `depth` heights down from the tip. */
  ghost function ForkAt(blocks: Blocks, low: u64, tip: u64, depth: u64, e: Episode): Fork {
    Fork(blocks, low, tip, e.canon, e.base, e.head, e.headerAt, SatSub(tip, depth))
  }

  ghost function OkOf(r: Result<Tables, StoreError>): Option<Tables> {
    match r
    case Ok(t) => Some(t)
    case Err(_) => None
  }

  /** Index on when canonical, truncate and index on from a fork; a fork beyond history is not repaired. */
  ghost function Handled(t: Tables, f: Fork, finality: u64 -> Finality): Option<Tables> {
    match f.Decision()
    case Canonical => OkOf(CommitRange(t, f.canon, f.tip + 1, f.head, finality))
    case Rewind(ancestor, _) => OkOf(Repaired(t, f, ancestor.height, finality))
    case BeyondHistory(_) => None
  }

  ghost function TipAfter(tip: u64, episodes: seq<Episode>): u64 {
    if episodes == [] then tip else episodes[|episodes| - 1].head
  }

  ghost function AllHandled(t: Tables, low: u64, tip: u64, depth: u64, episodes: seq<Episode>): Option<Tables> {
    if episodes == [] then Some(t)
    else
      var earlier, e := episodes[..|episodes| - 1], episodes[|episodes| - 1];
      match AllHandled(t, low, tip, depth, earlier)
      case None => None
      case Some(before) => Handled(before, ForkAt(before.blocks, low, TipAfter(tip, earlier), depth, e), e.finality)
  }

  // ---------------------------------------------------------------- one check

  /** A row on the chain is the canonical one, parent hash included. */
  lemma {:induction false} RowOnChain(f: Fork, h: u64)
    requires f.Valid() && f.low <= h <= f.tip && f.OnChain(h)
    ensures h in f.blocks && IsRowOf(f.blocks[h], f.canon, h)
  {
  }

  lemma {:induction false} CanonicalIndexesOn(t: Tables, f: Fork, finality: u64 -> Finality)
    requires f.Valid() && t.blocks == f.blocks && f.Decision().Canonical?
    ensures f.low <= f.head && CommitRange(t, f.canon, f.tip + 1, f.head, finality).Ok?
    ensures HoldsCanonical(CommitRange(t, f.canon, f.tip + 1, f.head, finality).value.blocks, f)
  {
    CanonicalCoversTable(f);
    RowOnChain(f, f.tip);
    forall h: u64 | h in t.blocks ensures IsRowOf(t.blocks[h], f.canon, h) {
      RowOnChain(f, h);
    }
    CommitOnTop(t, f.canon, f.low, f.tip, f.head, finality);
  }

  /**
   A check is beyond repair exactly when the lowest row its search can reach is off the chain: the
   fork lies deeper than the search.
   */
  lemma {:induction false} BeyondIffTooDeep(f: Fork)
    requires f.Valid()
    ensures f.Decision().BeyondHistory? <==> !f.OnChain(Max(f.low, f.floor))
  {
    var lowest: u64 := Max(f.low, f.floor);
    assert lowest in StoredIn(f.blocks, f.floor, f.tip);
    if f.OnChain(lowest) {
      if f.Decision().BeyondHistory? {
        BeyondMeans(f.blocks, f.tip, f.floor, f.headerAt, f.Decision().oldestKnown);
      }
    } else {
      forall h | h in StoredIn(f.blocks, f.floor, f.tip) ensures lowest <= h && !f.OnChain(h) {
        if f.OnChain(h) {
          AgreementDescends(f, h, lowest);
        }
      }
      BeyondMeans(f.blocks, f.tip, f.floor, f.headerAt, lowest);
    }
  }

  /** One check and its repair: stuck on a fork too deep, and otherwise on the canonical chain. */
  lemma {:induction false} HandledIsCanonical(t: Tables, f: Fork, finality: u64 -> Finality)
    requires f.Valid() && t.blocks == f.blocks
    ensures Handled(t, f, finality).None? <==> !f.OnChain(Max(f.low, f.floor))
    ensures Handled(t, f, finality).Some? ==> f.low <= f.head && HoldsCanonical(Handled(t, f, finality).value.blocks, f)
  {
    BeyondIffTooDeep(f);
    match f.Decision() {
      case Canonical => CanonicalIndexesOn(t, f, finality);
      case Rewind(ancestor, depth) =>
        AncestorSplitsTable(f, ancestor, depth);
        RepairedRows(t, f, ancestor.height, finality);
      case BeyondHistory(_) =>
    }
  }

  /** Up to the ancestor, or the old tip when nothing is undone. */
  ghost function KeptBy(f: Fork): u64 {
    match f.Decision()
    case Rewind(ancestor, _) => ancestor.height
    case _ => f.tip
  }

  lemma {:induction false} TipIsUnderHead(f: Fork)
    requires f.Valid() && f.Decision().Canonical?
    ensures f.tip <= f.head
  {
    CanonicalCoversTable(f);
    RowOnChain(f, f.tip);
  }

  lemma {:induction false} CanonicalRowsAre(t: Tables, f: Fork, finality: u64 -> Finality)
    requires f.Valid() && t.blocks == f.blocks && f.Decision().Canonical?
    ensures var r := CommitRange(t, f.canon, f.tip + 1, f.head, finality);
            r.Ok? && KeptThenCommitted(t, f.canon, f.low, f.tip, f.head, finality, r.value)
  {
    TipIsUnderHead(f);
    CommitAfterKept(t, t, f.canon, f.low, f.tip, f.head, finality);
  }

  lemma {:induction false} RewoundRowsAre(t: Tables, f: Fork, ancestor: BlockPtr, depth: nat, finality: u64 -> Finality)
    requires f.Valid() && t.blocks == f.blocks && f.Decision() == Rewind(ancestor, depth)
    ensures var r := Repaired(t, f, ancestor.height, finality);
            r.Ok? && KeptThenCommitted(t, f.canon, f.low, ancestor.height, f.head, finality, r.value)
  {
    AncestorSplitsTable(f, ancestor, depth);
    RepairedRowsAre(t, f, ancestor.height, finality);
  }

  /** What is kept is untouched, and what is committed carries the labels of this check. */
  lemma {:induction false} HandledRowsAre(t: Tables, f: Fork, finality: u64 -> Finality)
    requires f.Valid() && t.blocks == f.blocks && Handled(t, f, finality).Some?
    ensures KeptThenCommitted(t, f.canon, f.low, KeptBy(f), f.head, finality, Handled(t, f, finality).value)
  {
    match f.Decision() {
      case Canonical => CanonicalRowsAre(t, f, finality);
      case Rewind(ancestor, depth) => RewoundRowsAre(t, f, ancestor, depth, finality);
      case BeyondHistory(_) =>
    }
  }

  // ---------------------------------------------------------------- any number of them

  /** What is indexed between checks: a linked table that follows the hashes. */
  ghost predicate Indexed(blocks: Blocks, low: u64, tip: u64, parentOf: Hashing) {
    low <= tip && LinkedTable(blocks, low, tip) && RowsFollow(blocks, parentOf)
  }

  lemma {:induction false} ForkIsValid(blocks: Blocks, low: u64, tip: u64, depth: u64, e: Episode, parentOf: Hashing)
    requires Indexed(blocks, low, tip, parentOf) && Lawful(e, low, parentOf)
    ensures ForkAt(blocks, low, tip, depth, e).Valid()
  {
  }

  lemma {:induction false} CanonicalIsIndexed(blocks: Blocks, f: Fork, parentOf: Hashing)
    requires f.Valid() && f.low <= f.head && HoldsCanonical(blocks, f)
    requires forall h :: h in f.canon ==> f.canon[h].parentHash == parentOf(h, f.canon[h].hash)
    ensures Indexed(blocks, f.low, f.head, parentOf)
  {
    CanonicalTableIsLinked(blocks, f);
  }

  lemma {:induction false} AllHandledIsIndexed(t: Tables, low: u64, tip: u64, depth: u64, episodes: seq<Episode>,
                                               parentOf: Hashing)
    requires Indexed(t.blocks, low, tip, parentOf)
    requires forall i :: 0 <= i < |episodes| ==> Lawful(episodes[i], low, parentOf)
    requires AllHandled(t, low, tip, depth, episodes).Some?
    ensures Indexed(AllHandled(t, low, tip, depth, episodes).value.blocks, low, TipAfter(tip, episodes), parentOf)
  {
    if episodes == [] {
    } else {
      var earlier, e := episodes[..|episodes| - 1], episodes[|episodes| - 1];
      AllHandledIsIndexed(t, low, tip, depth, earlier, parentOf);
      var before := AllHandled(t, low, tip, depth, earlier).value;
      var f := ForkAt(before.blocks, low, TipAfter(tip, earlier), depth, e);
      ForkIsValid(before.blocks, low, TipAfter(tip, earlier), depth, e, parentOf);
      HandledIsCanonical(before, f, e.finality);
      CanonicalIsIndexed(Handled(before, f, e.finality).value.blocks, f, parentOf);
    }
  }

  lemma {:induction false} LastIsCleanRun(before: Tables, low: u64, tip: u64, depth: u64, e: Episode,
                                          parentOf: Hashing, clean: u64 -> Finality)
    requires Indexed(before.blocks, low, tip, parentOf) && Lawful(e, low, parentOf)
    requires Handled(before, ForkAt(before.blocks, low, tip, depth, e), e.finality).Some?
    ensures var r := Handled(before, ForkAt(before.blocks, low, tip, depth, e), e.finality).value;
            var c := CommitRange(Tables(map[], None), e.canon, low, e.head, clean);
            && c.Ok?
            && Lineage(r.blocks) == Lineage(c.value.blocks)
            && LinkedTable(r.blocks, low, e.head)
  {
    var f := ForkAt(before.blocks, low, tip, depth, e);
    ForkIsValid(before.blocks, low, tip, depth, e, parentOf);
    HandledIsCanonical(before, f, e.finality);
    CleanRows(f, clean);
    var r, c := Handled(before, f, e.finality).value.blocks, CleanRun(f, clean).value.blocks;
    CanonicalTablesAgree(r, c, f);
    CanonicalTableIsLinked(r, f);
  }

  /**
   However many reorgs are repaired, one after another, the table records the hashes and parents that
   a run of the last chain alone would have recorded, and is one linked table.
   */
  lemma {:induction false} ReorgsEqualCleanRun(t: Tables, low: u64, tip: u64, depth: u64, episodes: seq<Episode>,
                                               parentOf: Hashing, clean: u64 -> Finality)
    requires Indexed(t.blocks, low, tip, parentOf) && episodes != []
    requires forall i :: 0 <= i < |episodes| ==> Lawful(episodes[i], low, parentOf)
    ensures var last, r := episodes[|episodes| - 1], AllHandled(t, low, tip, depth, episodes);
            var c := CommitRange(Tables(map[], None), last.canon, low, last.head, clean);
            r.Some? ==>
              && c.Ok?
              && Lineage(r.value.blocks) == Lineage(c.value.blocks)
              && LinkedTable(r.value.blocks, low, last.head)
  {
    var earlier, e := episodes[..|episodes| - 1], episodes[|episodes| - 1];
    if AllHandled(t, low, tip, depth, episodes).Some? {
      AllHandledIsIndexed(t, low, tip, depth, earlier, parentOf);
      var before := AllHandled(t, low, tip, depth, earlier).value;
      LastIsCleanRun(before, low, TipAfter(tip, earlier), depth, e, parentOf, clean);
    }
  }

  /** A sequence of checks gets no further exactly where a fork lies deeper than the search reaches. */
  lemma {:induction false} StuckIffTooDeep(t: Tables, low: u64, tip: u64, depth: u64, episodes: seq<Episode>,
                                           e: Episode, parentOf: Hashing)
    requires Indexed(t.blocks, low, tip, parentOf) && Lawful(e, low, parentOf)
    requires forall i :: 0 <= i < |episodes| ==> Lawful(episodes[i], low, parentOf)
    requires AllHandled(t, low, tip, depth, episodes).Some?
    ensures var blocks := AllHandled(t, low, tip, depth, episodes).value.blocks;
            var lowest: u64 := Max(low, SatSub(TipAfter(tip, episodes), depth));
            AllHandled(t, low, tip, depth, episodes + [e]).None? <==>
            !(lowest in blocks && lowest in e.canon && blocks[lowest].hash == e.canon[lowest].hash)
  {
    AllHandledIsIndexed(t, low, tip, depth, episodes, parentOf);
    var before := AllHandled(t, low, tip, depth, episodes).value;
    ForkIsValid(before.blocks, low, TipAfter(tip, episodes), depth, e, parentOf);
    HandledIsCanonical(before, ForkAt(before.blocks, low, TipAfter(tip, episodes), depth, e), e.finality);
    assert (episodes + [e])[..|episodes|] == episodes;
  }
}
