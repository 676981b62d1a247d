/**
 Repairing a reorg: detect the fork, truncate above the ancestor, commit the canonical branch
 (crates/core/src/finality/tracker.rs, crates/store/src/checkpoint.rs). The repaired table is
 the one a run that never saw the abandoned branch would have built.
 */
module ReorgRepair {
  import opened Prelude
  import opened Chain
  import opened Checkpoints
  import opened Reorg
  import opened FinalityTracking

  /** The row at a height names the hash of the row below. */
  ghost predicate RowLinks(blocks: Blocks, h: nat) {
    h in blocks && h - 1 in blocks && blocks[h].parentHash == Some(blocks[h - 1].hash)
  }

  ghost predicate HeaderLinks(canon: map<u64, Header>, h: nat) {
    h in canon && h - 1 in canon && canon[h].IsChildOf(canon[h - 1])
  }

  /** Stored rows at exactly the heights `[low, high]`, each linked to the one below. */
  ghost predicate LinkedTable(blocks: Blocks, low: u64, high: u64) {
    && WellKeyed(blocks)
    && (forall h: u64 :: h in blocks <==> low <= h <= high)
    && (forall h: u64 :: low < h <= high ==> RowLinks(blocks, h))
  }

  /** Headers at exactly the heights `[low, high]`, each the child of the one below. */
  ghost predicate LinkedChain(canon: map<u64, Header>, low: u64, high: u64) {
    && (forall h: u64 :: h in canon <==> low <= h <= high)
    && (forall h: u64 :: low <= h <= high ==> canon[h].height == h)
    && (forall h: u64 :: low < h <= high ==> HeaderLinks(canon, h))
  }

  /**
   A stored table over `[low, tip]`, the canonical chain over `[base, head]`, and the adapter's
   answers during one check that searches down to `floor`.
   */
  datatype Fork = Fork(
    blocks: Blocks, low: u64, tip: u64,
    canon: map<u64, Header>, base: u64, head: u64,
    headerAt: u64 -> Answer, floor: u64)
  {
    /** The adapter reports the canonical chain, and nothing outside it. */
    ghost predicate Truthful() {
      forall h: u64 :: headerAt(h) == if h in canon then Found(canon[h].hash) else Missing
    }

    /** The assumption on hashing: at one height, equal hashes mean equal parent hashes. */
    ghost predicate HashBindsParent() {
      forall h: u64 :: h in blocks && h in canon && blocks[h].hash == canon[h].hash ==>
        blocks[h].parentHash == canon[h].parentHash
    }

    ghost predicate Valid() {
      && low <= tip && LinkedTable(blocks, low, tip)
      && base <= low && head <= I64_MAX && LinkedChain(canon, base, head)
      && floor <= tip
      && Truthful() && HashBindsParent()
    }

    ghost predicate OnChain(height: u64) {
      Agrees(blocks, headerAt, height)
    }

    ghost function Decision(): ReorgDecision {
      Verdict(blocks, tip, floor, headerAt)
    }
  }

  /** Agreement at one height carries down the hash chain to every stored height below. */
  lemma {:induction false} AgreementDescends(f: Fork, at: u64, below: u64)
    requires f.Valid() && f.low <= below <= at <= f.tip && f.OnChain(at)
    ensures f.OnChain(below)
    decreases at - below
  {
    if below == at {
    } else {
      assert HeaderLinks(f.canon, at) && RowLinks(f.blocks, at);
      assert f.blocks[at].parentHash == f.canon[at].parentHash;
      AgreementDescends(f, at - 1, below);
    }
  }

  /** Every row above the height is off the canonical chain, every row from it down is on it. */
  ghost predicate SplitAt(f: Fork, height: u64) {
    && f.low <= height < f.tip && height <= f.head
    && forall h: u64 :: f.low <= h <= f.tip ==> (f.OnChain(h) <==> h <= height)
  }

  /** Why the walk may stop early, and what it finds: the reported ancestor splits the table in two. */
  lemma {:induction false} AncestorSplitsTable(f: Fork, ancestor: BlockPtr, depth: nat)
    requires f.Valid() && f.Decision() == Rewind(ancestor, depth)
    ensures SplitAt(f, ancestor.height)
  {
    var a := ancestor.height;
    RewindMeans(f.blocks, f.tip, f.floor, f.headerAt, ancestor, depth);
    forall h: u64 | f.low <= h <= f.tip ensures f.OnChain(h) <==> h <= a {
      if h <= a {
        AgreementDescends(f, a, h);
      } else {
        assert h in StoredIn(f.blocks, a + 1, f.tip);
      }
    }
    assert StoredIn(f.blocks, f.tip + 1, f.tip) == {};
  }

  /** `Canonical`, found by looking at the tip alone, means the whole table is canonical. */
  lemma {:induction false} CanonicalCoversTable(f: Fork)
    requires f.Valid()
    ensures f.Decision().Canonical? <==> forall h: u64 :: f.low <= h <= f.tip ==> f.OnChain(h)
  {
    CanonicalMeans(f.blocks, f.tip, f.floor, f.headerAt);
    assert f.tip in StoredIn(f.blocks, f.floor, f.tip) && StoredIn(f.blocks, f.tip + 1, f.tip) == {};
    if f.OnChain(f.tip) {
      forall h: u64 | f.low <= h <= f.tip ensures f.OnChain(h) {
        AgreementDescends(f, f.tip, h);
      }
    }
    forall h: u64 | h in f.blocks && h < f.tip ensures f.tip in StoredIn(f.blocks, h + 1, f.tip) {
    }
  }

  // ---------------------------------------------------------------- the repair

  type Bigint = n: int | 0 <= n <= I64_MAX

  /** What a commit is called with besides the header. */
  datatype Finality = Finality(state: FinalityState, finalizedHeight: Bigint)

  /** Commits the canonical headers of `[low, high]` in height order. */
  ghost function CommitRange(t: Tables, canon: map<u64, Header>, low: nat, high: int, finality: u64 -> Finality)
    : Result<Tables, StoreError>
    requires high <= U64_MAX
    decreases high - low
  {
    if low > high then Ok(t)
    else
      match CommitRange(t, canon, low, high - 1, finality)
      case Err(e) => Err(e)
      case Ok(before) =>
        if high !in canon then Ok(before)
        else CommittedTx(before, canon[high], finality(high).state, finality(high).finalizedHeight)
  }

  /** The lineage a table records: height, hash and parent hash, without the finality label. */
  ghost function Lineage(blocks: Blocks): map<u64, (string, Option<string>)> {
    map h | h in blocks :: (blocks[h].hash, blocks[h].parentHash)
  }

  lemma OneCommit(t: Tables, header: Header, finality: Finality)
    requires header.height <= I64_MAX
    ensures CommittedTx(t, header, finality.state, finality.finalizedHeight).Ok?
    ensures var after := CommittedTx(t, header, finality.state, finality.finalizedHeight).value;
            && after.blocks == t.blocks[header.height := RowOf(header, finality.state)]
            && after.checkpoint == Some(Checkpoint(BlockPtr(header.height, header.hash), finality.finalizedHeight))
  {
  }

  lemma {:induction false} CommitRangeRows(t: Tables, canon: map<u64, Header>, low: nat, high: int,
                                           finality: u64 -> Finality)
    requires high <= I64_MAX && forall h: u64 :: low <= h <= high ==> h in canon && canon[h].height == h
    ensures CommitRange(t, canon, low, high, finality).Ok?
    ensures var after := CommitRange(t, canon, low, high, finality).value;
            && (forall h: u64 :: h in after.blocks <==> h in t.blocks || low <= h <= high)
            && (forall h: u64 :: h in after.blocks ==>
                  after.blocks[h] == if low <= h <= high then RowOf(canon[h], finality(h).state) else t.blocks[h])
            && (low > high ==> after.checkpoint == t.checkpoint)
            && (low <= high ==>
                  after.checkpoint ==
                    Some(Checkpoint(BlockPtr(high, canon[high].hash), finality(high).finalizedHeight)))
    decreases high - low
  {
    if low > high {
    } else {
      CommitRangeRows(t, canon, low, high - 1, finality);
      var before := CommitRange(t, canon, low, high - 1, finality).value;
      OneCommit(before, canon[high], finality(high));
    }
  }

  /** Truncating above the ancestor deletes exactly the reported depth, whatever gaps the table has. */
  lemma {:induction false} TruncationDeletesDepth(blocks: Blocks, tip: u64, floor: u64, headerAt: u64 -> Answer)
    requires WellKeyed(blocks) && (forall h :: h in blocks ==> h <= tip)
    requires Verdict(blocks, tip, floor, headerAt).Rewind?
    ensures var v := Verdict(blocks, tip, floor, headerAt);
            |blocks| - |TruncatedAbove(blocks, v.ancestor.height)| == v.depth
  {
    var v := Verdict(blocks, tip, floor, headerAt);
    RewindMeans(blocks, tip, floor, headerAt, v.ancestor, v.depth);
    var above := StoredIn(blocks, v.ancestor.height + 1, tip);
    var kept := TruncatedAbove(blocks, v.ancestor.height);
    assert blocks.Keys == kept.Keys + above;
    assert kept.Keys !! above;
    assert |blocks.Keys| == |kept.Keys| + |above|;
  }

  /** Truncate above the ancestor, then commit the canonical branch from the next height. */
  ghost function Repaired(t: Tables, f: Fork, ancestor: u64, finality: u64 -> Finality): Result<Tables, StoreError> {
    CommitRange(t.(blocks := TruncatedAbove(t.blocks, ancestor)), f.canon, ancestor + 1, f.head, finality)
  }

  /** A run over the same heights that only ever saw the canonical chain. */
  ghost function CleanRun(f: Fork, finality: u64 -> Finality): Result<Tables, StoreError> {
    CommitRange(Tables(map[], None), f.canon, f.low, f.head, finality)
  }

  ghost predicate IsRowOf(row: StoredHeader, canon: map<u64, Header>, h: u64) {
    h in canon && row.height == h && row.hash == canon[h].hash && row.parentHash == canon[h].parentHash
  }

  /** The table holds exactly the canonical headers of `[low, head]`, whatever their finality label. */
  ghost predicate HoldsCanonical(blocks: Blocks, f: Fork) {
    && (forall h: u64 :: h in blocks <==> f.low <= h <= f.head)
    && (forall h: u64 :: h in blocks ==> IsRowOf(blocks[h], f.canon, h))
  }

  ghost predicate NamesHead(t: Tables, f: Fork) {
    t.checkpoint.Some? && f.head in f.canon && t.checkpoint.value.indexed == BlockPtr(f.head, f.canon[f.head].hash)
  }

  /** A row from the ancestor down already is the canonical one, parent hash included. */
  lemma {:induction false} KeptRowIsCanonical(f: Fork, ancestor: u64, h: u64)
    requires f.Valid() && SplitAt(f, ancestor) && f.low <= h <= ancestor
    ensures h in f.blocks && IsRowOf(f.blocks[h], f.canon, h)
  {
    assert f.OnChain(h);
  }

  /** Committing the canonical rest on top of a canonical table up to `mid`. */
  lemma {:induction false} CommitOnTop(t: Tables, canon: map<u64, Header>, low: u64, mid: u64, head: u64,
                                       finality: u64 -> Finality)
    requires low <= mid <= head <= I64_MAX
    requires forall h: u64 :: low <= h <= head ==> h in canon && canon[h].height == h
    requires forall h: u64 :: h in t.blocks <==> low <= h <= mid
    requires forall h: u64 :: h in t.blocks ==> IsRowOf(t.blocks[h], canon, h)
    ensures CommitRange(t, canon, mid + 1, head, finality).Ok?
    ensures var r := CommitRange(t, canon, mid + 1, head, finality).value;
            && (forall h: u64 :: h in r.blocks <==> low <= h <= head)
            && (forall h: u64 :: h in r.blocks ==> IsRowOf(r.blocks[h], canon, h))
            && (mid == head ==> r.checkpoint == t.checkpoint)
            && (mid < head ==> r.checkpoint.Some? && r.checkpoint.value.indexed == BlockPtr(head, canon[head].hash))
  {
    CommitRangeRows(t, canon, mid + 1, head, finality);
    var r := CommitRange(t, canon, mid + 1, head, finality).value;
    forall h: u64 | h in r.blocks ensures IsRowOf(r.blocks[h], canon, h) {
    }
  }

  lemma {:induction false} RepairedRows(t: Tables, f: Fork, ancestor: u64, finality: u64 -> Finality)
    requires f.Valid() && t.blocks == f.blocks && SplitAt(f, ancestor)
    ensures Repaired(t, f, ancestor, finality).Ok?
    ensures var r := Repaired(t, f, ancestor, finality).value;
            && HoldsCanonical(r.blocks, f)
            && (ancestor < f.head ==> NamesHead(r, f))
            && (ancestor == f.head ==> r.checkpoint == t.checkpoint)
  {
    var kept := TruncatedAbove(t.blocks, ancestor);
    forall h: u64 | h in kept ensures IsRowOf(kept[h], f.canon, h) {
      KeptRowIsCanonical(f, ancestor, h);
    }
    CommitOnTop(t.(blocks := kept), f.canon, f.low, ancestor, f.head, finality);
  }

  /**
   Rows up to `kept` are untouched, label and all, and each later one carries the label it was
   committed with; a checkpoint written on the way names the head and its finalized height.
   */
  ghost predicate KeptThenCommitted(t: Tables, canon: map<u64, Header>, low: u64, kept: int, head: u64,
                                    finality: u64 -> Finality, r: Tables)
  {
    && kept <= head
    && (forall h: u64 :: low <= h <= kept ==> h in t.blocks && h in r.blocks && r.blocks[h] == t.blocks[h])
    && (forall h: u64 :: kept < h && low <= h <= head ==>
          h in canon && h in r.blocks && r.blocks[h] == RowOf(canon[h], finality(h).state))
    && (kept == head ==> r.checkpoint == t.checkpoint)
    && (kept < head ==>
          head in canon &&
          r.checkpoint == Some(Checkpoint(BlockPtr(head, canon[head].hash), finality(head).finalizedHeight)))
  }

  lemma {:induction false} CommitAfterKept(t: Tables, from: Tables, canon: map<u64, Header>, low: u64, kept: int,
                                           head: u64, finality: u64 -> Finality)
    requires low - 1 <= kept <= head <= I64_MAX && t.checkpoint == from.checkpoint
    requires forall h: u64 :: low <= h <= kept ==> h in t.blocks && h in from.blocks && from.blocks[h] == t.blocks[h]
    requires forall h: u64 :: kept < h <= head ==> h in canon && canon[h].height == h
    ensures CommitRange(from, canon, kept + 1, head, finality).Ok?
    ensures KeptThenCommitted(t, canon, low, kept, head, finality,
                              CommitRange(from, canon, kept + 1, head, finality).value)
  {
    CommitRangeRows(from, canon, kept + 1, head, finality);
  }

  lemma {:induction false} RepairedRowsAre(t: Tables, f: Fork, ancestor: u64, finality: u64 -> Finality)
    requires f.Valid() && t.blocks == f.blocks && SplitAt(f, ancestor)
    ensures Repaired(t, f, ancestor, finality).Ok?
    ensures KeptThenCommitted(t, f.canon, f.low, ancestor, f.head, finality,
                              Repaired(t, f, ancestor, finality).value)
  {
    CommitAfterKept(t, t.(blocks := TruncatedAbove(t.blocks, ancestor)), f.canon, f.low, ancestor, f.head, finality);
  }

  /** A clean run keeps nothing and commits everything. */
  lemma {:induction false} CleanRowsAre(f: Fork, finality: u64 -> Finality)
    requires f.Valid() && f.low <= f.head
    ensures CleanRun(f, finality).Ok?
    ensures KeptThenCommitted(Tables(map[], None), f.canon, f.low, f.low - 1, f.head, finality,
                              CleanRun(f, finality).value)
  {
    CommitAfterKept(Tables(map[], None), Tables(map[], None), f.canon, f.low, f.low - 1, f.head, finality);
  }

  lemma {:induction false} CleanRows(f: Fork, finality: u64 -> Finality)
    requires f.Valid() && f.low <= f.head
    ensures CleanRun(f, finality).Ok?
    ensures HoldsCanonical(CleanRun(f, finality).value.blocks, f) && NamesHead(CleanRun(f, finality).value, f)
  {
    CommitRangeRows(Tables(map[], None), f.canon, f.low, f.head, finality);
  }

  lemma {:induction false} CanonicalTablesAgree(a: Blocks, b: Blocks, f: Fork)
    requires f.Valid() && HoldsCanonical(a, f) && HoldsCanonical(b, f)
    ensures Lineage(a) == Lineage(b)
  {
    assert Lineage(a).Keys == Lineage(b).Keys;
  }

  lemma {:induction false} CanonicalTableIsLinked(a: Blocks, f: Fork)
    requires f.Valid() && HoldsCanonical(a, f)
    ensures LinkedTable(a, f.low, f.head)
  {
    forall h: u64 | f.low < h <= f.head ensures RowLinks(a, h) {
      assert HeaderLinks(f.canon, h);
    }
  }

  /**
   Repair equals indexing from scratch: on every retained height the repaired table records the
   same hash and parent hash as the clean run's, however finality was labelled in either, and
   it is again one linked table.
   */
  lemma {:induction false} RepairEqualsCleanRun(t: Tables, f: Fork, ancestor: BlockPtr, depth: nat,
                                                repair: u64 -> Finality, clean: u64 -> Finality)
    requires f.Valid() && t.blocks == f.blocks && f.Decision() == Rewind(ancestor, depth)
    ensures var (r, c) := (Repaired(t, f, ancestor.height, repair), CleanRun(f, clean));
            && r.Ok? && c.Ok?
            && Lineage(r.value.blocks) == Lineage(c.value.blocks)
            && LinkedTable(r.value.blocks, f.low, f.head)
  {
    AncestorSplitsTable(f, ancestor, depth);
    RepairedRows(t, f, ancestor.height, repair);
    CleanRows(f, clean);
    var r, c := Repaired(t, f, ancestor.height, repair).value.blocks, CleanRun(f, clean).value.blocks;
    CanonicalTablesAgree(r, c, f);
    CanonicalTableIsLinked(r, f);
  }

  /**
   The checkpoint follows the table only once a block is committed after the truncation: it
   names the block a clean run would name exactly when the canonical head is above the ancestor.
   A canonical chain that ends at the ancestor leaves it naming a row that is gone.
   */
  lemma {:induction false} CheckpointIsRepairedIff(t: Tables, f: Fork, ancestor: BlockPtr, depth: nat,
                                                   repair: u64 -> Finality, clean: u64 -> Finality)
    requires f.Valid() && t.blocks == f.blocks && f.Decision() == Rewind(ancestor, depth)
    requires t.checkpoint.Some? && t.checkpoint.value.indexed.height == f.tip
    ensures var (r, c) := (Repaired(t, f, ancestor.height, repair), CleanRun(f, clean));
            && r.Ok? && c.Ok? && r.value.checkpoint.Some? && c.value.checkpoint.Some?
            && (r.value.checkpoint.value.indexed == c.value.checkpoint.value.indexed <==> ancestor.height < f.head)
            && (ancestor.height == f.head ==> r.value.checkpoint.value.indexed.height !in r.value.blocks)
  {
    AncestorSplitsTable(f, ancestor, depth);
    RepairedRows(t, f, ancestor.height, repair);
    CleanRows(f, clean);
  }

  /** Two rows, of which the canonical chain has only the first. */
  const SHORTER := Fork(
    map[0 := StoredHeader(0, "a", None, Final), 1 := StoredHeader(1, "b", Some("a"), Unfinalized)], 0, 1,
    map[0 := Header(0, "a", None, None)], 0, 0,
    (h: u64) => if h == 0 then Found("a") else Missing, 0)

  /** A canonical head at the ancestor occurs, and leaves the checkpoint on a row that is gone. */
  lemma ShorterChainLeavesCheckpoint(finality: u64 -> Finality)
    ensures var t := Tables(SHORTER.blocks, Some(Checkpoint(BlockPtr(1, "b"), 0)));
            && SHORTER.Valid() && SHORTER.Decision() == Rewind(BlockPtr(0, "a"), 1)
            && Repaired(t, SHORTER, 0, finality).Ok?
            && Repaired(t, SHORTER, 0, finality).value.checkpoint == t.checkpoint
            && 1 !in Repaired(t, SHORTER, 0, finality).value.blocks
  {
    var f := SHORTER;
    assert RowLinks(f.blocks, 1);
    assert StoredIn(f.blocks, 1, 1) == {1};
    RewindMeans(f.blocks, 1, 0, f.headerAt, BlockPtr(0, "a"), 1);
  }
}
