/**
 The header-chain table and the current checkpoint (crates/store/src/checkpoint.rs). Height is
 the table's primary key, so the table is a map; each operation runs in one transaction.
 */
module Checkpoints {
  import opened Prelude
  import opened Chain

  datatype FinalityState = Unfinalized | Final

  datatype StoredHeader = StoredHeader(
    height: u64,
    hash: string,
    parentHash: Option<string>,
    finality: FinalityState)

  type Blocks = map<u64, StoredHeader>

  datatype Checkpoint = Checkpoint(indexed: BlockPtr, finalizedHeight: u64)

  datatype StoreError = HeightExceedsBigint

  /** The two tables a checkpoint store writes. */
  datatype Tables = Tables(blocks: Blocks, checkpoint: Option<Checkpoint>)

  function RowOf(header: Header, finality: FinalityState): StoredHeader {
    StoredHeader(header.height, header.hash, header.parentHash, finality)
  }

  /** The upsert of one header together with the checkpoint naming it. */
  function CommittedTx(t: Tables, header: Header, finality: FinalityState, finalizedHeight: u64)
    : Result<Tables, StoreError>
  {
    if header.height > I64_MAX || finalizedHeight > I64_MAX then Err(HeightExceedsBigint)
    else Ok(Tables(t.blocks[header.height := RowOf(header, finality)],
                   Some(Checkpoint(BlockPtr(header.height, header.hash), finalizedHeight))))
  }

  /** The row at the header's height becomes that header with the label given; the checkpoint names it. */
  lemma CommitRecords(t: Tables, header: Header, finality: FinalityState, finalizedHeight: u64)
    ensures CommittedTx(t, header, finality, finalizedHeight).Ok? <==>
            header.height <= I64_MAX && finalizedHeight <= I64_MAX
    ensures CommittedTx(t, header, finality, finalizedHeight).Ok? ==>
              var after := CommittedTx(t, header, finality, finalizedHeight).value;
              && header.height in after.blocks
              && after.blocks[header.height].height == header.height
              && after.blocks[header.height].hash == header.hash
              && after.blocks[header.height].parentHash == header.parentHash
              && after.blocks[header.height].finality == finality
              && (forall h :: h != header.height ==> (h in after.blocks <==> h in t.blocks))
              && (forall h :: h != header.height && h in t.blocks ==> after.blocks[h] == t.blocks[h])
              && after.checkpoint.Some?
              && after.checkpoint.value.indexed.height == header.height
              && after.checkpoint.value.indexed.hash == header.hash
              && after.checkpoint.value.finalizedHeight == finalizedHeight
  {
  }

  /** `height <= from AND height >= to ORDER BY height DESC`. */
  function Descending(blocks: Blocks, from: int, to: nat): seq<StoredHeader>
    requires from <= U64_MAX
    decreases from - to
  {
    if from < to then []
    else (if from in blocks then [blocks[from]] else []) + Descending(blocks, from - 1, to)
  }

  /** `DELETE .. WHERE height > $1`. */
  function TruncatedAbove(blocks: Blocks, height: u64): Blocks {
    map h | h in blocks && h <= height :: blocks[h]
  }

  predicate IsPruned(row: StoredHeader, below: u64) {
    row.height < below && row.finality == Final
  }

  /** `DELETE .. WHERE height < $1 AND finality_state = 'final'`. */
  function PrunedBelow(blocks: Blocks, below: u64): Blocks {
    map h | h in blocks && !IsPruned(blocks[h], below) :: blocks[h]
  }

  /** Deleting above and pruning below leave every other row exactly as it was. */
  lemma DeletionKeepsTheRest(blocks: Blocks, height: u64, h: u64)
    ensures h in TruncatedAbove(blocks, height) <==> h in blocks && h <= height
    ensures h in TruncatedAbove(blocks, height) ==> TruncatedAbove(blocks, height)[h] == blocks[h]
    ensures h in PrunedBelow(blocks, height) <==>
            h in blocks && (blocks[h].finality == Unfinalized || blocks[h].height >= height)
    ensures h in PrunedBelow(blocks, height) ==> PrunedBelow(blocks, height)[h] == blocks[h]
  {
  }

  /** Every row sits under its own height. */
  ghost predicate WellKeyed(blocks: Blocks) {
    forall h :: h in blocks ==> blocks[h].height == h
  }

  lemma {:induction false} SubsetIsNoLarger<T>(a: set<T>, b: set<T>)
    requires a <= b
    ensures |a| <= |b|
    ensures |a| == |b| ==> a == b
  {
    assert b == a + (b - a);
    assert |b| == |a| + |b - a|;
  }

  /** The stored heights in a window. */
  ghost function StoredIn(blocks: Blocks, low: nat, high: int): set<u64> {
    set h | h in blocks && low <= h <= high
  }

  /** Each row of the query result is the stored row at its height, inside the window. */
  lemma {:induction false} RowIsStored(blocks: Blocks, from: int, to: nat, i: nat)
    requires from <= U64_MAX && WellKeyed(blocks) && i < |Descending(blocks, from, to)|
    ensures var row := Descending(blocks, from, to)[i];
            row.height in StoredIn(blocks, to, from) && row == blocks[row.height]
    decreases from - to
  {
    if from in blocks && i > 0 {
      RowIsStored(blocks, from - 1, to, i - 1);
    } else if from !in blocks {
      RowIsStored(blocks, from - 1, to, i);
    }
  }

  /** A row's position is the number of stored heights above it. */
  lemma {:induction false} RowPosition(blocks: Blocks, from: int, to: nat, i: nat)
    requires from <= U64_MAX && WellKeyed(blocks)
    requires i < |Descending(blocks, from, to)|
    ensures |StoredIn(blocks, Descending(blocks, from, to)[i].height + 1, from)| == i
    decreases from - to
  {
    var low := Descending(blocks, from, to)[i].height + 1;
    if from !in blocks {
      RowPosition(blocks, from - 1, to, i);
      assert StoredIn(blocks, low, from) == StoredIn(blocks, low, from - 1);
    } else if i == 0 {
      assert StoredIn(blocks, low, from) == {};
    } else {
      RowPosition(blocks, from - 1, to, i - 1);
      RowIsStored(blocks, from - 1, to, i - 1);
      assert Descending(blocks, from, to)[i] == Descending(blocks, from - 1, to)[i - 1];
      assert StoredIn(blocks, low, from) == StoredIn(blocks, low, from - 1) + {from};
    }
  }

  /** Rows further on have more stored heights above them, so they are lower. */
  lemma {:induction false} RowsDescend(blocks: Blocks, from: int, to: nat, i: nat, j: nat)
    requires from <= U64_MAX && WellKeyed(blocks) && i < j < |Descending(blocks, from, to)|
    ensures Descending(blocks, from, to)[j].height < Descending(blocks, from, to)[i].height
  {
    var rows := Descending(blocks, from, to);
    RowPosition(blocks, from, to, i);
    RowPosition(blocks, from, to, j);
    if rows[j].height >= rows[i].height {
      SubsetIsNoLarger(StoredIn(blocks, rows[j].height + 1, from), StoredIn(blocks, rows[i].height + 1, from));
    }
  }

  /** The rows of a window: every stored one and no other, strictly descending. */
  ghost predicate IsWindow(blocks: Blocks, low: nat, high: int, rows: seq<StoredHeader>) {
    && (forall i :: 0 <= i < |rows| ==>
          rows[i].height in StoredIn(blocks, low, high) && rows[i] == blocks[rows[i].height])
    && (forall h :: h in StoredIn(blocks, low, high) ==> blocks[h] in rows)
    && (forall i, j :: 0 <= i < j < |rows| ==> rows[j].height < rows[i].height)
  }

  lemma {:induction false} StoredIsRow(blocks: Blocks, from: int, to: nat, height: u64)
    requires from <= U64_MAX && height in StoredIn(blocks, to, from)
    ensures blocks[height] in Descending(blocks, from, to)
    decreases from - to
  {
    if height == from {
    } else {
      StoredIsRow(blocks, from - 1, to, height);
    }
  }

  lemma {:induction false} DescendingIsWindow(blocks: Blocks, from: int, to: nat)
    requires from <= U64_MAX && WellKeyed(blocks)
    ensures IsWindow(blocks, to, from, Descending(blocks, from, to))
  {
    var rows := Descending(blocks, from, to);
    forall i | 0 <= i < |rows|
      ensures rows[i].height in StoredIn(blocks, to, from) && rows[i] == blocks[rows[i].height]
    {
      RowIsStored(blocks, from, to, i);
    }
    forall h | h in StoredIn(blocks, to, from) ensures blocks[h] in rows {
      StoredIsRow(blocks, from, to, h);
    }
    forall i, j | 0 <= i < j < |rows| ensures rows[j].height < rows[i].height {
      RowsDescend(blocks, from, to, i, j);
    }
  }

  class CheckpointStore {
    var blocks: Blocks
    var checkpoint: Option<Checkpoint>

    function State(): Tables
      reads this
    {
      Tables(blocks, checkpoint)
    }

    ghost predicate Valid()
      reads this
    {
      WellKeyed(blocks)
    }

    constructor ()
      ensures State() == Tables(map[], None) && Valid()
    {
      blocks, checkpoint := map[], None;
    }

    method CommitTx(header: Header, finality: FinalityState, finalizedHeight: u64) returns (r: Result<(), StoreError>)
      requires Valid()
      modifies this
      ensures Valid()
      ensures match CommittedTx(old(State()), header, finality, finalizedHeight)
              case Ok(after) => r == Ok(()) && State() == after
              case Err(e) => r == Err(e) && State() == old(State())
    {
      if header.height > I64_MAX || finalizedHeight > I64_MAX {
        return Err(HeightExceedsBigint);
      }
      blocks := blocks[header.height := RowOf(header, finality)];
      checkpoint := Some(Checkpoint(BlockPtr(header.height, header.hash), finalizedHeight));
      return Ok(());
    }

    /** Exactly the stored rows of the window, each once, the highest first. */
    method HeadersDescending(from: u64, to: u64) returns (r: Result<seq<StoredHeader>, StoreError>)
      requires Valid()
      ensures from > I64_MAX || to > I64_MAX ==> r == Err(HeightExceedsBigint)
      ensures from <= I64_MAX && to <= I64_MAX ==>
                r.Ok? && IsWindow(blocks, to, from, r.value) && r.value == Descending(blocks, from, to)
    {
      if from > I64_MAX || to > I64_MAX {
        return Err(HeightExceedsBigint);
      }
      DescendingIsWindow(blocks, from, to);
      return Ok(Descending(blocks, from, to));
    }

    /** Deletes the rows above a height and says how many there were; the checkpoint is left alone. */
    method TruncateAboveTx(height: u64) returns (r: Result<nat, StoreError>)
      requires Valid()
      modifies this`blocks
      ensures Valid()
      ensures height > I64_MAX ==> r == Err(HeightExceedsBigint) && blocks == old(blocks)
      ensures height <= I64_MAX ==>
                && blocks == TruncatedAbove(old(blocks), height)
                && r == Ok(|old(blocks)| - |blocks|)
    {
      if height > I64_MAX {
        return Err(HeightExceedsBigint);
      }
      var kept := TruncatedAbove(blocks, height);
      assert kept.Keys <= blocks.Keys;
      SubsetIsNoLarger(kept.Keys, blocks.Keys);
      var deleted := |blocks| - |kept|;
      blocks := kept;
      return Ok(deleted);
    }

    method PruneBelow(height: u64) returns (r: Result<nat, StoreError>)
      requires Valid()
      modifies this`blocks
      ensures Valid()
      ensures height > I64_MAX ==> r == Err(HeightExceedsBigint) && blocks == old(blocks)
      ensures height <= I64_MAX ==>
                && blocks == PrunedBelow(old(blocks), height)
                && r == Ok(|old(blocks)| - |blocks|)
    {
      if height > I64_MAX {
        return Err(HeightExceedsBigint);
      }
      var kept := PrunedBelow(blocks, height);
      assert kept.Keys <= blocks.Keys;
      SubsetIsNoLarger(kept.Keys, blocks.Keys);
      var deleted := |blocks| - |kept|;
      blocks := kept;
      return Ok(deleted);
    }
  }
}
