/** The reorg decision over stored-versus-canonical pairs (crates/core/src/finality/reorg.rs). */
module Reorg {
  import opened Prelude
  import opened Chain
  import opened IngestionJournal

  datatype HeightComparison = HeightComparison(height: u64, storedHash: string, canonicalHash: Option<string>) {
    predicate Matches() {
      canonicalHash == Some(storedHash)
    }
  }

  datatype ReorgDecision =
    | Canonical
    | Rewind(ancestor: BlockPtr, depth: nat)
    | BeyondHistory(oldestKnown: u64)

  /** Position of the first match at or after `from`. */
  function FirstMatch(descending: seq<HeightComparison>, from: nat): (r: Option<nat>)
    requires from <= |descending|
    ensures r.Some? ==>
              && from <= r.value < |descending|
              && descending[r.value].Matches()
              && forall i :: from <= i < r.value ==> !descending[i].Matches()
    ensures r.None? ==> forall i :: from <= i < |descending| ==> !descending[i].Matches()
    decreases |descending| - from
  {
    if from == |descending| then None
    else if descending[from].Matches() then Some(from)
    else FirstMatch(descending, from + 1)
  }

  function FindCommonAncestor(descending: seq<HeightComparison>): ReorgDecision {
    if descending == [] || descending[0].Matches() then Canonical
    else
      match FirstMatch(descending, 0)
      case Some(i) => Rewind(BlockPtr(descending[i].height, descending[i].storedHash), i)
      case None => BeyondHistory(descending[|descending| - 1].height)
  }

  /** The cheap check on each incoming block. */
  predicate ContinuesChain(lastIndexed: BlockPtr, incoming: Header)
    requires lastIndexed.height < U64_MAX  // the source's `height + 1` would overflow
  {
    incoming.height == lastIndexed.height + 1 && incoming.parentHash == Some(lastIndexed.hash)
  }

  /** Nothing after the first match can change the decision. */
  lemma {:induction false} TailIsIrrelevant(walked: seq<HeightComparison>, rest: seq<HeightComparison>)
    requires walked != [] && walked[|walked| - 1].Matches()
    ensures FindCommonAncestor(walked + rest) == FindCommonAncestor(walked)
  {
    var whole := walked + rest;
    var i, j := FirstMatch(walked, 0), FirstMatch(whole, 0);
    assert whole[0] == walked[0];
    assert whole[i.value] == walked[i.value];
    assert j.value < |walked| ==> whole[j.value] == walked[j.value];
    assert forall k :: 0 <= k < |walked| ==> whole[k] == walked[k];
  }

  /**
   The cheap check and the journal agree: a storable header continues the journal's tip exactly
   when committing it adds it as a new row.
   */
  lemma {:induction false} ContinuesChainIffJournalGrows(rows: seq<Header>, incoming: Header)
    requires IsChain(rows) && rows != []
    requires incoming.height <= I64_MAX && incoming.hash != ""
    ensures ContinuesChain(BlockPtr(Tip(rows).height, Tip(rows).hash), incoming) <==>
            Appended(rows, incoming) == Ok(rows + [incoming])
  {
    CommitExtendsChain(rows, incoming);
    assert |rows + [incoming]| > |rows|;
  }
}
