/** Block identity as the engine sees it (crates/chain-api/src/block.rs). */
module Chain {
  import opened Prelude

  datatype BlockPtr = BlockPtr(height: u64, hash: string)

  datatype Header = Header(
    height: u64,
    hash: string,
    parentHash: Option<string>,
    timestamp: Option<int>)
  {
    /** A direct child: one height up (no wrap at the top of u64) and naming the parent's hash. */
    predicate IsChildOf(parent: Header) {
      parent.height < U64_MAX && height == parent.height + 1 && parentHash == Some(parent.hash)
    }
  }

  /** Every header is the child of the one before it. */
  predicate Linked(headers: seq<Header>) {
    forall i :: 0 < i < |headers| ==> headers[i].IsChildOf(headers[i - 1])
  }

  /** Linked headers occupy consecutive heights, so a height names at most one of them. */
  lemma {:induction false} LinkedHeights(headers: seq<Header>, i: nat)
    requires Linked(headers) && i < |headers|
    ensures headers[i].height == headers[0].height + i
  {
    if i == 0 {
    } else {
      LinkedHeights(headers, i - 1);
    }
  }
}
