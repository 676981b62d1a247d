/**
 The ingestion journal (crates/store/src/ingestion.rs). `commit` runs under an exclusive
 table lock inside one transaction, so it is one atomic step on the table's rows.
 */
module IngestionJournal {
  import opened Prelude
  import opened Chain

  datatype StoreError =
    | HeightExceedsBigint
    | EmptyHash
    | NotContiguous   // "ingestion requires contiguous canonical headers"
    | DuplicateKey    // the table's primary key on height

  /** `ORDER BY height DESC LIMIT 1`, on a table in any order. */
  function Latest(rows: seq<Header>): (r: Option<Header>)
    ensures r.None? <==> rows == []
    ensures r.Some? ==> r.value in rows && forall row :: row in rows ==> row.height <= r.value.height
  {
    if rows == [] then None
    else
      match Latest(rows[1..])
      case None => Some(rows[0])
      case Some(best) => if best.height > rows[0].height then Some(best) else Some(rows[0])
  }

  predicate HeightTaken(rows: seq<Header>, height: u64) {
    exists i :: 0 <= i < |rows| && rows[i].height == height
  }

  /** The table after a commit of `header`, or why it was refused. Total: the table may hold anything. */
  function Appended(rows: seq<Header>, header: Header): Result<seq<Header>, StoreError> {
    if header.height > I64_MAX then Err(HeightExceedsBigint)
    else if header.hash == "" then Err(EmptyHash)
    else
      var latest := Latest(rows);
      if latest == Some(header) then Ok(rows)
      else if latest.Some? && !header.IsChildOf(latest.value) then Err(NotContiguous)
      else if exists i :: 0 <= i < |rows| && rows[i].height == header.height then Err(DuplicateKey)
      else Ok(rows + [header])
  }

  class IngestionStore {
    var rows: seq<Header>

    constructor ()
      ensures rows == []
    {
      rows := [];
    }

    /** The highest row, if there is any. */
    method Load() returns (r: Option<Header>)
      ensures r.None? <==> rows == []
      ensures r.Some? ==> r.value in rows && forall row :: row in rows ==> row.height <= r.value.height
    {
      r := Latest(rows);
    }

    /** Appends one header, accepts a repeat of the last one, or fails leaving every row as it was. */
    method Commit(header: Header) returns (r: Result<(), StoreError>)
      modifies this
      ensures match Appended(old(rows), header)
              case Ok(after) => r == Ok(()) && rows == after
              case Err(e) => r == Err(e) && rows == old(rows)
    {
      if header.height > I64_MAX {
        return Err(HeightExceedsBigint);
      }
      if header.hash == "" {
        return Err(EmptyHash);
      }
      var latest := Latest(rows);
      if latest.Some? {
        if latest.value == header {
          return Ok(());
        }
        if !header.IsChildOf(latest.value) {
          return Err(NotContiguous);
        }
      }
      if exists i :: 0 <= i < |rows| && rows[i].height == header.height {
        return Err(DuplicateKey);
      }
      rows := rows + [header];
      return Ok(());
    }
  }

  /** One gapless, duplicate-free, parent-linked chain, in height order. */
  ghost predicate IsChain(rows: seq<Header>) {
    && Linked(rows)
    && forall i :: 0 <= i < |rows| ==> rows[i].hash != "" && rows[i].height <= I64_MAX
  }

  function Tip(rows: seq<Header>): Header
    requires rows != []
  {
    rows[|rows| - 1]
  }

  /** In a chain the highest row is the last one. */
  lemma {:induction false} HighestIsTip(rows: seq<Header>, best: Header)
    requires Linked(rows) && best in rows && forall row :: row in rows ==> row.height <= best.height
    ensures best == Tip(rows)
  {
    var i :| 0 <= i < |rows| && rows[i] == best;
    LinkedHeights(rows, i);
    LinkedHeights(rows, |rows| - 1);
    assert Tip(rows) in rows;
  }

  lemma {:induction false} LatestIsTip(rows: seq<Header>)
    requires Linked(rows) && rows != []
    ensures Latest(rows) == Some(Tip(rows))
  {
    HighestIsTip(rows, Latest(rows).value);
  }

  /**
   On a chain, a commit succeeds exactly for a well-formed header that starts the journal,
   repeats its tip, or is the tip's child; the result is again a chain, grown by at most
   that header, whose tip is that header. The primary key is never what stops it.
   */
  lemma {:induction false} CommitExtendsChain(rows: seq<Header>, header: Header)
    requires IsChain(rows)
    ensures Appended(rows, header).Ok? <==>
            && header.height <= I64_MAX && header.hash != ""
            && (rows == [] || header == Tip(rows) || header.IsChildOf(Tip(rows)))
    ensures Appended(rows, header) != Err(DuplicateKey)
    ensures Appended(rows, header).Ok? ==>
              var after := Appended(rows, header).value;
              && IsChain(after)
              && after != [] && Tip(after) == header
              && after == if rows != [] && header == Tip(rows) then rows else rows + [header]
  {
    if rows != [] {
      LatestIsTip(rows);
      if header.IsChildOf(Tip(rows)) {
        forall i | 0 <= i < |rows| ensures rows[i].height != header.height {
          LinkedHeights(rows, i);
          LinkedHeights(rows, |rows| - 1);
        }
      }
    }
  }

  /** On any table, in any order: why a header is refused, each reason only where no earlier one applies. */
  lemma {:induction false} RefusedWhy(rows: seq<Header>, header: Header)
    ensures var r := Appended(rows, header);
            var storable := header.height <= I64_MAX && header.hash != "";
            var repeats := rows != [] && Latest(rows).value == header;
            var continues := rows == [] || header.IsChildOf(Latest(rows).value);
            && (r == Err(HeightExceedsBigint) <==> header.height > I64_MAX)
            && (r == Err(EmptyHash) <==> header.height <= I64_MAX && header.hash == "")
            && (r == Err(NotContiguous) <==> storable && !repeats && !continues)
            && (r == Err(DuplicateKey) <==> storable && !repeats && continues && HeightTaken(rows, header.height))
            && (r.Ok? ==> r.value == if repeats then rows else rows + [header])
  {
  }

  /** A retried commit of the same header is accepted and adds nothing. */
  lemma {:induction false} CommitIsIdempotent(rows: seq<Header>, header: Header)
    requires IsChain(rows) && Appended(rows, header).Ok?
    ensures Appended(Appended(rows, header).value, header) == Appended(rows, header)
  {
    CommitExtendsChain(rows, header);
    CommitExtendsChain(Appended(rows, header).value, header);
  }
}
