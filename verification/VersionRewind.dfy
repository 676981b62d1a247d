/**
 Rewinding versioned entity rows (crates/store/src/rewind.rs). Each row is valid over a
 half-open `_block_range`; an open upper bound reads as SQL NULL, so no comparison with it is
 true (section 8.17.7, Discrete Range Types, of the PostgreSQL manual). Rows are keyed by their
 physical identity, which both statements preserve.
 */
module VersionRewind {
  import opened Prelude

  /** One version of an entity, valid over `[lower, upper)`, or from `lower` on. */
  datatype Version<V> = Version(id: string, value: V, lower: int, upper: Option<int>) {
    predicate VisibleAt(height: int) {
      lower <= height && (upper.Some? ==> height < upper.value)
    }

    /** The `WHERE` clause of the delete: created strictly above the height. */
    predicate CreatedAbove(height: int) {
      lower > height
    }

    /** The `WHERE` clause of the reopen: already valid at the height and closed above it. */
    predicate ClosedAbove(height: int) {
      upper.Some? && upper.value > height && lower <= height
    }
  }

  type Rows<V> = map<nat, Version<V>>

  function DeletedAbove<V>(rows: Rows<V>, height: int): Rows<V> {
    map k | k in rows && !rows[k].CreatedAbove(height) :: rows[k]
  }

  function Reopened<V>(rows: Rows<V>, height: int): Rows<V> {
    map k | k in rows :: if rows[k].ClosedAbove(height) then rows[k].(upper := None) else rows[k]
  }

  /** Both statements, as a rewind to `height` issues them. */
  function Rewound<V>(rows: Rows<V>, height: int): Rows<V> {
    Reopened(DeletedAbove(rows, height), height)
  }

  /** The rows a rewind deletes, and those it reopens. */
  function Newer<V>(rows: Rows<V>, height: int): set<nat> {
    set k | k in rows && rows[k].CreatedAbove(height)
  }

  function Closed<V>(rows: Rows<V>, height: int): set<nat> {
    set k | k in rows && rows[k].ClosedAbove(height)
  }

  class EntityTable<V> {
    var rows: Rows<V>

    constructor (rows: Rows<V>)
      ensures this.rows == rows
    {
      this.rows := rows;
    }

    method DeleteVersionsAbove(height: u64) returns (deleted: nat)
      modifies this
      ensures rows == DeletedAbove(old(rows), height)
      ensures deleted == |Newer(old(rows), height)|
    {
      var gone := Newer(rows, height);
      deleted := |gone|;
      rows := rows - gone;
    }

    method ReopenVersions(height: u64) returns (reopened: nat)
      modifies this
      ensures rows == Reopened(old(rows), height)
      ensures reopened == |Closed(old(rows), height)|
    {
      var closed := Closed(rows, height);
      reopened := |closed|;
      rows := rows + map k | k in closed :: rows[k].(upper := None);
    }
  }

  // ---------------------------------------------------------------- time travel

  /** The table as a reader at `height` sees it. */
  ghost function AsOf<V>(rows: Rows<V>, height: int): map<nat, (string, V)> {
    map k | k in rows && rows[k].VisibleAt(height) :: (rows[k].id, rows[k].value)
  }

  /**
   Every height up to the target reads as it did before, and every height above it reads as the
   target did.
   */
  lemma {:induction false} RewindIsTimeTravel<V>(rows: Rows<V>, target: int, height: int)
    ensures AsOf(Rewound(rows, target), height) == AsOf(rows, Min(height, target))
  {
    var after := Rewound(rows, target);
    forall k | k in rows
      ensures (k in after && after[k].VisibleAt(height)) <==> rows[k].VisibleAt(Min(height, target))
    {
    }
    assert AsOf(after, height).Keys == AsOf(rows, Min(height, target)).Keys;
  }

  /**
   The reopen on its own: a version valid at the height becomes valid from there on; any other is
   valid exactly when it was, and nothing but an upper bound changes.
   */
  lemma ReopenAlone<V>(rows: Rows<V>, target: int, k: nat, height: int)
    requires k in rows
    ensures k in Reopened(rows, target)
    ensures Reopened(rows, target)[k] == rows[k].(upper := Reopened(rows, target)[k].upper)
    ensures Reopened(rows, target)[k].VisibleAt(height) <==>
            rows[k].VisibleAt(height) || (rows[k].VisibleAt(target) && height > target)
  {
  }

  /** The delete on its own: what was ever valid by the height stays just as it was, and nothing else does. */
  lemma DeleteAlone<V>(rows: Rows<V>, target: int, k: nat)
    requires k in rows
    ensures k in DeletedAbove(rows, target) <==> rows[k].lower <= target
    ensures k in DeletedAbove(rows, target) ==> DeletedAbove(rows, target)[k] == rows[k]
  {
  }

  /** What the two statements report: the rows deleted, and the rows the reopen really changes. */
  lemma {:induction false} CountedRows<V>(rows: Rows<V>, target: int, k: nat)
    ensures k in Newer(rows, target) <==> k in rows && k !in DeletedAbove(rows, target)
    ensures k in Closed(rows, target) <==> k in rows && Reopened(rows, target)[k] != rows[k]
  {
  }

  /** No entity has two versions valid at one height. */
  ghost predicate OneVersionAtATime<V>(rows: Rows<V>) {
    forall j, k, h: int ::
      (j in rows && k in rows && rows[j].id == rows[k].id && rows[j].VisibleAt(h) && rows[k].VisibleAt(h)) ==>
        j == k
  }

  /** Reopening never makes two versions of an entity overlap. */
  lemma {:induction false} RewindKeepsVersionsDisjoint<V>(rows: Rows<V>, target: int)
    requires OneVersionAtATime(rows)
    ensures OneVersionAtATime(Rewound(rows, target))
  {
    var after := Rewound(rows, target);
    forall j, k, h: int | j in after && k in after && after[j].id == after[k].id &&
                          after[j].VisibleAt(h) && after[k].VisibleAt(h)
      ensures j == k
    {
      assert rows[j].VisibleAt(Min(h, target)) && rows[k].VisibleAt(Min(h, target));
    }
  }

  /** The two statements may run in either order. */
  lemma {:induction false} StatementsCommute<V>(rows: Rows<V>, target: int)
    ensures Reopened(DeletedAbove(rows, target), target) == DeletedAbove(Reopened(rows, target), target)
  {
    assert Reopened(DeletedAbove(rows, target), target).Keys == DeletedAbove(Reopened(rows, target), target).Keys;
  }

  /** Rewinding in two hops is rewinding once to the lower of the two targets. */
  lemma {:induction false} RewindsCompose<V>(rows: Rows<V>, first: int, second: int)
    requires second <= first
    ensures Rewound(Rewound(rows, first), second) == Rewound(rows, second)
  {
    assert Rewound(Rewound(rows, first), second).Keys == Rewound(rows, second).Keys;
  }

  /** Nothing in the table is newer than the height: no version created or closed above it. */
  ghost predicate SettledAt<V>(rows: Rows<V>, height: int) {
    forall k :: k in rows ==> rows[k].lower <= height && (rows[k].upper.Some? ==> rows[k].upper.value <= height)
  }

  /** `after` differs from `before` only by versions created and open versions closed above the height. */
  ghost predicate EvolvedAbove<V>(before: Rows<V>, after: Rows<V>, height: int) {
    && before.Keys <= after.Keys
    && (forall k :: k in before ==>
          || after[k] == before[k]
          || (&& before[k].upper.None? && after[k].upper.Some? && after[k].upper.value > height
              && after[k] == before[k].(upper := after[k].upper)))
    && (forall k :: k in after && k !in before ==> after[k].lower > height)
  }

  /**
   "Return every table to how it looked at height H": rewinding yields a given table exactly
   when that table was settled at H and the current one grew out of it above H.
   */
  lemma {:induction false} RewindUndoesExactlyLaterWork<V(!new)>(before: Rows<V>, after: Rows<V>, height: int)
    ensures Rewound(after, height) == before <==> SettledAt(before, height) && EvolvedAbove(before, after, height)
  {
    var rewound := Rewound(after, height);
    if rewound == before {
      forall k | k in before
        ensures before[k].lower <= height && (before[k].upper.Some? ==> before[k].upper.value <= height)
      {
        assert k in rewound;
      }
      forall k | k in after && k !in before ensures after[k].lower > height {
        assert k !in rewound;
      }
    }
    if SettledAt(before, height) && EvolvedAbove(before, after, height) {
      forall k | k in after ensures k in rewound <==> k in before {
      }
      assert rewound.Keys == before.Keys;
      forall k | k in before ensures rewound[k] == before[k] {
      }
    }
  }
}
