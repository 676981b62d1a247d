/**
 The project identity check (crates/store/src/metadata.rs). `verify_facts` holds an exclusive
 table lock for its whole transaction, so each check is one atomic step on the key/value table.
 */
module Metadata {
  import opened Prelude

  /** The table's well-known keys. */
  datatype Key =
    | ProjectId | ChainId | SchemaVersion | ManifestHash | MappingAbiVersion
    | IndexedHeight | IndexedBlockHash | FinalizedHeight

  datatype StoreError = MetadataConflict(key: Key)

  datatype InitOutcome = Initialized | Resumed

  type Facts = map<Key, string>

  datatype Check = Check(key: Key, expected: string)

  /** Schema layout version. */
  const SCHEMA_VERSION := "1"

  /** What a run of one project is bound to. */
  datatype Project = Project(id: string, chainId: string, fingerprint: string, abiVersion: string)

  /** A call never asks about one key twice. */
  ghost predicate DistinctKeys(checks: seq<Check>) {
    forall i, j :: 0 <= i < j < |checks| ==> checks[i].key != checks[j].key
  }

  ghost predicate Conflicts(facts: Facts, check: Check) {
    check.key in facts && facts[check.key] != check.expected
  }

  ghost predicate Compatible(facts: Facts, checks: seq<Check>) {
    forall i :: 0 <= i < |checks| ==> !Conflicts(facts, checks[i])
  }

  /** The table after a successful check: what it held, and every fact asked for that was absent. */
  ghost predicate Stamped(before: Facts, checks: seq<Check>, after: Facts) {
    && (forall key :: key in after <==> key in before || exists i :: 0 <= i < |checks| && checks[i].key == key)
    && (forall key :: key in before ==> after[key] == before[key])
    && (forall i :: 0 <= i < |checks| ==> after[checks[i].key] == checks[i].expected)
  }

  /** Fails naming a key that differs, or stamps what was absent; resumes when nothing was. */
  ghost predicate Verified(before: Facts, checks: seq<Check>, after: Facts, r: Result<InitOutcome, StoreError>) {
    && (r.Ok? <==> Compatible(before, checks))
    && (r.Err? ==>
          && after == before
          && exists i :: 0 <= i < |checks| && checks[i].key == r.error.key && Conflicts(before, checks[i]))
    && (r.Ok? ==> Stamped(before, checks, after))
    && (r == Ok(Resumed) <==> r.Ok? && forall i :: 0 <= i < |checks| ==> checks[i].key in before)
  }

  lemma {:induction false} StampingMissingIsStamping(before: Facts, checks: seq<Check>, missing: seq<Check>,
                                                     after: Facts)
    requires Compatible(before, checks) && Stamped(before, missing, after)
    requires forall check :: check in missing ==> check in checks && check.key !in before
    requires forall j :: 0 <= j < |checks| && checks[j].key !in before ==> checks[j] in missing
    ensures Stamped(before, checks, after)
  {
    forall i | 0 <= i < |checks| ensures checks[i].key in after && after[checks[i].key] == checks[i].expected {
      if checks[i].key !in before {
        var j :| 0 <= j < |missing| && missing[j] == checks[i];
        assert after[missing[j].key] == missing[j].expected;
      } else {
        assert !Conflicts(before, checks[i]);
      }
    }
    forall key | key in after && key !in before ensures exists i :: 0 <= i < |checks| && checks[i].key == key {
      var j :| 0 <= j < |missing| && missing[j].key == key;
      assert missing[j] in checks;
    }
  }

  function NetworkChecks(projectId: string, chainId: string): (checks: seq<Check>)
    ensures DistinctKeys(checks)
  {
    [Check(ProjectId, projectId), Check(ChainId, chainId), Check(SchemaVersion, SCHEMA_VERSION)]
  }

  function ProjectChecks(p: Project): (checks: seq<Check>)
    ensures DistinctKeys(checks)
  {
    NetworkChecks(p.id, p.chainId) + [Check(ManifestHash, p.fingerprint), Check(MappingAbiVersion, p.abiVersion)]
  }

  predicate Holds(facts: Facts, key: Key, value: string) {
    key in facts && facts[key] == value
  }

  /** Each fact of a run's network stands under its own key. */
  predicate BoundTo(facts: Facts, projectId: string, chainId: string) {
    Holds(facts, ProjectId, projectId) && Holds(facts, ChainId, chainId) && Holds(facts, SchemaVersion, "1")
  }

  predicate BoundToProject(facts: Facts, p: Project) {
    && BoundTo(facts, p.id, p.chainId)
    && Holds(facts, ManifestHash, p.fingerprint) && Holds(facts, MappingAbiVersion, p.abiVersion)
  }

  /** What a project is checked against: compatible facts stamped are exactly those it is bound to. */
  lemma {:induction false} StampedIsBound(before: Facts, p: Project, after: Facts)
    requires Stamped(before, ProjectChecks(p), after)
    ensures BoundToProject(after, p)
    ensures Compatible(before, ProjectChecks(p)) ==>
              forall key :: key in after && key !in before ==>
                key in {ProjectId, ChainId, SchemaVersion, ManifestHash, MappingAbiVersion}
  {
    var checks := ProjectChecks(p);
    assert after[checks[0].key] == checks[0].expected && after[checks[1].key] == checks[1].expected;
    assert after[checks[2].key] == checks[2].expected && after[checks[3].key] == checks[3].expected;
    assert after[checks[4].key] == checks[4].expected;
  }

  lemma {:induction false} NetworkIsBound(before: Facts, projectId: string, chainId: string, after: Facts)
    requires Stamped(before, NetworkChecks(projectId, chainId), after)
    ensures BoundTo(after, projectId, chainId)
  {
    var checks := NetworkChecks(projectId, chainId);
    assert after[checks[0].key] == checks[0].expected && after[checks[1].key] == checks[1].expected;
    assert after[checks[2].key] == checks[2].expected;
  }

  class MetadataStore {
    var facts: Facts

    constructor ()
      ensures facts == map[]
    {
      facts := map[];
    }

    /** Fails naming a key that differs and writes nothing, or leaves every fact asked for stamped. */
    method VerifyFacts(checks: seq<Check>) returns (r: Result<InitOutcome, StoreError>)
      requires DistinctKeys(checks)
      modifies this
      ensures Verified(old(facts), checks, facts, r)
    {
      var missing: seq<Check> := [];
      for i := 0 to |checks|
        invariant facts == old(facts)
        invariant forall j :: 0 <= j < i ==> !Conflicts(facts, checks[j])
        invariant forall j :: 0 <= j < i && checks[j].key !in facts ==> checks[j] in missing
        invariant forall check :: check in missing ==> check in checks[..i] && check.key !in facts
        invariant DistinctKeys(missing)
      {
        var check := checks[i];
        assert checks[..i + 1] == checks[..i] + [check];
        if check.key in facts {
          if facts[check.key] != check.expected {
            return Err(MetadataConflict(check.key));
          }
        } else {
          missing := missing + [check];
        }
      }
      var outcome := if missing == [] then Resumed else Initialized;
      assert checks[..|checks|] == checks;
      assert missing != [] ==> missing[0] in checks;
      WriteMissing(missing);
      StampingMissingIsStamping(old(facts), checks, missing, facts);
      return Ok(outcome);
    }

    /** The second loop: each absent fact is written once. */
    method WriteMissing(missing: seq<Check>)
      requires DistinctKeys(missing) && forall i :: 0 <= i < |missing| ==> missing[i].key !in facts
      modifies this
      ensures Stamped(old(facts), missing, facts)
    {
      for i := 0 to |missing|
        invariant forall key :: key in facts <==> key in old(facts) || exists j :: 0 <= j < i && missing[j].key == key
        invariant forall key :: key in old(facts) ==> facts[key] == old(facts)[key]
        invariant forall j :: 0 <= j < i ==> facts[missing[j].key] == missing[j].expected
      {
        facts := facts[missing[i].key := missing[i].expected];
      }
    }

    method VerifyOrInitialize(projectId: string, chainId: string) returns (r: Result<InitOutcome, StoreError>)
      modifies this
      ensures Verified(old(facts), NetworkChecks(projectId, chainId), facts, r)
      ensures r.Ok? ==> BoundTo(facts, projectId, chainId)
    {
      r := VerifyFacts(NetworkChecks(projectId, chainId));
      if r.Ok? {
        NetworkIsBound(old(facts), projectId, chainId, facts);
      }
    }

    method VerifyProject(project: Project) returns (r: Result<InitOutcome, StoreError>)
      modifies this
      ensures Verified(old(facts), ProjectChecks(project), facts, r)
      ensures r.Ok? ==> BoundToProject(facts, project)
    {
      r := VerifyFacts(ProjectChecks(project));
      if r.Ok? {
        StampedIsBound(old(facts), project, facts);
      }
    }
  }

  // ---------------------------------------------------------------- whole runs

  /** What is done to the table over time: identity checks, and checkpoints of committed blocks. */
  datatype Operation =
    | Verify(checks: seq<Check>)
    | Checkpoint(indexedHeight: string, indexedHash: string, finalizedHeight: string)

  predicate IsCheckpointKey(key: Key) {
    key.IndexedHeight? || key.IndexedBlockHash? || key.FinalizedHeight?
  }

  ghost predicate Succeeds(before: Facts, op: Operation) {
    op.Verify? ==> Compatible(before, op.checks)
  }

  ghost predicate Transition(before: Facts, op: Operation, after: Facts) {
    match op
    case Verify(checks) =>
      if Compatible(before, checks) then Stamped(before, checks, after) else after == before
    case Checkpoint(height, hash, finalized) =>
      after == before[IndexedHeight := height][IndexedBlockHash := hash][FinalizedHeight := finalized]
  }

  /** A checkpoint writes its three values under their own keys, and no fact of identity. */
  lemma CheckpointWrites(before: Facts, height: string, hash: string, finalized: string, after: Facts)
    requires Transition(before, Checkpoint(height, hash, finalized), after)
    ensures Holds(after, IndexedHeight, height) && Holds(after, IndexedBlockHash, hash)
    ensures Holds(after, FinalizedHeight, finalized)
    ensures forall key :: key in {ProjectId, ChainId, SchemaVersion, ManifestHash, MappingAbiVersion} ==>
              && !IsCheckpointKey(key)
              && (key in after <==> key in before) && (key in before ==> after[key] == before[key])
  {
  }

  /** Serialized operations and the table between them. */
  ghost predicate IsRun(tables: seq<Facts>, ops: seq<Operation>) {
    && |tables| == |ops| + 1
    && forall i :: 0 <= i < |ops| ==> Transition(tables[i], ops[i], tables[i + 1])
  }

  /** A fact of identity, once stamped, keeps its value for the rest of the run. */
  lemma {:induction false} FirstWriterWins(tables: seq<Facts>, ops: seq<Operation>, i: nat, j: nat, key: Key)
    requires IsRun(tables, ops) && i <= j < |tables|
    requires key in tables[i] && !IsCheckpointKey(key)
    ensures key in tables[j] && tables[j][key] == tables[i][key]
    decreases j - i
  {
    if i == j {
    } else {
      FirstWriterWins(tables, ops, i, j - 1, key);
      assert Transition(tables[j - 1], ops[j - 1], tables[j]);
    }
  }

  /** Any two checks that succeed, whatever ran between them, expect the same of every key they share. */
  lemma {:induction false} SuccessfulChecksAgree(tables: seq<Facts>, ops: seq<Operation>, i: nat, j: nat, a: Check,
                                                 b: Check)
    requires IsRun(tables, ops) && i <= j < |ops|
    requires ops[i].Verify? && Succeeds(tables[i], ops[i]) && a in ops[i].checks
    requires ops[j].Verify? && Succeeds(tables[j], ops[j]) && b in ops[j].checks
    requires a.key == b.key && !IsCheckpointKey(a.key)
    ensures a.expected == b.expected
  {
    assert Transition(tables[i], ops[i], tables[i + 1]) && Transition(tables[j], ops[j], tables[j + 1]);
    var m :| 0 <= m < |ops[i].checks| && ops[i].checks[m] == a;
    var n :| 0 <= n < |ops[j].checks| && ops[j].checks[n] == b;
    assert tables[i + 1][a.key] == a.expected && tables[j + 1][b.key] == b.expected;
    FirstWriterWins(tables, ops, i + 1, j + 1, a.key);
  }

  /** A second check of the same keys passes exactly when it expects the same of each. */
  lemma {:induction false} RepeatMustMatch(before: Facts, mine: seq<Check>, table: Facts, theirs: seq<Check>)
    requires Stamped(before, mine, table) && |mine| == |theirs|
    requires forall i :: 0 <= i < |mine| ==> mine[i].key == theirs[i].key
    ensures Compatible(table, theirs) <==> mine == theirs
    ensures forall after :: Stamped(table, theirs, after) ==> after.Keys == table.Keys
  {
    assert forall i :: 0 <= i < |mine| ==>
        table[mine[i].key] == mine[i].expected && (Conflicts(table, theirs[i]) <==> mine[i] != theirs[i]);
  }

  lemma {:induction false} ProjectsAreTheirChecks(a: Project, b: Project)
    ensures |ProjectChecks(a)| == |ProjectChecks(b)|
    ensures forall i :: 0 <= i < |ProjectChecks(a)| ==> ProjectChecks(a)[i].key == ProjectChecks(b)[i].key
    ensures ProjectChecks(a) == ProjectChecks(b) <==> a == b
  {
    var mine, theirs := ProjectChecks(a), ProjectChecks(b);
    assert mine == theirs ==>
        mine[0] == theirs[0] && mine[1] == theirs[1] && mine[3] == theirs[3] && mine[4] == theirs[4];
  }

  /**
   Two projects on one schema: once the first has been verified, the second succeeds exactly
   when it is the same project in every respect, and either way the table stays as it was.
   */
  lemma {:induction false} SecondProjectMustMatch(before: Facts, first: Project, table: Facts, second: Project,
                                                  after: Facts)
    requires Compatible(before, ProjectChecks(first)) && Stamped(before, ProjectChecks(first), table)
    requires Transition(table, Verify(ProjectChecks(second)), after)
    ensures Succeeds(table, Verify(ProjectChecks(second))) <==> first == second
    ensures after == table
  {
    ProjectsAreTheirChecks(first, second);
    RepeatMustMatch(before, ProjectChecks(first), table, ProjectChecks(second));
  }
}
