/**
 Many ingestion processes over one journal. Any number of writers load, position, fetch,
 commit, acknowledge and crash in any interleaving; adapters answer anything, and a commit
 may take effect although its caller never learns so. Each writer runs the restart protocol
 of bins/superquery-node/src/ingest.rs over crates/store/src/ingestion.rs and
 crates/core/src/fetch/scheduler.rs.
 */
module IngestRuns {
  import opened Prelude
  import opened Chain
  import opened RangePlanning
  import opened FetchScheduling
  import opened SchedulerRuns
  import opened IngestionJournal
  import opened Ingest

  /** A process between its steps. */
  datatype Writer =
    | Down
    | Loaded(config: SchedulerConfig, last: Option<Header>)
    | Ready(config: SchedulerConfig, cursor: Cursor, batch: seq<Header>, accepted: Option<Header>)

  /**
   The journal and the processes on it, with the run's history: every header acknowledged to
   some scheduler.
   */
  datatype System = System(
    rows: seq<Header>,
    writers: map<nat, Writer>,
    acked: seq<Header>)

  datatype Event =
    | Load(who: nat, config: SchedulerConfig)
    | Position(who: nat, canonical: Option<Header>)
    | Fetch(who: nat, report: HeadReport, blocks: Option<seq<Header>>)
    | Commit(who: nat, fault: Fault)
    | Acknowledge(who: nat)
    | Crash(who: nat)

  ghost function WriterAt(sys: System, who: nat): Writer {
    if who in sys.writers then sys.writers[who] else Down
  }

  /** The checks between loading the journal and starting the scheduler. */
  ghost function Positioned(config: SchedulerConfig, last: Option<Header>, canonical: Option<Header>): Writer {
    if last.None? then Ready(config, Fresh(config), [], None)
    else if canonical.None? || canonical.value.hash != last.value.hash then Down
    else if config.startHeight > SatAdd(last.value.height, 1, U64_MAX) then Down
    else Ready(config, Resumed(config, last.value.height), [], None)
  }

  /** `fetch_next`: an empty batch is retried later, a bad or failed one ends the process. */
  ghost function Fetched(w: Writer, report: HeadReport, blocks: Option<seq<Header>>): Writer
    requires w.Ready?
  {
    var (cursor, heights) := Planned(w.config, NO_BYPASS, w.cursor, 0, 0, report);
    if heights.Err? || blocks.None? || !GoodBatch(heights.value, blocks.value) then Down
    else w.(cursor := cursor, batch := blocks.value)
  }

  ghost function Step(sys: System, e: Event): System {
    var w := WriterAt(sys, e.who);
    match e
    case Load(who, config) =>
      sys.(writers := sys.writers[who := Loaded(config, Latest(sys.rows))])
    case Position(who, canonical) =>
      if w.Loaded? then sys.(writers := sys.writers[who := Positioned(w.config, w.last, canonical)]) else sys
    case Fetch(who, report, blocks) =>
      if w.Ready? && w.batch == [] && w.accepted.None?
      then sys.(writers := sys.writers[who := Fetched(w, report, blocks)])
      else sys
    case Commit(who, fault) =>
      if w.Ready? && w.batch != [] && w.accepted.None? then
        var result := Appended(sys.rows, w.batch[0]);
        var took := fault != LostBeforeCommit && result.Ok?;
        sys.(rows := if took then result.value else sys.rows,
             writers := sys.writers[who :=
               if took && fault == NoFault
               then w.(batch := w.batch[1..], accepted := Some(w.batch[0]))
               else Down])
      else sys
    case Acknowledge(who) =>
      if w.Ready? && w.accepted.Some? then
        (match Acknowledged(w.cursor, w.accepted.value.height)
         case Ok(next) =>
           sys.(writers := sys.writers[who := w.(cursor := next, accepted := None)],
                acked := sys.acked + [w.accepted.value])
         case Err(_) => sys.(writers := sys.writers[who := Down]))
      else sys
    case Crash(who) => sys.(writers := sys.writers[who := Down])
  }

  ghost function Run(events: seq<Event>): System {
    if events == [] then System([], map[], [])
    else Step(Run(events[..|events| - 1]), events[|events| - 1])
  }

  // ---------------------------------------------------------------- what every step keeps

  /** What a process holds in hand: the block accepted but not acknowledged, then the rest. */
  ghost function InHand(w: Writer): seq<Header>
    requires w.Ready?
  {
    (if w.accepted.Some? then [w.accepted.value] else []) + w.batch
  }

  /** The cursor is still at the process's own start, or sits inside or just past the journal. */
  ghost predicate CursorOk(rows: seq<Header>, config: SchedulerConfig, c: Cursor) {
    || SchedulerRuns.Position(c) == config.startHeight
    || (rows != [] && rows[0].height < SchedulerRuns.Position(c) <= Tip(rows).height + 1)
  }

  ghost predicate WriterOk(rows: seq<Header>, w: Writer) {
    match w
    case Down => true
    case Loaded(config, last) => last.Some? ==> last.value in rows
    case Ready(config, cursor, batch, accepted) =>
      && PendingIsNext(config, NO_BYPASS, cursor)
      && CursorOk(rows, config, cursor)
      && |InHand(w)| <= |cursor.pending|
      && (forall i :: 0 <= i < |InHand(w)| ==> InHand(w)[i].height == cursor.pending[i])
      && (accepted.Some? ==> accepted.value in rows)
  }

  ghost predicate Inv(sys: System) {
    && IsChain(sys.rows)
    && (forall h :: h in sys.acked ==> h in sys.rows)
    && (forall who :: who in sys.writers ==> WriterOk(sys.rows, sys.writers[who]))
  }

  /** Heights of chain members lie between the first row and the tip. */
  lemma {:induction false} MemberHeight(rows: seq<Header>, h: Header)
    requires Linked(rows) && h in rows
    ensures rows[0].height <= h.height <= Tip(rows).height
    ensures h.height - rows[0].height < |rows| && rows[h.height - rows[0].height] == h
  {
    var i :| 0 <= i < |rows| && rows[i] == h;
    LinkedHeights(rows, i);
    LinkedHeights(rows, |rows| - 1);
  }

  lemma {:induction false} PositionedOk(rows: seq<Header>, config: SchedulerConfig,
                                        last: Option<Header>, canonical: Option<Header>)
    requires IsChain(rows) && WriterOk(rows, Loaded(config, last))
    ensures WriterOk(rows, Positioned(config, last, canonical))
  {
    if last.Some? {
      MemberHeight(rows, last.value);
    }
  }

  /** Taking up a good batch for the front of what is pending. */
  lemma {:induction false} BatchInHand(rows: seq<Header>, w: Writer, cursor: Cursor,
                                       heights: seq<u64>, blocks: seq<Header>)
    requires w.Ready? && w.batch == [] && w.accepted.None? && WriterOk(rows, w)
    requires PendingIsNext(w.config, NO_BYPASS, cursor) && heights <= cursor.pending
    requires cursor.nextHeight == w.cursor.nextHeight && cursor.exhausted == w.cursor.exhausted
    requires GoodBatch(heights, blocks)
    ensures WriterOk(rows, w.(cursor := cursor, batch := blocks))
  {
    assert InHand(w.(cursor := cursor, batch := blocks)) == blocks;
  }

  lemma {:induction false} FetchedOk(rows: seq<Header>, w: Writer,
                                     report: HeadReport, blocks: Option<seq<Header>>)
    requires w.Ready? && w.batch == [] && w.accepted.None? && WriterOk(rows, w)
    ensures WriterOk(rows, Fetched(w, report, blocks))
  {
    PlanKeepsPending(w.config, NO_BYPASS, w.cursor, 0, 0, report);
    var (cursor, heights) := Planned(w.config, NO_BYPASS, w.cursor, 0, 0, report);
    if heights.Ok? && blocks.Some? && GoodBatch(heights.value, blocks.value) {
      BatchInHand(rows, w, cursor, heights.value, blocks.value);
    }
  }

  /** Growth of the journal by another process disturbs nobody. */
  lemma {:induction false} GrowthKeepsWriter(rows: seq<Header>, after: seq<Header>, w: Writer)
    requires WriterOk(rows, w) && IsChain(after) && rows <= after
    ensures WriterOk(after, w)
  {
    if rows != [] {
      assert Tip(rows) == after[|rows| - 1];
      MemberHeight(after, Tip(rows));
    }
  }

  /** Without bypass spans the first pending height is the cursor itself. */
  lemma FrontIsCursor(config: SchedulerConfig, c: Cursor)
    requires PendingIsNext(config, NO_BYPASS, c) && c.pending != []
    ensures c.pending[0] == c.nextHeight == SchedulerRuns.Position(c)
  {
    assert !NO_BYPASS.IsBypassed(c.nextHeight);
  }

  /** A committed block moves from the batch to the hand. */
  lemma {:induction false} AcceptedInHand(rows: seq<Header>, w: Writer)
    requires w.Ready? && w.batch != [] && w.accepted.None? && WriterOk(rows, w)
    requires rows != [] && w.batch[0] == Tip(rows)
    ensures WriterOk(rows, w.(batch := w.batch[1..], accepted := Some(w.batch[0])))
  {
    assert InHand(w.(batch := w.batch[1..], accepted := Some(w.batch[0]))) == InHand(w);
  }

  lemma {:induction false} CommitKeepsInv(sys: System, who: nat, fault: Fault)
    requires Inv(sys)
    ensures Inv(Step(sys, Commit(who, fault))) && sys.rows <= Step(sys, Commit(who, fault)).rows
  {
    var w, next := WriterAt(sys, who), Step(sys, Commit(who, fault));
    if w.Ready? && w.batch != [] && w.accepted.None? {
      var block := w.batch[0];
      CommitExtendsChain(sys.rows, block);
      forall other | other in next.writers ensures WriterOk(next.rows, next.writers[other]) {
        if other != who {
          GrowthKeepsWriter(sys.rows, next.rows, sys.writers[other]);
        } else if next.writers[who].Ready? {
          GrowthKeepsWriter(sys.rows, next.rows, w);
          AcceptedInHand(next.rows, w);
        }
      }
    }
  }

  lemma {:induction false} AcknowledgeKeepsInv(sys: System, who: nat)
    requires Inv(sys)
    ensures Inv(Step(sys, Event.Acknowledge(who)))
  {
    var w := WriterAt(sys, who);
    if w.Ready? && w.accepted.Some? && Acknowledged(w.cursor, w.accepted.value.height).Ok? {
      var block := w.accepted.value;
      AcknowledgeKeepsPending(w.config, NO_BYPASS, w.cursor, block.height);
      MemberHeight(sys.rows, block);
      var next := w.(cursor := Acknowledged(w.cursor, block.height).value, accepted := None);
      assert forall i :: 0 <= i < |InHand(next)| ==> InHand(next)[i] == InHand(w)[i + 1];
    }
  }

  lemma {:induction false} PositionKeepsInv(sys: System, who: nat, canonical: Option<Header>)
    requires Inv(sys)
    ensures Inv(Step(sys, Event.Position(who, canonical)))
  {
    var w := WriterAt(sys, who);
    if w.Loaded? {
      PositionedOk(sys.rows, w.config, w.last, canonical);
    }
  }

  lemma {:induction false} FetchKeepsInv(sys: System, who: nat, report: HeadReport, blocks: Option<seq<Header>>)
    requires Inv(sys)
    ensures Inv(Step(sys, Fetch(who, report, blocks)))
  {
    var w := WriterAt(sys, who);
    if w.Ready? && w.batch == [] && w.accepted.None? {
      FetchedOk(sys.rows, w, report, blocks);
    }
  }

  lemma {:induction false} StepKeepsInv(sys: System, e: Event)
    requires Inv(sys)
    ensures Inv(Step(sys, e)) && sys.rows <= Step(sys, e).rows
  {
    match e {
      case Load(who, config) =>
      case Position(who, canonical) => PositionKeepsInv(sys, who, canonical);
      case Fetch(who, report, blocks) => FetchKeepsInv(sys, who, report, blocks);
      case Commit(who, fault) => CommitKeepsInv(sys, who, fault);
      case Acknowledge(who) => AcknowledgeKeepsInv(sys, who);
      case Crash(who) =>
    }
  }

  lemma {:induction false} RunKeepsInv(events: seq<Event>)
    ensures Inv(Run(events))
  {
    if events == [] {
    } else {
      RunKeepsInv(events[..|events| - 1]);
      StepKeepsInv(Run(events[..|events| - 1]), events[|events| - 1]);
    }
  }

  // ---------------------------------------------------------------- the promises

  /**
   The journal is one gapless, duplicate-free, parent-linked chain, and everything ever
   acknowledged is in it, at its own height.
   */
  ghost predicate OneChain(sys: System) {
    && IsChain(sys.rows)
    && (forall i :: 0 <= i < |sys.rows| ==> sys.rows[i].height == sys.rows[0].height + i)
    && (forall h :: h in sys.acked ==>
          && sys.rows != []
          && sys.rows[0].height <= h.height <= Tip(sys.rows).height
          && h.height - sys.rows[0].height < |sys.rows|
          && sys.rows[h.height - sys.rows[0].height] == h)
  }

  lemma {:induction false} InvGivesOneChain(sys: System)
    requires Inv(sys)
    ensures OneChain(sys)
  {
    forall i | 0 <= i < |sys.rows| ensures sys.rows[i].height == sys.rows[0].height + i {
      LinkedHeights(sys.rows, i);
    }
    forall h | h in sys.acked
      ensures sys.rows != [] && sys.rows[0].height <= h.height <= Tip(sys.rows).height
      ensures h.height - sys.rows[0].height < |sys.rows| && sys.rows[h.height - sys.rows[0].height] == h
    {
      MemberHeight(sys.rows, h);
    }
  }

  /** The journal is append-only over the whole run. */
  lemma {:induction false} JournalOnlyGrows(events: seq<Event>, k: nat)
    requires k <= |events|
    ensures Run(events[..k]).rows <= Run(events).rows
  {
    if k == |events| {
      assert events[..k] == events;
    } else {
      var before := events[..|events| - 1];
      JournalOnlyGrows(before, k);
      assert before[..k] == events[..k];
      RunKeepsInv(before);
      StepKeepsInv(Run(before), events[|events| - 1]);
    }
  }

  /** Event `j` of the run committed row `i`: the next block of the process that committed. */
  ghost predicate CommitsRow(events: seq<Event>, j: int, i: int) {
    && 0 <= j < |events| && events[j].Commit?
    && var sys := Run(events[..j]);
       var w := WriterAt(sys, events[j].who);
       && w.Ready? && w.batch != [] && w.accepted.None?
       && i == |sys.rows| < |Run(events).rows|
       && Run(events).rows[i] == w.batch[0]
       && Step(sys, events[j]).rows == sys.rows + [w.batch[0]]
  }

  lemma {:induction false} StillCommits(before: seq<Event>, e: Event, j: int, i: int)
    requires CommitsRow(before, j, i)
    ensures CommitsRow(before + [e], j, i)
  {
    var events := before + [e];
    assert events[j] == before[j] && events[..j] == before[..j] && events[..|before|] == before;
    RunKeepsInv(before);
    StepKeepsInv(Run(before), e);
    assert Run(before).rows <= Run(events).rows;
  }

  /** Only a commit adds a row, and it adds the next block of the process that commits. */
  lemma {:induction false} GrowthIsCommit(events: seq<Event>, e: Event)
    requires Run(events).rows != Step(Run(events), e).rows
    ensures CommitsRow(events + [e], |events|, |Run(events).rows|)
    ensures |Step(Run(events), e).rows| == |Run(events).rows| + 1
  {
    RunKeepsInv(events);
    assert (events + [e])[..|events|] == events && (events + [e])[|events|] == e;
    CommitExtendsChain(Run(events).rows, WriterAt(Run(events), e.who).batch[0]);
  }

  lemma {:induction false} RowIsCommitted(events: seq<Event>, i: nat) returns (j: nat)
    requires i < |Run(events).rows|
    ensures CommitsRow(events, j, i)
  {
    var before, e := events[..|events| - 1], events[|events| - 1];
    assert events == before + [e];
    if i < |Run(before).rows| {
      j := RowIsCommitted(before, i);
      StillCommits(before, e, j, i);
    } else {
      j := |before|;
      GrowthIsCommit(before, e);
    }
  }

  /** Event `j` began the journal, at the start height of the process that committed. */
  ghost predicate Begins(events: seq<Event>, j: int) {
    && CommitsRow(events, j, 0)
    && Run(events).rows[0].height == WriterAt(Run(events[..j]), events[j].who).config.startHeight
  }

  lemma {:induction false} FirstRowIsStart(events: seq<Event>, j: int)
    requires CommitsRow(events, j, 0)
    ensures Begins(events, j)
  {
    var sys := Run(events[..j]);
    var w := WriterAt(sys, events[j].who);
    RunKeepsInv(events[..j]);
    assert WriterOk(sys.rows, w);
    assert InHand(w)[0] == w.batch[0];
    FrontIsCursor(w.config, w.cursor);
  }

  /**
   Every run of every interleaving keeps the journal one chain, which begins at the start height
   of the very process whose commit wrote its first row.
   */
  lemma {:induction false} JournalIsOneChain(events: seq<Event>)
    ensures OneChain(Run(events))
    ensures Run(events).rows != [] ==> exists j :: Begins(events, j)
  {
    RunKeepsInv(events);
    InvGivesOneChain(Run(events));
    if Run(events).rows != [] {
      var j := RowIsCommitted(events, 0);
      FirstRowIsStart(events, j);
    }
  }

  lemma OneChainAgrees(sys: System, a: Header, b: Header)
    requires OneChain(sys) && a in sys.acked && b in sys.acked && a.height == b.height
    ensures a == b
  {
  }

  /** Two processes never acknowledge different blocks at one height, at any two points of a run. */
  lemma {:induction false} AcknowledgementsNeverDisagree(events: seq<Event>, a: Header, b: Header)
    requires a in Run(events).acked && b in Run(events).acked && a.height == b.height
    ensures a == b
  {
    JournalIsOneChain(events);
    OneChainAgrees(Run(events), a, b);
  }

  // ---------------------------------------------------------------- every step takes effect

  ghost predicate IsIdle(w: Writer) {
    w.Ready? && w.batch == [] && w.accepted.None?
  }

  /** An event of one process leaves every other as it was. */
  lemma {:induction false} OthersUntouched(sys: System, e: Event, other: nat)
    requires other != e.who
    ensures WriterAt(Step(sys, e), other) == WriterAt(sys, other)
  {
  }

  /** A crash takes the process down and nothing else. */
  lemma CrashTakesEffect(sys: System, who: nat)
    ensures WriterAt(Step(sys, Crash(who)), who) == Down
    ensures Step(sys, Crash(who)).rows == sys.rows && Step(sys, Crash(who)).acked == sys.acked
  {
  }

  /** A process that loads reads the tip as it is then. */
  lemma {:induction false} LoadTakesEffect(sys: System, who: nat, config: SchedulerConfig)
    requires IsChain(sys.rows)
    ensures var next := Step(sys, Load(who, config));
            && WriterAt(next, who) == Loaded(config, if sys.rows == [] then None else Some(Tip(sys.rows)))
            && next.rows == sys.rows && next.acked == sys.acked
  {
    if sys.rows != [] {
      LatestIsTip(sys.rows);
    }
  }

  /**
   After loading, a process starts over an empty journal, or one past the tip it read, exactly when
   that is still canonical and its own start leaves no gap; otherwise it is down.
   */
  lemma {:induction false} PositionTakesEffect(sys: System, who: nat, canonical: Option<Header>)
    requires WriterAt(sys, who).Loaded?
    ensures var w, next := WriterAt(sys, who), Step(sys, Event.Position(who, canonical));
            var positioned := WriterAt(next, who);
            && (positioned.Ready? <==>
                  (w.last.Some? ==>
                    && canonical.Some? && canonical.value.hash == w.last.value.hash
                    && w.config.startHeight <= SatAdd(w.last.value.height, 1, U64_MAX)))
            && (!positioned.Ready? ==> positioned == Down)
            && (positioned.Ready? ==>
                  && positioned.config == w.config && positioned.batch == [] && positioned.accepted == None
                  && positioned.cursor.pending == []
                  && SchedulerRuns.Position(positioned.cursor) ==
                       if w.last.None? then w.config.startHeight else w.last.value.height + 1)
            && next.rows == sys.rows && next.acked == sys.acked
  {
  }

  /** A good answer to what was planned is taken up whole; anything else ends the process. */
  lemma {:induction false} FetchTakesEffect(sys: System, who: nat, report: HeadReport, blocks: Option<seq<Header>>)
    requires IsIdle(WriterAt(sys, who))
    ensures var w, next := WriterAt(sys, who), Step(sys, Fetch(who, report, blocks));
            var (cursor, heights) := Planned(w.config, NO_BYPASS, w.cursor, 0, 0, report);
            && WriterAt(next, who) ==
                 (if heights.Ok? && blocks.Some? && GoodBatch(heights.value, blocks.value)
                  then Ready(w.config, cursor, blocks.value, None) else Down)
            && next.rows == sys.rows && next.acked == sys.acked
  {
  }

  /**
   What a commit does: a block that continues the journal is added, and one that repeats its tip
   is accepted as it stands, unless the connection is lost before; the process hears of it unless
   the connection is lost at all. Any other block is refused, and the process is down.
   */
  lemma {:induction false} CommitTakesEffect(sys: System, who: nat, fault: Fault)
    requires IsChain(sys.rows)
    requires WriterAt(sys, who).Ready? && WriterAt(sys, who).batch != [] && WriterAt(sys, who).accepted.None?
    ensures var w, next := WriterAt(sys, who), Step(sys, Commit(who, fault));
            var block := w.batch[0];
            var repeats := sys.rows != [] && block == Tip(sys.rows);
            var fits := Fits(sys.rows, block);
            && next.rows == (if fits && fault != LostBeforeCommit then sys.rows + [block] else sys.rows)
            && WriterAt(next, who) ==
                 (if (fits || repeats) && fault == NoFault
                  then Ready(w.config, w.cursor, w.batch[1..], Some(block)) else Down)
            && next.acked == sys.acked
  {
    CommitExtendsChain(sys.rows, WriterAt(sys, who).batch[0]);
  }

  /** An accepted block is acknowledged: the cursor moves past it and the history keeps it. */
  lemma {:induction false} AcknowledgeTakesEffect(sys: System, who: nat)
    requires Inv(sys) && WriterAt(sys, who).Ready? && WriterAt(sys, who).accepted.Some?
    ensures var w, next := WriterAt(sys, who), Step(sys, Event.Acknowledge(who));
            var block, after := w.accepted.value, WriterAt(next, who);
            && after.Ready? && after.config == w.config && after.batch == w.batch && after.accepted == None
            && after.cursor.pending == w.cursor.pending[1..]
            && SchedulerRuns.Position(after.cursor) == block.height + 1
            && next.acked == sys.acked + [block] && next.rows == sys.rows
  {
    var w := WriterAt(sys, who);
    assert WriterOk(sys.rows, w);
    assert InHand(w)[0] == w.accepted.value;
  }

  // ---------------------------------------------------------------- any range can be journalled

  /** The rows are the canonical headers from the start on. */
  ghost predicate CanonRows(rows: seq<Header>, canon: u64 -> Header, start: nat) {
    start + |rows| <= U64_MAX + 1 && forall i :: 0 <= i < |rows| ==> rows[i] == canon(start + i)
  }

  ghost predicate AllCanonical(blocks: seq<Header>, canon: u64 -> Header) {
    forall i :: 0 <= i < |blocks| ==> blocks[i] == canon(blocks[i].height)
  }

  lemma CanonTail(blocks: seq<Header>, canon: u64 -> Header)
    requires blocks != [] && AllCanonical(blocks, canon)
    ensures AllCanonical(blocks[1..], canon)
  {
  }

  lemma CanonRowsGrow(rows: seq<Header>, canon: u64 -> Header, start: nat, block: Header)
    requires CanonRows(rows, canon, start) && block.height == start + |rows| && block == canon(block.height)
    ensures CanonRows(rows + [block], canon, start)
  {
  }

  /** Process 0 has journalled and acknowledged the first `n` heights, and holds a canonical batch of the next. */
  ghost predicate Underway(config: SchedulerConfig, canon: u64 -> Header, sys: System, n: nat) {
    && |sys.rows| == n && CanonRows(sys.rows, canon, config.startHeight) && sys.acked == sys.rows
    && var w := WriterAt(sys, 0);
       && w.Ready? && w.config == config && w.accepted == None
       && SchedulerRuns.Position(w.cursor) == config.startHeight + n
       && AllCanonical(w.batch, canon)
  }

  /** A canonical chain over a bounded range, and limits that allow some progress. */
  ghost predicate Journallable(config: SchedulerConfig, canon: u64 -> Header) {
    Workable(config) && Canonical(canon, config.startHeight, config.endHeight.value)
  }

  lemma {:induction false} NextFits(config: SchedulerConfig, canon: u64 -> Header, rows: seq<Header>)
    requires Journallable(config, canon) && config.startHeight + |rows| <= config.endHeight.value
    requires CanonRows(rows, canon, config.startHeight)
    ensures Fits(rows, canon(config.startHeight + |rows|))
  {
    if rows != [] {
      assert Tip(rows) == canon(config.startHeight + |rows| - 1);
    }
  }

  /** The first block of a canonical batch is the canonical one at the cursor. */
  lemma {:induction false} NextIsCanonical(config: SchedulerConfig, canon: u64 -> Header, sys: System, n: nat)
    requires Inv(sys) && Underway(config, canon, sys, n) && WriterAt(sys, 0).batch != []
    ensures config.startHeight + n <= U64_MAX
    ensures WriterAt(sys, 0).batch[0] == canon(config.startHeight + n)
    ensures WriterAt(sys, 0).batch[0].height == config.startHeight + n
  {
    var w := WriterAt(sys, 0);
    assert WriterOk(sys.rows, w);
    assert InHand(w)[0] == w.batch[0];
    FrontIsCursor(config, w.cursor);
  }

  lemma RunOn(events: seq<Event>, e: Event) returns (more: seq<Event>)
    ensures more == events + [e] && Run(more) == Step(Run(events), e)
  {
    more := events + [e];
    assert more[..|events|] == events;
  }

  /** Process 0 has journalled the first `n + 1` heights, and all but the last are acknowledged. */
  ghost predicate Awaiting(config: SchedulerConfig, canon: u64 -> Header, sys: System, n: nat) {
    && |sys.rows| == n + 1 && CanonRows(sys.rows, canon, config.startHeight) && sys.acked == sys.rows[..n]
    && var w := WriterAt(sys, 0);
       && w.Ready? && w.config == config && w.accepted == Some(sys.rows[n])
       && sys.rows[n].height == config.startHeight + n
       && AllCanonical(w.batch, canon)
  }

  lemma {:induction false} FittingIsCommitted(config: SchedulerConfig, canon: u64 -> Header, sys: System, n: nat)
    requires IsChain(sys.rows) && Underway(config, canon, sys, n) && WriterAt(sys, 0).batch != []
    requires var block := WriterAt(sys, 0).batch[0];
             && block.height == config.startHeight + n && block == canon(block.height)
             && Fits(sys.rows, block)
    ensures Awaiting(config, canon, Step(sys, Commit(0, NoFault)), n)
  {
    var batch := WriterAt(sys, 0).batch;
    CommitTakesEffect(sys, 0, NoFault);
    CanonTail(batch, canon);
    CanonRowsGrow(sys.rows, canon, config.startHeight, batch[0]);
    assert (sys.rows + [batch[0]])[..n] == sys.rows;
  }

  lemma {:induction false} NextIsCommitted(config: SchedulerConfig, canon: u64 -> Header, sys: System, n: nat)
    requires Journallable(config, canon) && config.startHeight + n <= config.endHeight.value
    requires Inv(sys) && Underway(config, canon, sys, n) && WriterAt(sys, 0).batch != []
    ensures Awaiting(config, canon, Step(sys, Commit(0, NoFault)), n)
  {
    NextIsCanonical(config, canon, sys, n);
    NextFits(config, canon, sys.rows);
    FittingIsCommitted(config, canon, sys, n);
  }

  lemma {:induction false} NextIsAcknowledged(config: SchedulerConfig, canon: u64 -> Header, sys: System, n: nat)
    requires Inv(sys) && Awaiting(config, canon, sys, n)
    ensures Underway(config, canon, Step(sys, Event.Acknowledge(0)), n + 1)
  {
    AcknowledgeTakesEffect(sys, 0);
    assert sys.rows == sys.rows[..n] + [sys.rows[n]];
  }

  /** The next block of a canonical batch is committed and acknowledged. */
  lemma {:induction false} NextIsJournalled(config: SchedulerConfig, canon: u64 -> Header, sys: System, n: nat)
    requires Journallable(config, canon) && config.startHeight + n <= config.endHeight.value
    requires Inv(sys) && Underway(config, canon, sys, n) && WriterAt(sys, 0).batch != []
    ensures Underway(config, canon, Step(Step(sys, Commit(0, NoFault)), Event.Acknowledge(0)), n + 1)
  {
    NextIsCommitted(config, canon, sys, n);
    StepKeepsInv(sys, Commit(0, NoFault));
    NextIsAcknowledged(config, canon, Step(sys, Commit(0, NoFault)), n);
  }

  lemma {:induction false} HeightsAreCanonical(config: SchedulerConfig, canon: u64 -> Header, n: nat, heights: seq<u64>)
    requires Journallable(config, canon) && config.startHeight + n <= config.endHeight.value
    requires CountsUp(heights, config.startHeight + n, config.endHeight.value)
    ensures GoodBatch(heights, CanonBatch(heights, canon))
    ensures AllCanonical(CanonBatch(heights, canon), canon)
  {
    var batch := CanonBatch(heights, canon);
    assert forall i :: 0 < i < |batch| ==> batch[i].IsChildOf(batch[i - 1]) by {
      assert forall i :: 0 < i < |batch| ==> heights[i] == heights[i - 1] + 1;
    }
  }

  /** With heads past the end, an idle process plans heights from its cursor on. */
  lemma {:induction false} NextIsPlanned(config: SchedulerConfig, canon: u64 -> Header, c: Cursor, report: HeadReport)
    requires Journallable(config, canon) && PendingIsNext(config, NO_BYPASS, c)
    requires SchedulerRuns.Position(c) <= config.endHeight.value
    requires report == HeadReport(config.endHeight, config.endHeight)
    ensures var (next, planned) := Planned(config, NO_BYPASS, c, 0, 0, report);
            && planned.Ok? && planned.value != []
            && CountsUp(planned.value, SchedulerRuns.Position(c), config.endHeight.value)
            && SchedulerRuns.Position(next) == SchedulerRuns.Position(c)
  {
    var round := Round(false, report, (h: u64) => Some(canon(h)), (i: nat) => false, (i: nat) => NoFault);
    ServedPlan(config, c, round, canon);
    PlanKeepsPending(config, NO_BYPASS, c, 0, 0, report);
  }

  /** And gets a canonical batch of them. */
  lemma {:induction false} NextIsFetched(config: SchedulerConfig, canon: u64 -> Header, events: seq<Event>, n: nat)
    returns (more: seq<Event>)
    requires Journallable(config, canon) && config.startHeight + n <= config.endHeight.value
    requires Underway(config, canon, Run(events), n) && WriterAt(Run(events), 0).batch == []
    ensures Underway(config, canon, Run(more), n) && WriterAt(Run(more), 0).batch != []
  {
    var sys := Run(events);
    var c := WriterAt(sys, 0).cursor;
    var report := HeadReport(config.endHeight, config.endHeight);
    RunKeepsInv(events);
    assert WriterOk(sys.rows, WriterAt(sys, 0));
    NextIsPlanned(config, canon, c, report);
    var heights := Planned(config, NO_BYPASS, c, 0, 0, report).1.value;
    var batch := CanonBatch(heights, canon);
    HeightsAreCanonical(config, canon, n, heights);
    FetchTakesEffect(sys, 0, report, Some(batch));
    more := RunOn(events, Fetch(0, report, Some(batch)));
  }

  lemma {:induction false} FirstSteps(config: SchedulerConfig, canon: u64 -> Header) returns (events: seq<Event>)
    ensures Underway(config, canon, Run(events), 0) && WriterAt(Run(events), 0).batch == []
  {
    var load, position := Load(0, config), Event.Position(0, None);
    events := [load, position];
    assert events[..1] == [load] && events[..1][..0] == [];
    LoadTakesEffect(Run([]), 0, config);
    PositionTakesEffect(Run([load]), 0, None);
  }

  lemma {:induction false} FirstAreJournalled(config: SchedulerConfig, canon: u64 -> Header, n: nat)
    returns (events: seq<Event>)
    requires Journallable(config, canon) && config.startHeight + n <= config.endHeight.value + 1
    ensures Underway(config, canon, Run(events), n)
  {
    if n == 0 {
      events := FirstSteps(config, canon);
    } else {
      events := FirstAreJournalled(config, canon, n - 1);
      if WriterAt(Run(events), 0).batch == [] {
        events := NextIsFetched(config, canon, events, n - 1);
      }
      RunKeepsInv(events);
      NextIsJournalled(config, canon, Run(events), n - 1);
      events := RunOn(events, Commit(0, NoFault));
      events := RunOn(events, Event.Acknowledge(0));
    }
  }

  lemma UnderwayIsJournalled(config: SchedulerConfig, canon: u64 -> Header, sys: System, n: nat)
    requires Underway(config, canon, sys, n)
    ensures |sys.rows| == n && sys.acked == sys.rows && CanonRows(sys.rows, canon, config.startHeight)
  {
  }

  /**
   Any bounded range can be journalled, under any limits that allow progress at all: some run ends
   with exactly the canonical headers of the range in the journal, each of them acknowledged.
   */
  lemma {:induction false} AnyRangeCanBeJournalled(config: SchedulerConfig, canon: u64 -> Header)
    returns (events: seq<Event>)
    requires Journallable(config, canon) && config.startHeight <= config.endHeight.value
    ensures var n := config.endHeight.value - config.startHeight + 1;
            && |Run(events).rows| == n && Run(events).acked == Run(events).rows
            && CanonRows(Run(events).rows, canon, config.startHeight)
  {
    events := FirstAreJournalled(config, canon, config.endHeight.value - config.startHeight + 1);
    UnderwayIsJournalled(config, canon, Run(events), config.endHeight.value - config.startHeight + 1);
  }

  // ---------------------------------------------------------------- never past the heads

  /** An idle process with nothing pending asks for the head, which allows the height, and plans that height. */
  ghost predicate PlansAfresh(w: Writer, report: HeadReport, height: u64) {
    && IsIdle(w) && w.cursor.pending == []
    && Allowed(w.config, report, height)
    && height in Planned(w.config, NO_BYPASS, w.cursor, 0, 0, report).0.pending
  }

  /** Event `k` is a fetch by which a process of this configuration planned the height. */
  ghost predicate PlansFor(events: seq<Event>, k: int, who: nat, config: SchedulerConfig, height: u64) {
    && 0 <= k < |events| && events[k].Fetch? && events[k].who == who
    && var w := WriterAt(Run(events[..k]), who);
       PlansAfresh(w, events[k].report, height) && w.config == config
  }

  ghost predicate WasPlanned(events: seq<Event>, who: nat, config: SchedulerConfig, height: u64) {
    exists k :: PlansFor(events, k, who, config, height)
  }

  /** What is pending at a process, that process has planned. */
  ghost predicate PendingPlanned(events: seq<Event>, who: nat, w: Writer) {
    w.Ready? ==> forall i :: 0 <= i < |w.cursor.pending| ==> WasPlanned(events, who, w.config, w.cursor.pending[i])
  }

  lemma {:induction false} StillPlanned(events: seq<Event>, e: Event, who: nat, config: SchedulerConfig, height: u64)
    requires WasPlanned(events, who, config, height)
    ensures WasPlanned(events + [e], who, config, height)
  {
    var k :| PlansFor(events, k, who, config, height);
    assert (events + [e])[k] == events[k] && (events + [e])[..k] == events[..k];
    assert PlansFor(events + [e], k, who, config, height);
  }

  lemma {:induction false} PendingStillPlanned(events: seq<Event>, e: Event, who: nat, w: Writer)
    requires PendingPlanned(events, who, w)
    ensures PendingPlanned(events + [e], who, w)
  {
    if w.Ready? {
      forall i | 0 <= i < |w.cursor.pending| ensures WasPlanned(events + [e], who, w.config, w.cursor.pending[i]) {
        StillPlanned(events, e, who, w.config, w.cursor.pending[i]);
      }
    }
  }

  /** A fetch plans afresh under the report it received, or keeps what was pending. */
  lemma {:induction false} FetchedIsPlanned(events: seq<Event>, who: nat, report: HeadReport,
                                            blocks: Option<seq<Header>>)
    requires IsIdle(WriterAt(Run(events), who)) && PendingPlanned(events, who, WriterAt(Run(events), who))
    ensures PendingPlanned(events + [Fetch(who, report, blocks)], who,
                           Fetched(WriterAt(Run(events), who), report, blocks))
  {
    var w := WriterAt(Run(events), who);
    var e := Fetch(who, report, blocks);
    PendingStillPlanned(events, e, who, w);
    if w.cursor.pending == [] {
      FreshPlanIsAllowed(w.config, NO_BYPASS, w.cursor, 0, 0, report);
      var pending := Planned(w.config, NO_BYPASS, w.cursor, 0, 0, report).0.pending;
      assert (events + [e])[|events|] == e && (events + [e])[..|events|] == events;
      forall i | 0 <= i < |pending| ensures WasPlanned(events + [e], who, w.config, pending[i]) {
        assert PlansAfresh(w, report, pending[i]);
        assert PlansFor(events + [e], |events|, who, w.config, pending[i]);
      }
    }
  }

  /** Whoever acknowledges keeps a tail of what was pending; whoever starts or stops, nothing. */
  lemma {:induction false} OthersKeepPlanned(events: seq<Event>, sys: System, e: Event, who: nat)
    requires PendingPlanned(events, who, WriterAt(sys, who))
    requires e.who == who && e.Fetch? ==> !IsIdle(WriterAt(sys, who))
    ensures PendingPlanned(events, who, WriterAt(Step(sys, e), who))
  {
    var w := WriterAt(sys, who);
    if e.who == who && e.Acknowledge? && w.Ready? && w.accepted.Some? &&
       Acknowledged(w.cursor, w.accepted.value.height).Ok? {
      assert WriterAt(Step(sys, e), who).cursor.pending == w.cursor.pending[1..];
    }
  }

  lemma {:induction false} RunKeepsPlanned(events: seq<Event>, who: nat)
    ensures PendingPlanned(events, who, WriterAt(Run(events), who))
  {
    if events == [] {
    } else {
      var before, e := events[..|events| - 1], events[|events| - 1];
      RunKeepsPlanned(before, who);
      assert events == before + [e];
      var w := WriterAt(Run(before), who);
      if e.who == who && e.Fetch? && IsIdle(w) {
        FetchedIsPlanned(before, who, e.report, e.blocks);
      } else {
        PendingStillPlanned(before, e, who, w);
        OthersKeepPlanned(events, Run(before), e, who);
      }
    }
  }

  /** The fetch at `k` planned row `i`, and the same process, so configured, committed it at `j`. */
  ghost predicate PlannedAndCommitted(events: seq<Event>, k: int, j: int, i: int) {
    && CommitsRow(events, j, i)
    && var who := events[j].who;
       PlansFor(events[..j], k, who, WriterAt(Run(events[..j]), who).config, Run(events).rows[i].height)
  }

  ghost predicate RowIsPermitted(events: seq<Event>, i: nat) {
    exists k, j :: PlannedAndCommitted(events, k, j, i)
  }

  lemma {:induction false} RowWasPlanned(events: seq<Event>, i: nat) returns (k: int, j: int)
    requires i < |Run(events).rows|
    ensures PlannedAndCommitted(events, k, j, i)
  {
    j := RowIsCommitted(events, i);
    var sys, who := Run(events[..j]), events[j].who;
    var w := WriterAt(sys, who);
    RunKeepsInv(events[..j]);
    RunKeepsPlanned(events[..j], who);
    assert WriterOk(sys.rows, w);
    assert InHand(w)[0] == w.batch[0];
    assert WasPlanned(events[..j], who, w.config, w.cursor.pending[0]);
    k :| PlansFor(events[..j], k, who, w.config, w.cursor.pending[0]);
  }

  /**
   Never past the safe head: every row of the journal was committed by a process that had planned
   its height itself, by an earlier fetch that read the heads and stayed under them.
   */
  lemma {:induction false} EveryRowWasPermitted(events: seq<Event>)
    ensures forall i :: 0 <= i < |Run(events).rows| ==> RowIsPermitted(events, i)
  {
    forall i | 0 <= i < |Run(events).rows| ensures RowIsPermitted(events, i) {
      var k, j := RowWasPlanned(events, i);
    }
  }

  ghost predicate FinalizedOnly(w: Writer) {
    w.Down? || !w.config.indexUnfinalized
  }

  lemma {:induction false} ConfigsAreFinalizedOnly(events: seq<Event>, who: nat)
    requires forall e :: e in events && e.Load? ==> !e.config.indexUnfinalized
    ensures FinalizedOnly(WriterAt(Run(events), who))
  {
    if events == [] {
    } else {
      var before, e := events[..|events| - 1], events[|events| - 1];
      ConfigsAreFinalizedOnly(before, who);
      assert e in events;
    }
  }

  /** The finalized height that event `k` was told reaches the height. */
  ghost predicate FinalAt(events: seq<Event>, k: int, height: u64) {
    && 0 <= k < |events| && events[k].Fetch?
    && events[k].report.finalized.Some? && height <= events[k].report.finalized.value
  }

  ghost predicate RowIsFinal(events: seq<Event>, i: nat) {
    i < |Run(events).rows| &&
    exists k, j :: PlannedAndCommitted(events, k, j, i) && FinalAt(events, k, Run(events).rows[i].height)
  }

  /**
   Only finalized blocks are ingested: with processes configured as the ingestion command
   configures them, every row is at or below the finalized height that its own process was told
   when it planned it.
   */
  lemma {:induction false} JournalIsFinalized(events: seq<Event>)
    requires forall e :: e in events && e.Load? ==> !e.config.indexUnfinalized
    ensures forall i :: 0 <= i < |Run(events).rows| ==> RowIsFinal(events, i)
  {
    forall i | 0 <= i < |Run(events).rows| ensures RowIsFinal(events, i) {
      var k, j := RowWasPlanned(events, i);
      assert events[..j][..k] == events[..k] && events[..j][k] == events[k];
      ConfigsAreFinalizedOnly(events[..k], events[k].who);
      assert FinalAt(events, k, Run(events).rows[i].height);
    }
  }

  // ---------------------------------------------------------------- a single process

  ghost predicate SoloInv(sys: System, who: nat) {
    && sys.writers.Keys <= {who}
    && match WriterAt(sys, who)
       case Down => true
       case Loaded(config, last) => last == Latest(sys.rows)
       case Ready(config, cursor, batch, accepted) =>
         if accepted.Some? then
           sys.rows != [] && accepted.value == Tip(sys.rows)
         else
           SchedulerRuns.Position(cursor) ==
             if sys.rows == [] then config.startHeight else Tip(sys.rows).height + 1
  }

  lemma {:induction false} SoloFetch(sys: System, who: nat, report: HeadReport, blocks: Option<seq<Header>>)
    requires SoloInv(sys, who) && WriterOk(sys.rows, WriterAt(sys, who))
    ensures SoloInv(Step(sys, Fetch(who, report, blocks)), who)
  {
    var w := WriterAt(sys, who);
    if w.Ready? && w.batch == [] && w.accepted.None? {
      PlanKeepsPending(w.config, NO_BYPASS, w.cursor, 0, 0, report);
      var next := Fetched(w, report, blocks);
      assert next.Ready? ==> SchedulerRuns.Position(next.cursor) == SchedulerRuns.Position(w.cursor);
    }
  }

  lemma {:induction false} SoloCommit(sys: System, who: nat, fault: Fault)
    requires IsChain(sys.rows) && SoloInv(sys, who)
    ensures SoloInv(Step(sys, Commit(who, fault)), who)
  {
    var w := WriterAt(sys, who);
    if w.Ready? && w.batch != [] && w.accepted.None? {
      CommitExtendsChain(sys.rows, w.batch[0]);
    }
  }

  lemma {:induction false} SoloAcknowledge(sys: System, who: nat)
    requires SoloInv(sys, who) && WriterOk(sys.rows, WriterAt(sys, who))
    ensures SoloInv(Step(sys, Event.Acknowledge(who)), who)
  {
    var w := WriterAt(sys, who);
    if w.Ready? && w.accepted.Some? && Acknowledged(w.cursor, w.accepted.value.height).Ok? {
      AcknowledgeKeepsPending(w.config, NO_BYPASS, w.cursor, w.accepted.value.height);
    }
  }

  lemma {:induction false} SoloStep(sys: System, e: Event)
    requires Inv(sys) && SoloInv(sys, e.who)
    ensures SoloInv(Step(sys, e), e.who)
  {
    var w := WriterAt(sys, e.who);
    assert WriterOk(sys.rows, w);
    match e {
      case Position(who, canonical) =>
        if w.Loaded? && w.last.Some? {
          LatestIsTip(sys.rows);
        }
      case Fetch(who, report, blocks) => SoloFetch(sys, who, report, blocks);
      case Commit(who, fault) => SoloCommit(sys, who, fault);
      case Acknowledge(who) => SoloAcknowledge(sys, who);
      case _ =>
    }
  }

  /**
   When one process at a time uses the journal, restarting as often as it likes, then whenever
   nothing is awaiting acknowledgement its cursor is exactly one past the journal tip.
   */
  lemma {:induction false} SoloCursorFollowsTip(events: seq<Event>, who: nat)
    requires forall e :: e in events ==> e.who == who
    ensures SoloInv(Run(events), who)
  {
    if events == [] {
    } else {
      var before, e := events[..|events| - 1], events[|events| - 1];
      SoloCursorFollowsTip(before, who);
      RunKeepsInv(before);
      assert e in events;
      SoloStep(Run(before), e);
    }
  }
}
