/**
  The replication protocol as a step machine: a server with its WAL and slot, a durable target
  database, a volatile daemon, and the setup and teardown commands.  Every step is atomic; a
  crash can fall between any two.
*/
module Machine {
  import opened Prelude
  import opened Views
  import opened Aggregates
  import opened Flushes

  datatype Config = Config(views: seq<ViewSpec>, sem: Semantics) {
    ghost predicate Valid() { DistinctNames(views) && sem.Valid() }
  }

  /** A source transaction; endLsn is the first position after it. */
  datatype Txn = Txn(endLsn: nat, changes: seq<Change>)

  /** A whole source transaction in the daemon's memory, ready to flush. */
  datatype Sealed = Sealed(endLsn: nat, ops: seq<Op>)

  datatype Phase =
    | Idle
    | Executing(work: Db, todo: seq<Command>)  // inside the target transaction
    | Durable                                  // committed, but COMMIT has not returned
    | Returned                                 // COMMIT returned, not acknowledged yet

  datatype Daemon =
    | Down
    | Up(next: nat,                  // transaction the stream is delivering
         open: Option<seq<Op>>,      // buffer of the open Begin..Commit
         mid: nat,                   // changes of that transaction delivered so far
         pending: seq<Sealed>,
         checkpoint: nat,            // in memory
         flushLsn: nat,              // last position acknowledged on this stream
         phase: Phase)

  datatype Setup =
    | NotRunning
    | SlotChecked
    | CheckpointCleared
    | SlotCreated(snapshot: nat, point: nat)
    | BackfillOpen(snapshot: nat, point: nat, work: Db, done: nat)

  /** `boot`, `applied` and `log` record history: transactions in the last backfill, transactions
      in the targets, and what the daemon had pending at each commit since that backfill. */
  datatype Sys = Sys(
    wal: seq<Txn>, top: nat, slot: Option<nat>, inflight: set<nat>,
    db: Db, daemon: Daemon, setup: Setup,
    boot: nat, applied: nat, log: seq<seq<Sealed>>)

  const INITIAL := Sys([], 0, None, {}, NoSchema, Down, NotRunning, 0, 0, [])

  datatype Step =
    | SourceCommit(txn: Txn)
    | Start(from: nat)
    | DeliverBegin
    | DeliverRows(count: nat)
    | DeliverCommit
    | BeginFlush
    | ExecuteNext
    | CommitDurable
    | CommitReturns
    | Acknowledge
    | Keepalive
    | Crash
    | FeedbackArrives(lsn: nat)
    | FeedbackLost(lsn: nat)
    | SetupEnsureTable
    | SetupCheckSlot(force: bool)
    | SetupClearCheckpoint
    | SetupCreateSlot(point: nat)
    | SetupOpenBackfill
    | SetupBackfillView
    | SetupCommit
    | SetupCrash
    | TeardownSlot
    | TeardownSchema

  function AllChanges(txns: seq<Txn>): seq<Change> {
    if txns == [] then [] else txns[0].changes + AllChanges(txns[1..])
  }

  function PendingOps(pending: seq<Sealed>): seq<Op> {
    if pending == [] then [] else pending[0].ops + PendingOps(pending[1..])
  }

  predicate HasCheckpoint(db: Db) { db.Db? && db.checkpoint.Some? }

  function Max(a: nat, b: nat): nat { if a < b then b else a }

  // ---- the daemon -----------------------------------------------------------------

  /** Redelivery begins no later than the first transaction past the confirmed position. */
  predicate MayStart(s: Sys, from: nat) {
    && s.daemon.Down?
    && HasCheckpoint(s.db)
    && s.slot.Some?
    && from <= |s.wal|
    && forall i :: 0 <= i < from ==> s.wal[i].endLsn <= s.slot.value
  }

  function Started(s: Sys, from: nat): Sys
    requires MayStart(s, from)
  {
    s.(daemon := Up(from, None, 0, [], s.db.checkpoint.value, 0, Idle))
  }

  /** The stream is being read: a live daemon, not flushing, on a live slot. */
  predicate Streaming(s: Sys) {
    s.daemon.Up? && s.daemon.phase.Idle? && s.slot.Some? && s.daemon.next < |s.wal|
  }

  function DaemonSeesBegin(d: Daemon): Daemon
    requires d.Up?
  {
    d.(open := Some([]), mid := 0)
  }

  function DaemonSeesRows(d: Daemon, count: nat, ops: seq<Op>): Daemon
    requires d.Up? && d.open.Some?
  {
    d.(open := Some(d.open.value + ops), mid := d.mid + count)
  }

  /** The skip rule: a transaction at or before the checkpoint was applied before a crash. */
  function DaemonSeesCommit(d: Daemon, endLsn: nat): Daemon
    requires d.Up?
  {
    var ops := if d.open.Some? then d.open.value else [];
    d.(next := d.next + 1, open := None, mid := 0,
       pending := if endLsn > d.checkpoint then d.pending + [Sealed(endLsn, ops)] else d.pending)
  }

  predicate MayDeliverBegin(s: Sys) { Streaming(s) && s.daemon.open.None? }

  predicate MayDeliverRows(s: Sys, count: nat) {
    Streaming(s) && s.daemon.open.Some? && s.daemon.mid + count <= |s.wal[s.daemon.next].changes|
  }

  function RowsDelivered(s: Sys, count: nat): seq<Change>
    requires MayDeliverRows(s, count)
  {
    s.wal[s.daemon.next].changes[s.daemon.mid..s.daemon.mid + count]
  }

  predicate MayDeliverCommit(s: Sys) {
    Streaming(s) && s.daemon.open.Some? && s.daemon.mid == |s.wal[s.daemon.next].changes|
  }

  predicate MayFlush(s: Sys) { s.daemon.Up? && s.daemon.phase.Idle? && s.daemon.pending != [] }

  function LastLsn(pending: seq<Sealed>): nat
    requires pending != []
  {
    pending[|pending| - 1].endLsn
  }

  /** Builds the whole batch before any command runs: an unusable row halts the daemon first. */
  function FlushBegun(c: Config, s: Sys): Sys
    requires c.Valid() && MayFlush(s)
  {
    var (b, error) := ApplyOps(c.sem, c.views, EmptyBatch(c.views), PendingOps(s.daemon.pending));
    if error.Some? then s.(daemon := Down)
    else s.(daemon := s.daemon.(phase := Executing(s.db, FlushCommands(c.views, b, LastLsn(s.daemon.pending)))))
  }

  predicate InTransaction(s: Sys) { s.daemon.Up? && s.daemon.phase.Executing? }

  function CommandExecuted(c: Config, s: Sys): Sys
    requires InTransaction(s) && s.daemon.phase.todo != []
  {
    var p := s.daemon.phase;
    match Exec(c.sem, p.work, p.todo[0])
    case None => s.(daemon := Down)
    case Some(work) => s.(daemon := s.daemon.(phase := Executing(work, p.todo[1..])))
  }

  function Committed(s: Sys): Sys
    requires InTransaction(s)
  {
    s.(db := s.daemon.phase.work, daemon := s.daemon.(phase := Durable),
       applied := s.applied + |s.daemon.pending|, log := s.log + [s.daemon.pending])
  }

  function Acknowledged(s: Sys): Sys
    requires s.daemon.Up? && s.daemon.pending != []
  {
    var lsn := LastLsn(s.daemon.pending);
    s.(inflight := s.inflight + {lsn},
       daemon := s.daemon.(flushLsn := lsn, checkpoint := lsn, pending := [], phase := Idle))
  }

  // ---- setup and teardown -------------------------------------------------------------

  /** Creates the checkpoint table; this comes before the check of the slot, so a setup that is then
      refused, or dies, may leave an empty table behind.  A live daemon is on an existing slot. */
  predicate MayEnsureTable(s: Sys) { s.setup.NotRunning? && (s.daemon.Down? || s.slot.Some?) }

  function TableEnsured(s: Sys): Sys {
    s.(db := if s.db.NoSchema? then Db(map[], None) else s.db)
  }

  /** Refuses an existing slot without --force; a slot in use cannot be dropped. */
  predicate MayCheckSlot(s: Sys, force: bool) {
    s.setup.NotRunning? && s.daemon.Down? && (s.slot.None? || force)
  }

  function SlotCheckedBy(s: Sys): Sys {
    s.(slot := None, inflight := {}, setup := SlotChecked)
  }

  /** The values that the model compares as numbers are finite in every aggregated column. */
  ghost predicate Backfillable(sem: Semantics, view: ViewSpec, rows: multiset<Row>) {
    forall r, i :: r in rows && 0 <= i < |view.aggregates| ==>
      AggDeltas(sem, view.aggregates[i], r).Ok?
  }

  ghost predicate MayBackfillView(c: Config, s: Sys) {
    && s.setup.BackfillOpen? && s.setup.work.Db? && s.setup.done < |c.views| && s.setup.snapshot <= |s.wal|
    && Backfillable(c.sem, c.views[s.setup.done],
         Contents(AllChanges(s.wal[..s.setup.snapshot]), c.views[s.setup.done]))
  }

  ghost function ViewBackfilled(c: Config, s: Sys): Sys
    requires MayBackfillView(c, s)
  {
    var v := c.views[s.setup.done];
    var table := GroundTruth(v, c.sem, Contents(AllChanges(s.wal[..s.setup.snapshot]), v));
    s.(setup := s.setup.(work := s.setup.work.(tables := s.setup.work.tables[v.name := table]),
                         done := s.setup.done + 1))
  }

  function SetupCommitted(s: Sys): Sys
    requires s.setup.BackfillOpen? && s.setup.work.Db?
  {
    s.(db := s.setup.work.(checkpoint := Some(s.setup.point)), setup := NotRunning,
       boot := s.setup.snapshot, applied := s.setup.snapshot, log := [])
  }

  // ---- the source ------------------------------------------------------------------------

  /** The source commits in increasing LSN order, only touches rows that are there, and its
      numbers are small enough that no batch of its transactions leaves 28 digits. */
  ghost predicate MayCommit(c: Config, s: Sys, txn: Txn) {
    && s.top < txn.endLsn
    && ValidNext(c.views, AllChanges(s.wal), txn.changes)
    && forall i :: 0 <= i <= |s.wal| ==> Fits(c.sem, c.views, AllChanges(s.wal[i..] + [txn]))
  }

  // ---- the machine ------------------------------------------------------------------------

  ghost predicate Enabled(c: Config, s: Sys, step: Step) {
    match step
    case SourceCommit(txn) => MayCommit(c, s, txn)
    case Start(from) => MayStart(s, from)
    case DeliverBegin => MayDeliverBegin(s)
    case DeliverRows(count) => MayDeliverRows(s, count)
    case DeliverCommit => MayDeliverCommit(s)
    case BeginFlush => MayFlush(s)
    case ExecuteNext => InTransaction(s) && s.daemon.phase.todo != []
    case CommitDurable => InTransaction(s) && s.daemon.phase.todo == []
    case CommitReturns => s.daemon.Up? && s.daemon.phase.Durable?
    case Acknowledge => s.daemon.Up? && s.daemon.phase.Returned? && s.daemon.pending != [] && s.slot.Some?
    case Keepalive => s.daemon.Up? && s.daemon.phase.Idle? && s.slot.Some?
    case Crash => s.daemon.Up?
    case FeedbackArrives(lsn) => lsn in s.inflight && s.slot.Some?
    case FeedbackLost(lsn) => lsn in s.inflight
    case SetupEnsureTable => MayEnsureTable(s)
    case SetupCheckSlot(force) => MayCheckSlot(s, force)
    case SetupClearCheckpoint => s.setup.SlotChecked? && s.db.Db?
    case SetupCreateSlot(point) => s.setup.CheckpointCleared? && s.slot.None? && s.top <= point
    case SetupOpenBackfill => s.setup.SlotCreated? && s.db.Db?
    case SetupBackfillView => MayBackfillView(c, s)
    case SetupCommit => s.setup.BackfillOpen? && s.setup.work.Db? && s.setup.done == |c.views|
    case SetupCrash => !s.setup.NotRunning?
    case TeardownSlot => true
    case TeardownSchema => s.slot.None? && !InTransaction(s) && !s.setup.BackfillOpen?
  }

  ghost function Next(c: Config, s: Sys, step: Step): Sys
    requires c.Valid() && Enabled(c, s, step)
  {
    match step
    case SourceCommit(txn) => s.(wal := s.wal + [txn], top := txn.endLsn)
    case Start(from) => Started(s, from)
    case DeliverBegin => s.(daemon := DaemonSeesBegin(s.daemon))
    case DeliverRows(count) =>
      s.(daemon := DaemonSeesRows(s.daemon, count, OpsOfAll(c.views, RowsDelivered(s, count))))
    case DeliverCommit => s.(daemon := DaemonSeesCommit(s.daemon, s.wal[s.daemon.next].endLsn))
    case BeginFlush => FlushBegun(c, s)
    case ExecuteNext => CommandExecuted(c, s)
    case CommitDurable => Committed(s)
    case CommitReturns => s.(daemon := s.daemon.(phase := Returned))
    case Acknowledge => Acknowledged(s)
    case Keepalive => s.(inflight := s.inflight + {s.daemon.flushLsn})
    case Crash => s.(daemon := Down)
    case FeedbackArrives(lsn) => s.(slot := Some(Max(s.slot.value, lsn)), inflight := s.inflight - {lsn})
    case FeedbackLost(lsn) => s.(inflight := s.inflight - {lsn})
    case SetupEnsureTable => TableEnsured(s)
    case SetupCheckSlot(force) => SlotCheckedBy(s)
    case SetupClearCheckpoint => s.(db := s.db.(checkpoint := None), setup := CheckpointCleared)
    case SetupCreateSlot(point) => s.(slot := Some(point), top := point, setup := SlotCreated(|s.wal|, point))
    case SetupOpenBackfill => s.(setup := BackfillOpen(s.setup.snapshot, s.setup.point, s.db, 0))
    case SetupBackfillView => ViewBackfilled(c, s)
    case SetupCommit => SetupCommitted(s)
    case SetupCrash => s.(setup := NotRunning)
    case TeardownSlot => s.(slot := None, inflight := {})
    case TeardownSchema => s.(db := NoSchema)
  }

  /** A run from a state: each step enabled where it is taken. */
  ghost predicate IsRun(c: Config, s: Sys, steps: seq<Step>, end: Sys)
    requires c.Valid()
    decreases |steps|, 1
  {
    if steps == [] then s == end else GoesOn(c, s, steps, end)
  }

  ghost predicate GoesOn(c: Config, s: Sys, steps: seq<Step>, end: Sys)
    requires c.Valid() && steps != []
    decreases |steps|, 0
  {
    Enabled(c, s, steps[0]) && IsRun(c, Next(c, s, steps[0]), steps[1..], end)
  }

  ghost predicate Leads(c: Config, s: Sys, end: Sys)
    requires c.Valid()
  {
    exists steps :: IsRun(c, s, steps, end)
  }

  ghost predicate Reachable(c: Config, s: Sys)
    requires c.Valid()
  {
    Leads(c, INITIAL, s)
  }

  lemma {:induction false} RunsCompose(c: Config, a: Sys, first: seq<Step>, b: Sys, second: seq<Step>, end: Sys)
    requires c.Valid() && IsRun(c, a, first, b) && IsRun(c, b, second, end)
    ensures IsRun(c, a, first + second, end)
    decreases |first|
  {
    if first == [] {
      assert first + second == second;
    } else {
      assert (first + second)[0] == first[0] && (first + second)[1..] == first[1..] + second;
      RunsCompose(c, Next(c, a, first[0]), first[1..], b, second, end);
    }
  }

  lemma LeadsOn(c: Config, a: Sys, b: Sys, step: Step)
    requires c.Valid() && Leads(c, a, b) && Enabled(c, b, step)
    ensures Leads(c, a, Next(c, b, step))
  {
    var first :| IsRun(c, a, first, b);
    var end := Next(c, b, step);
    assert [step][1..] == [];
    assert IsRun(c, end, [], end);
    assert IsRun(c, b, [step], end);
    RunsCompose(c, a, first, b, [step], end);
  }

  lemma LeadsFrom(c: Config, s: Sys)
    requires c.Valid()
    ensures Leads(c, s, s)
  {
    assert IsRun(c, s, [], s);
  }
}
