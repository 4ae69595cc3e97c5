/**
  The invariant of the step machine and its proof over every run: targets equal their views after
  exactly the WAL prefix up to the durable checkpoint, across crashes, lost feedback, restarts,
  setups and teardowns.
*/
module Safety {
  import opened Prelude
  import opened Views
  import opened Aggregates
  import opened Maintenance
  import opened Flushes
  import opened Machine

  // ---- the WAL ----------------------------------------------------------------------

  ghost predicate Ordered(wal: seq<Txn>, top: nat) {
    && (forall i, j :: 0 <= i < j < |wal| ==> wal[i].endLsn < wal[j].endLsn)
    && (forall i :: 0 <= i < |wal| ==> wal[i].endLsn <= top)
  }

  /** Each transaction is valid after those before it. */
  ghost predicate HistoryOk(views: seq<ViewSpec>, wal: seq<Txn>) {
    forall i :: 0 <= i < |wal| ==> ValidAt(views, wal, i)
  }

  ghost predicate ValidAt(views: seq<ViewSpec>, wal: seq<Txn>, i: nat)
    requires i < |wal|
  {
    ValidNext(views, AllChanges(wal[..i]), wal[i].changes)
  }

  ghost predicate WalOk(c: Config, wal: seq<Txn>, top: nat) {
    && Ordered(wal, top)
    && HistoryOk(c.views, wal)
    && (forall i, j :: 0 <= i <= j <= |wal| ==> Fits(c.sem, c.views, AllChanges(wal[i..j])))
  }

  /** The first n transactions, and no others, end at or before the position. */
  ghost predicate Splits(wal: seq<Txn>, n: nat, lsn: nat) {
    && n <= |wal|
    && (forall i :: 0 <= i < n ==> wal[i].endLsn <= lsn)
    && (forall i :: n <= i < |wal| ==> lsn < wal[i].endLsn)
  }

  function SealsOf(c: Config, txns: seq<Txn>): (r: seq<Sealed>)
    ensures |r| == |txns|
  {
    seq(|txns|, i requires 0 <= i < |txns| => Sealed(txns[i].endLsn, OpsOfAll(c.views, txns[i].changes)))
  }

  lemma {:induction false} AllChangesAppend(a: seq<Txn>, b: seq<Txn>)
    ensures AllChanges(a + b) == AllChanges(a) + AllChanges(b)
  {
    if a == [] {
      assert a + b == b;
    } else {
      assert (a + b)[0] == a[0] && (a + b)[1..] == a[1..] + b;
      AllChangesAppend(a[1..], b);
    }
  }

  lemma {:induction false} PendingOpsAre(c: Config, txns: seq<Txn>)
    ensures PendingOps(SealsOf(c, txns)) == OpsOfAll(c.views, AllChanges(txns))
  {
    if txns != [] {
      assert SealsOf(c, txns)[1..] == SealsOf(c, txns[1..]);
      PendingOpsAre(c, txns[1..]);
      OpsAppend(c.views, txns[0].changes, AllChanges(txns[1..]));
    }
  }

  lemma SegmentsJoin(wal: seq<Txn>, a: nat, b: nat)
    requires a <= b <= |wal|
    ensures AllChanges(wal[..a]) + AllChanges(wal[a..b]) == AllChanges(wal[..b])
  {
    AllChangesAppend(wal[..a], wal[a..b]);
    assert wal[..a] + wal[a..b] == wal[..b];
  }

  lemma LastOfSegment(wal: seq<Txn>, a: nat, b: nat)
    requires a < b <= |wal|
    ensures AllChanges(wal[a..b]) == AllChanges(wal[a..b - 1]) + wal[b - 1].changes
  {
    assert wal[a..b] == wal[a..b - 1] + [wal[b - 1]];
    AllChangesAppend(wal[a..b - 1], [wal[b - 1]]);
    assert AllChanges([wal[b - 1]]) == wal[b - 1].changes + [];
  }

  lemma {:induction false} SegmentIsValid(views: seq<ViewSpec>, wal: seq<Txn>, a: nat, b: nat)
    requires a <= b <= |wal| && HistoryOk(views, wal)
    ensures ValidNext(views, AllChanges(wal[..a]), AllChanges(wal[a..b]))
    decreases b - a
  {
    if a == b {
      NothingIsValid(views, AllChanges(wal[..a]), AllChanges(wal[a..b]));
    } else {
      SegmentIsValid(views, wal, a, b - 1);
      SegmentStep(views, wal, a, b);
    }
  }

  lemma NothingIsValid(views: seq<ViewSpec>, history: seq<Change>, changes: seq<Change>)
    requires |changes| == 0
    ensures ValidNext(views, history, changes)
  {
  }

  lemma SegmentStep(views: seq<ViewSpec>, wal: seq<Txn>, a: nat, b: nat)
    requires a < b <= |wal|
    requires ValidNext(views, AllChanges(wal[..a]), AllChanges(wal[a..b - 1]))
    requires ValidAt(views, wal, b - 1)
    ensures ValidNext(views, AllChanges(wal[..a]), AllChanges(wal[a..b]))
  {
    SegmentsJoin(wal, a, b - 1);
    LastOfSegment(wal, a, b);
    ValidJoins(views, AllChanges(wal[..a]), AllChanges(wal[a..b - 1]), wal[b - 1].changes,
               AllChanges(wal[..b - 1]), AllChanges(wal[a..b]));
  }

  lemma ValidJoins(views: seq<ViewSpec>, history: seq<Change>, x: seq<Change>, y: seq<Change>, middle: seq<Change>,
                   all: seq<Change>)
    requires ValidNext(views, history, x) && ValidNext(views, middle, y) && middle == history + x && all == x + y
    ensures ValidNext(views, history, all)
  {
    ValidNextAppend(views, history, x, y);
  }

  lemma GrownIsValid(views: seq<ViewSpec>, wal: seq<Txn>, txn: Txn)
    requires HistoryOk(views, wal)
    requires ValidNext(views, AllChanges(wal), txn.changes)
    ensures HistoryOk(views, wal + [txn])
  {
    forall i | 0 <= i < |wal + [txn]| ensures ValidAt(views, wal + [txn], i) {
      GrownIsValidAt(views, wal, txn, i);
    }
  }

  lemma GrownIsValidAt(views: seq<ViewSpec>, wal: seq<Txn>, txn: Txn, i: nat)
    requires if i < |wal| then ValidAt(views, wal, i) else i == |wal| && ValidNext(views, AllChanges(wal), txn.changes)
    ensures ValidAt(views, wal + [txn], i)
  {
    assert (wal + [txn])[..i] == wal[..i];
    assert wal[..|wal|] == wal;
  }

  lemma GrownFits(c: Config, wal: seq<Txn>, txn: Txn)
    requires forall i, j :: 0 <= i <= j <= |wal| ==> Fits(c.sem, c.views, AllChanges(wal[i..j]))
    requires forall i :: 0 <= i <= |wal| ==> Fits(c.sem, c.views, AllChanges(wal[i..] + [txn]))
    ensures forall i, j :: 0 <= i <= j <= |wal + [txn]| ==> Fits(c.sem, c.views, AllChanges((wal + [txn])[i..j]))
  {
    var more := wal + [txn];
    forall i, j | 0 <= i <= j <= |more| ensures Fits(c.sem, c.views, AllChanges(more[i..j])) {
      if j <= |wal| {
        assert more[i..j] == wal[i..j];
      } else if i <= |wal| {
        assert more[i..j] == wal[i..] + [txn];
      } else {
        assert more[i..j] == wal[0..0];
      }
    }
  }

  // ---- the invariant -------------------------------------------------------------------

  ghost predicate TargetsOk(c: Config, s: Sys) {
    HasCheckpoint(s.db) ==>
      && s.boot <= s.applied
      && Splits(s.wal, s.applied, s.db.checkpoint.value)
      && s.db.checkpoint.value <= s.top
      && Holds(c.views, c.sem, s.db.tables, AllChanges(s.wal[..s.applied]))
      && Flatten(s.log) == SealsOf(c, s.wal[s.boot..s.applied])
  }

  ghost predicate SlotOk(s: Sys) {
    && (s.slot.None? ==> s.inflight == {})
    && (s.slot.Some? && HasCheckpoint(s.db) ==>
          && s.slot.value <= s.db.checkpoint.value
          && forall l :: l in s.inflight ==> l <= s.db.checkpoint.value)
  }

  /** The open buffer holds the operations of the delivered part of one transaction. */
  ghost predicate BufferOk(c: Config, s: Sys)
    requires s.daemon.Up?
  {
    var d := s.daemon;
    && d.next <= |s.wal|
    && (d.open.Some? ==>
          && d.next < |s.wal|
          && d.mid <= |s.wal[d.next].changes|
          && d.open.value == OpsOfAll(c.views, s.wal[d.next].changes[..d.mid]))
  }

  /** `pending` is the run of whole transactions right after the checkpoint that were delivered. */
  ghost predicate PendingOk(c: Config, s: Sys)
    requires s.daemon.Up? && HasCheckpoint(s.db) && s.applied <= |s.wal| && s.daemon.next <= |s.wal|
  {
    var d := s.daemon;
    var ckpt := s.db.checkpoint.value;
    match d.phase
    case Idle =>
      d.checkpoint == ckpt && d.pending == SealsOf(c, s.wal[s.applied..Max(s.applied, d.next)])
    case Executing(work, todo) =>
      && d.checkpoint == ckpt && d.pending == SealsOf(c, s.wal[s.applied..Max(s.applied, d.next)])
      && d.pending != []
      && WillReach(c, s, work, todo)
    case _ =>
      && d.pending != [] && |d.pending| <= s.applied && d.next == s.applied
      && d.pending == SealsOf(c, s.wal[s.applied - |d.pending|..s.applied])
      && LastLsn(d.pending) == ckpt
  }

  /** Finishing the open target transaction would install the views of the pending run. */
  ghost predicate WillReach(c: Config, s: Sys, work: Db, todo: seq<Command>)
    requires s.daemon.Up? && s.applied <= |s.wal| && s.daemon.pending != []
  {
    var after := ExecAll(c.sem, work, todo);
    var n := Max(s.applied, s.daemon.next);
    && after.Some? && after.value.Db?
    && after.value.checkpoint == Some(LastLsn(s.daemon.pending))
    && n <= |s.wal|
    && Holds(c.views, c.sem, after.value.tables, AllChanges(s.wal[..n]))
  }

  ghost predicate DaemonOk(c: Config, s: Sys) {
    s.daemon.Up? ==>
      && s.setup.NotRunning?
      && BufferOk(c, s)
      && (s.db.NoSchema? || s.db.checkpoint.Some?)
      && (s.slot.Some? ==> s.db.Db?)
      && (s.db.NoSchema? && s.daemon.phase.Executing? ==>
            s.daemon.phase.work.NoSchema? && s.daemon.phase.todo != [])
      && (HasCheckpoint(s.db) && s.applied <= |s.wal| ==>
            s.daemon.flushLsn <= s.db.checkpoint.value && PendingOk(c, s))
  }

  /** The first n views hold what they must after this history. */
  ghost predicate Backfilled(c: Config, history: seq<Change>, tables: map<Text, Table>, n: nat)
    requires n <= |c.views|
  {
    forall i :: 0 <= i < n ==>
      && c.views[i].name in tables
      && tables[c.views[i].name] == GroundTruth(c.views[i], c.sem, Contents(history, c.views[i]))
  }

  ghost predicate SetupOk(c: Config, s: Sys) {
    match s.setup
    case NotRunning => true
    case SlotChecked => s.slot.None?
    case CheckpointCleared => s.slot.None? && !HasCheckpoint(s.db)
    case SlotCreated(n, point) => Handshake(s, n, point)
    case BackfillOpen(n, point, work, done) =>
      && Handshake(s, n, point)
      && work.Db? && done <= |c.views|
      && Backfilled(c, AllChanges(s.wal[..n]), work.tables, done)
  }

  /** The slot (unless torn down meanwhile) starts where the exported snapshot ends. */
  ghost predicate Handshake(s: Sys, n: nat, point: nat) {
    && !HasCheckpoint(s.db)
    && (s.slot.Some? ==> s.slot.value == point)
    && s.inflight == {}
    && Splits(s.wal, n, point)
    && point <= s.top
  }

  ghost predicate Inv(c: Config, s: Sys) {
    WalOk(c, s.wal, s.top) && TargetsOk(c, s) && SlotOk(s) && DaemonOk(c, s) && SetupOk(c, s)
  }

  // ---- every step keeps it -----------------------------------------------------------------

  lemma InitialHolds(c: Config)
    ensures Inv(c, INITIAL)
  {
    assert forall v :: v in c.views ==> FitsEvents(c.sem, v, EMPTY, EventsOn([], v.source));
  }

  /** Appending to the WAL leaves every statement about its prefix as it was. */
  lemma PrefixesStay(wal: seq<Txn>, txn: Txn)
    ensures forall n :: 0 <= n <= |wal| ==> (wal + [txn])[..n] == wal[..n]
    ensures forall m, n :: 0 <= m <= n <= |wal| ==> (wal + [txn])[m..n] == wal[m..n]
  {
  }

  lemma SplitsGrow(wal: seq<Txn>, n: nat, lsn: nat, txn: Txn)
    requires Splits(wal, n, lsn) && lsn < txn.endLsn
    ensures Splits(wal + [txn], n, lsn)
  {
  }

  lemma CommitKeepsTargets(c: Config, s: Sys, txn: Txn)
    requires TargetsOk(c, s) && s.top < txn.endLsn
    ensures TargetsOk(c, s.(wal := s.wal + [txn], top := txn.endLsn))
  {
    if HasCheckpoint(s.db) {
      SplitsGrow(s.wal, s.applied, s.db.checkpoint.value, txn);
      PrefixesStay(s.wal, txn);
      TargetsMeet(c, s.(wal := s.wal + [txn], top := txn.endLsn), s.applied);
    }
  }

  lemma CommitKeepsHandshake(s: Sys, txn: Txn, n: nat, point: nat)
    requires Handshake(s, n, point) && s.top < txn.endLsn
    ensures Handshake(s.(wal := s.wal + [txn], top := txn.endLsn), n, point)
    ensures (s.wal + [txn])[..n] == s.wal[..n]
  {
  }

  lemma CommitKeepsSetup(c: Config, s: Sys, txn: Txn)
    requires SetupOk(c, s) && s.top < txn.endLsn
    ensures SetupOk(c, s.(wal := s.wal + [txn], top := txn.endLsn))
  {
    if s.setup.SlotCreated? || s.setup.BackfillOpen? {
      CommitKeepsHandshake(s, txn, s.setup.snapshot, s.setup.point);
    }
  }

  lemma CommitKeepsDaemon(c: Config, s: Sys, txn: Txn)
    requires c.Valid() && Inv(c, s) && MayCommit(c, s, txn)
    ensures DaemonOk(c, Next(c, s, SourceCommit(txn)))
  {
    PrefixesStay(s.wal, txn);
  }

  lemma CommitKeeps(c: Config, s: Sys, txn: Txn)
    requires c.Valid() && Inv(c, s) && MayCommit(c, s, txn)
    ensures Inv(c, Next(c, s, SourceCommit(txn)))
  {
    GrownIsValid(c.views, s.wal, txn);
    GrownFits(c, s.wal, txn);
    CommitKeepsTargets(c, s, txn);
    CommitKeepsSetup(c, s, txn);
    CommitKeepsDaemon(c, s, txn);
  }

  /** Everything missing from the targets lies past the confirmed position. */
  lemma StartsEarlyEnough(c: Config, s: Sys, from: nat)
    requires Inv(c, s) && MayStart(s, from)
    ensures from <= s.applied
  {
    assert s.applied < |s.wal| ==> s.db.checkpoint.value < s.wal[s.applied].endLsn;
  }

  lemma StartKeeps(c: Config, s: Sys, from: nat)
    requires c.Valid() && Inv(c, s) && MayStart(s, from)
    ensures Inv(c, Next(c, s, Start(from)))
  {
    StartsEarlyEnough(c, s, from);
    assert s.wal[s.applied..s.applied] == [];
  }

  lemma BufferGrows(c: Config, changes: seq<Change>, mid: nat, count: nat)
    requires mid + count <= |changes|
    ensures OpsOfAll(c.views, changes[..mid]) + OpsOfAll(c.views, changes[mid..mid + count]) ==
            OpsOfAll(c.views, changes[..mid + count])
  {
    assert changes[..mid] + changes[mid..mid + count] == changes[..mid + count];
    OpsAppend(c.views, changes[..mid], changes[mid..mid + count]);
  }

  lemma DeliverBeginKeeps(c: Config, s: Sys)
    requires DaemonOk(c, s) && MayDeliverBegin(s)
    ensures DaemonOk(c, s.(daemon := DaemonSeesBegin(s.daemon)))
  {
  }

  lemma DeliverRowsKeeps(c: Config, s: Sys, count: nat)
    requires DaemonOk(c, s) && MayDeliverRows(s, count)
    ensures DaemonOk(c, s.(daemon := DaemonSeesRows(s.daemon, count, OpsOfAll(c.views, RowsDelivered(s, count)))))
  {
    BufferGrows(c, s.wal[s.daemon.next].changes, s.daemon.mid, count);
  }

  lemma DeliverCommitKeeps(c: Config, s: Sys)
    requires TargetsOk(c, s) && DaemonOk(c, s) && MayDeliverCommit(s)
    ensures DaemonOk(c, s.(daemon := DaemonSeesCommit(s.daemon, s.wal[s.daemon.next].endLsn)))
  {
    if HasCheckpoint(s.db) {
      PendingGrows(c, s);
    }
  }

  lemma PendingGrows(c: Config, s: Sys)
    requires TargetsOk(c, s) && DaemonOk(c, s) && MayDeliverCommit(s) && HasCheckpoint(s.db)
    ensures DaemonSeesCommit(s.daemon, s.wal[s.daemon.next].endLsn).pending ==
            SealsOf(c, s.wal[s.applied..Max(s.applied, s.daemon.next + 1)])
  {
    var d := s.daemon;
    assert s.wal[d.next].changes[..d.mid] == s.wal[d.next].changes;
    if s.applied <= d.next {
      SealsGrow(c, s.wal, s.applied, d.next);
    }
  }

  lemma SealsGrow(c: Config, wal: seq<Txn>, a: nat, n: nat)
    requires a <= n < |wal|
    ensures SealsOf(c, wal[a..n + 1]) ==
            SealsOf(c, wal[a..n]) + [Sealed(wal[n].endLsn, OpsOfAll(c.views, wal[n].changes))]
  {
  }

  lemma BeginFlushKeeps(c: Config, s: Sys)
    requires c.Valid() && Inv(c, s) && MayFlush(s)
    ensures Inv(c, Next(c, s, BeginFlush))
  {
    var d := s.daemon;
    var s' := Next(c, s, BeginFlush);
    if HasCheckpoint(s.db) && s'.daemon.Up? {
      var a, b := s.applied, Max(s.applied, d.next);
      var changes := AllChanges(s.wal[a..b]);
      PendingOpsAre(c, s.wal[a..b]);
      SegmentIsValid(c.views, s.wal, a, b);
      SegmentsJoin(s.wal, a, b);
      FlushMaintainsViews(c.views, c.sem, s.db, AllChanges(s.wal[..a]), changes, LastLsn(d.pending));
    }
  }

  lemma ExecuteKeeps(c: Config, s: Sys)
    requires Inv(c, s) && InTransaction(s) && s.daemon.phase.todo != []
    ensures Inv(c, CommandExecuted(c, s))
  {
  }

  lemma SplitsAfter(wal: seq<Txn>, top: nat, a: nat, n: nat, lsn: nat)
    requires Ordered(wal, top) && Splits(wal, a, lsn) && a < n <= |wal|
    ensures Splits(wal, n, wal[n - 1].endLsn) && lsn < wal[n - 1].endLsn <= top
  {
  }

  /** With no command left, the open transaction holds the views of the longer prefix. */
  lemma WorkIsFinished(c: Config, s: Sys)
    requires InTransaction(s) && s.daemon.phase.todo == [] && s.daemon.pending != [] && s.applied <= |s.wal|
    requires WillReach(c, s, s.daemon.phase.work, s.daemon.phase.todo)
    ensures var work, n := s.daemon.phase.work, Max(s.applied, s.daemon.next);
            && work.Db? && work.checkpoint == Some(LastLsn(s.daemon.pending)) && n <= |s.wal|
            && Holds(c.views, c.sem, work.tables, AllChanges(s.wal[..n]))
  {
  }

  lemma CommitDurableSplits(c: Config, s: Sys)
    requires InTransaction(s) && HasCheckpoint(s.db)
    requires Ordered(s.wal, s.top) && TargetsOk(c, s) && s.daemon.next <= |s.wal| && PendingOk(c, s)
    ensures var n := s.applied + |s.daemon.pending|;
            n <= |s.wal| && n == s.daemon.next && Splits(s.wal, n, LastLsn(s.daemon.pending))
    ensures s.db.checkpoint.value <= LastLsn(s.daemon.pending) <= s.top
  {
    CommitInstallsBatch(c, s);
    SplitsAfter(s.wal, s.top, s.applied, s.daemon.next, s.db.checkpoint.value);
  }

  lemma CommittedIs(s: Sys)
    requires InTransaction(s) && s.applied + |s.daemon.pending| == s.daemon.next <= |s.wal|
    ensures var t := Committed(s);
            && t.db == s.daemon.phase.work && t.wal == s.wal && t.top == s.top && t.boot == s.boot
            && t.applied == s.daemon.next && t.log == s.log + [s.daemon.pending]
  {
  }

  lemma CommitDurableTargets(c: Config, s: Sys)
    requires InTransaction(s) && s.daemon.phase.todo == [] && HasCheckpoint(s.db)
    requires Ordered(s.wal, s.top) && TargetsOk(c, s) && s.daemon.next <= |s.wal| && PendingOk(c, s)
    ensures TargetsOk(c, Committed(s)) && HasCheckpoint(Committed(s).db)
    ensures Committed(s).db.checkpoint.value == LastLsn(s.daemon.pending)
  {
    CommitDurableSplits(c, s);
    CommitInstallsBatch(c, s);
    WorkIsFinished(c, s);
    CommittedIs(s);
    TargetsMeet(c, Committed(s), s.daemon.next);
  }

  lemma TargetsMeet(c: Config, t: Sys, n: nat)
    requires HasCheckpoint(t.db) && t.applied == n && t.boot <= n
    requires Splits(t.wal, n, t.db.checkpoint.value) && t.db.checkpoint.value <= t.top
    requires Holds(c.views, c.sem, t.db.tables, AllChanges(t.wal[..n]))
    requires Flatten(t.log) == SealsOf(c, t.wal[t.boot..n])
    ensures TargetsOk(c, t)
  {
  }

  lemma CommitDurableDaemon(c: Config, s: Sys)
    requires InTransaction(s) && s.daemon.phase.todo == [] && HasCheckpoint(s.db)
    requires Ordered(s.wal, s.top) && TargetsOk(c, s) && DaemonOk(c, s)
    ensures DaemonOk(c, Committed(s))
  {
    CommitDurableSplits(c, s);
    CommitDurableTargets(c, s);
    assert s.wal[s.applied..s.daemon.next] == s.wal[s.applied..Max(s.applied, s.daemon.next)];
  }

  lemma CommitDurableKeeps(c: Config, s: Sys)
    requires c.Valid() && Inv(c, s) && Enabled(c, s, CommitDurable)
    ensures Inv(c, Next(c, s, CommitDurable))
  {
    assert HasCheckpoint(s.db);
    CommitDurableSplits(c, s);
    CommitDurableTargets(c, s);
    CommitDurableDaemon(c, s);
  }

  /** What a commit installs is the next stretch of the WAL: each transaction of it once, with the
      operations of all its changes, in order. */
  lemma CommitInstallsBatch(c: Config, s: Sys)
    requires s.daemon.Up? && s.daemon.phase.Executing? && HasCheckpoint(s.db)
    requires TargetsOk(c, s) && s.daemon.next <= |s.wal| && PendingOk(c, s)
    ensures Max(s.applied, s.daemon.next) == s.applied + |s.daemon.pending| == s.daemon.next
    ensures s.daemon.pending == SealsOf(c, s.wal[s.applied..s.daemon.next])
    ensures LastLsn(s.daemon.pending) == s.wal[s.daemon.next - 1].endLsn
    ensures Flatten(s.log + [s.daemon.pending]) == SealsOf(c, s.wal[s.boot..s.daemon.next])
  {
    var n := Max(s.applied, s.daemon.next);
    LastSeal(c, s.wal, s.applied, n);
    LogGrows(c, s.wal, s.log, s.boot, s.applied, n);
  }

  lemma LastSeal(c: Config, wal: seq<Txn>, a: nat, n: nat)
    requires a <= n <= |wal|
    ensures |SealsOf(c, wal[a..n])| == n - a
    ensures a < n ==> LastLsn(SealsOf(c, wal[a..n])) == wal[n - 1].endLsn
  {
  }

  lemma LogGrows(c: Config, wal: seq<Txn>, log: seq<seq<Sealed>>, boot: nat, a: nat, n: nat)
    requires boot <= a <= n <= |wal| && Flatten(log) == SealsOf(c, wal[boot..a])
    ensures Flatten(log + [SealsOf(c, wal[a..n])]) == SealsOf(c, wal[boot..n])
  {
    var batch := SealsOf(c, wal[a..n]);
    FlattenAppend(log, [batch]);
    assert [batch][1..] == [];
    assert Flatten([batch]) == batch + [];
    SealsJoin(c, wal, boot, a, n);
  }

  lemma SealsJoin(c: Config, wal: seq<Txn>, boot: nat, a: nat, n: nat)
    requires boot <= a <= n <= |wal|
    ensures SealsOf(c, wal[boot..a]) + SealsOf(c, wal[a..n]) == SealsOf(c, wal[boot..n])
  {
  }

  lemma AcknowledgeKeeps(c: Config, s: Sys)
    requires Inv(c, s) && s.daemon.Up? && s.daemon.phase.Returned? && s.daemon.pending != [] && s.slot.Some?
    ensures Inv(c, Acknowledged(s))
  {
    assert s.applied <= |s.wal| ==> s.wal[s.applied..s.applied] == [];
  }

  lemma ReturnKeeps(c: Config, s: Sys, step: Step)
    requires c.Valid() && Inv(c, s) && Enabled(c, s, step)
    requires step.CommitReturns? || step.Crash?
    ensures Inv(c, Next(c, s, step))
  {
  }

  lemma FeedbackKeeps(c: Config, s: Sys, step: Step)
    requires c.Valid() && Inv(c, s) && Enabled(c, s, step)
    requires step.Keepalive? || step.FeedbackArrives? || step.FeedbackLost?
    ensures Inv(c, Next(c, s, step))
  {
    FeedbackKeepsRest(c, s, Next(c, s, step));
  }

  /** Only slot, positions in flight and the position acknowledged differ. */
  lemma FeedbackKeepsRest(c: Config, s: Sys, t: Sys)
    requires TargetsOk(c, s) && DaemonOk(c, s)
    requires t == s.(slot := t.slot, inflight := t.inflight) && (t.slot.Some? ==> s.slot.Some?)
    ensures TargetsOk(c, t) && DaemonOk(c, t)
  {
  }

  /** The views backfilled so far keep their tables when one more is added. */
  lemma OneMoreBackfilled(c: Config, history: seq<Change>, tables: map<Text, Table>, n: nat)
    requires DistinctNames(c.views) && n < |c.views| && Backfilled(c, history, tables, n)
    ensures var v := c.views[n];
            Backfilled(c, history, tables[v.name := GroundTruth(v, c.sem, Contents(history, v))], n + 1)
  {
  }

  lemma BackfillKeeps(c: Config, s: Sys)
    requires c.Valid() && Inv(c, s) && MayBackfillView(c, s)
    ensures Inv(c, ViewBackfilled(c, s))
  {
    OneMoreBackfilled(c, AllChanges(s.wal[..s.setup.snapshot]), s.setup.work.tables, s.setup.done);
  }

  lemma SetupCommitKeeps(c: Config, s: Sys)
    requires c.Valid() && Inv(c, s) && Enabled(c, s, SetupCommit)
    ensures Inv(c, Next(c, s, SetupCommit))
  {
    assert s.wal[s.setup.snapshot..s.setup.snapshot] == [];
  }

  lemma PrepareKeeps(c: Config, s: Sys, step: Step)
    requires c.Valid() && Inv(c, s) && Enabled(c, s, step)
    requires step.SetupEnsureTable? || step.SetupCheckSlot? || step.SetupClearCheckpoint?
    ensures Inv(c, Next(c, s, step))
  {
  }

  lemma SnapshotKeeps(c: Config, s: Sys, step: Step)
    requires c.Valid() && Inv(c, s) && Enabled(c, s, step)
    requires step.SetupCreateSlot? || step.SetupOpenBackfill? || step.SetupCrash?
    ensures Inv(c, Next(c, s, step))
  {
  }

  lemma TeardownKeeps(c: Config, s: Sys, step: Step)
    requires c.Valid() && Inv(c, s) && Enabled(c, s, step)
    requires step.TeardownSlot? || step.TeardownSchema?
    ensures Inv(c, Next(c, s, step))
  {
  }

  predicate DaemonStep(step: Step) {
    || step.Start? || step.DeliverBegin? || step.DeliverRows? || step.DeliverCommit? || step.BeginFlush?
    || step.ExecuteNext? || step.CommitDurable? || step.CommitReturns? || step.Acknowledge? || step.Crash?
  }

  predicate SetupStep(step: Step) {
    || step.SetupEnsureTable? || step.SetupCheckSlot? || step.SetupClearCheckpoint? || step.SetupCreateSlot?
    || step.SetupOpenBackfill? || step.SetupBackfillView? || step.SetupCommit? || step.SetupCrash?
  }

  lemma DaemonStepKeeps(c: Config, s: Sys, step: Step)
    requires c.Valid() && Inv(c, s) && Enabled(c, s, step) && DaemonStep(step)
    ensures Inv(c, Next(c, s, step))
  {
    match step
    case Start(from) => StartKeeps(c, s, from);
    case DeliverBegin => DeliverBeginKeeps(c, s);
    case DeliverRows(count) => DeliverRowsKeeps(c, s, count);
    case DeliverCommit => DeliverCommitKeeps(c, s);
    case BeginFlush => BeginFlushKeeps(c, s);
    case ExecuteNext => ExecuteKeeps(c, s);
    case CommitDurable => CommitDurableKeeps(c, s);
    case Acknowledge => AcknowledgeKeeps(c, s);
    case CommitReturns => ReturnKeeps(c, s, step);
    case Crash => ReturnKeeps(c, s, step);
  }

  lemma SetupStepKeeps(c: Config, s: Sys, step: Step)
    requires c.Valid() && Inv(c, s) && Enabled(c, s, step) && SetupStep(step)
    ensures Inv(c, Next(c, s, step))
  {
    match step
    case SetupBackfillView => BackfillKeeps(c, s);
    case SetupCommit => SetupCommitKeeps(c, s);
    case SetupCreateSlot(_) => SnapshotKeeps(c, s, step);
    case SetupOpenBackfill => SnapshotKeeps(c, s, step);
    case SetupCrash => SnapshotKeeps(c, s, step);
    case SetupEnsureTable => PrepareKeeps(c, s, step);
    case SetupCheckSlot(_) => PrepareKeeps(c, s, step);
    case SetupClearCheckpoint => PrepareKeeps(c, s, step);
  }

  lemma StepKeeps(c: Config, s: Sys, step: Step)
    requires c.Valid() && Inv(c, s) && Enabled(c, s, step)
    ensures Inv(c, Next(c, s, step))
  {
    if DaemonStep(step) {
      DaemonStepKeeps(c, s, step);
    } else if SetupStep(step) {
      SetupStepKeeps(c, s, step);
    } else {
      match step
      case SourceCommit(txn) => CommitKeeps(c, s, txn);
      case Keepalive => FeedbackKeeps(c, s, step);
      case FeedbackArrives(_) => FeedbackKeeps(c, s, step);
      case FeedbackLost(_) => FeedbackKeeps(c, s, step);
      case TeardownSlot => TeardownKeeps(c, s, step);
      case TeardownSchema => TeardownKeeps(c, s, step);
    }
  }

  lemma {:induction false} RunKeeps(c: Config, s: Sys, steps: seq<Step>, end: Sys)
    requires c.Valid() && Inv(c, s) && IsRun(c, s, steps, end)
    ensures Inv(c, end)
    decreases |steps|
  {
    if steps != [] {
      StepKeeps(c, s, steps[0]);
      RunKeeps(c, Next(c, s, steps[0]), steps[1..], end);
    }
  }
}
