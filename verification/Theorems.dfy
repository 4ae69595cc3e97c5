/** The promises of the protocol, over every run of the step machine. */
module Theorems {
  import opened Prelude
  import opened Views
  import opened Aggregates
  import opened Flushes
  import opened ViewResults
  import opened Machine
  import opened Safety

  lemma ReachableIsSafe(c: Config, s: Sys)
    requires c.Valid() && Reachable(c, s)
    ensures Inv(c, s)
  {
    var steps :| IsRun(c, INITIAL, steps, s);
    InitialHolds(c);
    RunKeeps(c, INITIAL, steps, s);
  }

  /** Exactly once: in every reachable state that has a checkpoint, each target is the GROUP BY of
      its source after exactly the transactions that end at or before the checkpoint, and the
      batches committed since the backfill, joined, are the transactions after it: none missing,
      none twice. */
  lemma TargetsEqualPrefix(c: Config, s: Sys, v: ViewSpec)
    requires c.Valid() && Reachable(c, s) && HasCheckpoint(s.db) && v in c.views
    ensures Splits(s.wal, s.applied, s.db.checkpoint.value)
    ensures v.name in s.db.tables
    ensures s.db.tables[v.name] == GroundTruth(v, c.sem, Contents(AllChanges(s.wal[..s.applied]), v))
    ensures s.boot <= s.applied && Flatten(s.log) == SealsOf(c, s.wal[s.boot..s.applied])
  {
    ReachableIsSafe(c, s);
  }

  /** What is acknowledged, in flight or confirmed never passes the durable checkpoint. */
  lemma AckNeverPassesCheckpoint(c: Config, s: Sys)
    requires c.Valid() && Reachable(c, s) && HasCheckpoint(s.db) && s.slot.Some?
    ensures s.slot.value <= s.db.checkpoint.value
    ensures forall l :: l in s.inflight ==> l <= s.db.checkpoint.value
    ensures s.daemon.Up? ==> s.daemon.flushLsn <= s.db.checkpoint.value
  {
    ReachableIsSafe(c, s);
  }

  // ---- what is sent is what was durable -------------------------------------------------------

  function CheckpointOf(s: Sys): set<nat> {
    if HasCheckpoint(s.db) then {s.db.checkpoint.value} else {}
  }

  /** The checkpoints of the states of a run. */
  ghost function Visited(c: Config, s: Sys, steps: seq<Step>, end: Sys): (v: set<nat>)
    requires c.Valid() && IsRun(c, s, steps, end)
    ensures CheckpointOf(s) <= v
    decreases |steps|
  {
    CheckpointOf(s) +
    if steps == [] then {}
    else
      assert GoesOn(c, s, steps, end);
      Visited(c, Next(c, s, steps[0]), steps[1..], end)
  }

  /** Each position in flight or kept for a keepalive is 0 or one of these checkpoints. */
  ghost predicate Durably(s: Sys, past: set<nat>) {
    && CheckpointOf(s) <= past
    && (forall l :: l in s.inflight ==> l == 0 || l in past)
    && (s.daemon.Up? ==> s.daemon.flushLsn == 0 || s.daemon.flushLsn in past)
    && (s.daemon.Up? && (s.daemon.phase.Durable? || s.daemon.phase.Returned?) && s.daemon.pending != [] ==>
          LastLsn(s.daemon.pending) in past)
  }

  lemma CommitIsDurable(c: Config, s: Sys, past: set<nat>)
    requires c.Valid() && Inv(c, s) && Durably(s, past) && Enabled(c, s, CommitDurable)
    ensures Durably(Committed(s), past + CheckpointOf(Committed(s)))
  {
    assert HasCheckpoint(s.db);
    WorkIsFinished(c, s);
  }

  lemma StepKeepsDurably(c: Config, s: Sys, past: set<nat>, step: Step)
    requires c.Valid() && Inv(c, s) && Durably(s, past) && Enabled(c, s, step)
    ensures Durably(Next(c, s, step), past + CheckpointOf(Next(c, s, step)))
  {
    if step.CommitDurable? {
      CommitIsDurable(c, s, past);
    }
  }

  lemma {:induction false} RunKeepsDurably(c: Config, s: Sys, past: set<nat>, steps: seq<Step>, end: Sys)
    requires c.Valid() && Inv(c, s) && Durably(s, past) && IsRun(c, s, steps, end)
    ensures Durably(end, past + Visited(c, s, steps, end))
    decreases |steps|
  {
    if steps == [] {
      assert past + Visited(c, s, steps, end) == past;
    } else {
      var next := Next(c, s, steps[0]);
      StepKeeps(c, s, steps[0]);
      StepKeepsDurably(c, s, past, steps[0]);
      RunKeepsDurably(c, next, past + CheckpointOf(next), steps[1..], end);
      SameSet(past, CheckpointOf(s), CheckpointOf(next), Visited(c, next, steps[1..], end));
    }
  }

  lemma SameSet(past: set<nat>, here: set<nat>, next: set<nat>, later: set<nat>)
    requires here <= past && next <= later
    ensures past + next + later == past + (here + later)
  {
  }

  /** Every position sent as feedback on a run, by an ack or a keepalive, is 0 or was itself the
      durable checkpoint in some state of the run. */
  lemma SentPositionsWereDurable(c: Config, steps: seq<Step>, end: Sys, lsn: nat)
    requires c.Valid() && IsRun(c, INITIAL, steps, end)
    requires lsn in end.inflight || (end.daemon.Up? && lsn == end.daemon.flushLsn)
    ensures lsn == 0 || lsn in Visited(c, INITIAL, steps, end)
  {
    InitialHolds(c);
    RunKeepsDurably(c, INITIAL, {}, steps, end);
  }

  /** After a flush the checkpoint is the end of the last transaction in the targets. */
  ghost predicate EndsAtLast(s: Sys) {
    HasCheckpoint(s.db) && s.boot < s.applied <= |s.wal| ==> s.db.checkpoint.value == s.wal[s.applied - 1].endLsn
  }

  lemma CommitEndsAtLast(c: Config, s: Sys)
    requires DaemonOk(c, s) && TargetsOk(c, s) && InTransaction(s) && s.daemon.phase.todo == [] && HasCheckpoint(s.db)
    ensures EndsAtLast(Committed(s))
  {
    CommitInstallsBatch(c, s);
    WorkIsFinished(c, s);
  }

  /** Other steps leave the WAL, what is applied, and a checkpoint that stays. */
  lemma HistoryStays(c: Config, s: Sys, step: Step)
    requires c.Valid() && Enabled(c, s, step) && !step.SourceCommit? && !step.CommitDurable? && !step.SetupCommit?
    ensures SameHistory(s, Next(c, s, step))
  {
  }

  predicate SameHistory(s: Sys, t: Sys) {
    t.wal == s.wal && t.boot == s.boot && t.applied == s.applied && (HasCheckpoint(t.db) ==> t.db == s.db)
  }

  lemma SameLast(s: Sys, t: Sys)
    requires EndsAtLast(s) && SameHistory(s, t)
    ensures EndsAtLast(t)
  {
  }

  lemma DurableKeepsLast(c: Config, s: Sys)
    requires c.Valid() && Inv(c, s) && Enabled(c, s, CommitDurable)
    ensures EndsAtLast(Committed(s))
  {
    assert HasCheckpoint(s.db);
    CommitEndsAtLast(c, s);
  }

  lemma CommitKeepsLast(s: Sys, txn: Txn)
    requires EndsAtLast(s) && (HasCheckpoint(s.db) ==> s.applied <= |s.wal|)
    ensures EndsAtLast(s.(wal := s.wal + [txn], top := txn.endLsn))
  {
  }

  lemma StepKeepsLast(c: Config, s: Sys, step: Step)
    requires c.Valid() && Inv(c, s) && EndsAtLast(s) && Enabled(c, s, step)
    ensures EndsAtLast(Next(c, s, step))
  {
    if step.SourceCommit? {
      CommitKeepsLast(s, step.txn);
    } else if step.CommitDurable? {
      DurableKeepsLast(c, s);
    } else if !step.SetupCommit? {
      HistoryStays(c, s, step);
      SameLast(s, Next(c, s, step));
    }
  }

  lemma {:induction false} RunKeepsLast(c: Config, s: Sys, steps: seq<Step>, end: Sys)
    requires c.Valid() && Inv(c, s) && EndsAtLast(s) && IsRun(c, s, steps, end)
    ensures EndsAtLast(end)
    decreases |steps|
  {
    if steps != [] {
      StepKeeps(c, s, steps[0]);
      StepKeepsLast(c, s, steps[0]);
      RunKeepsLast(c, Next(c, s, steps[0]), steps[1..], end);
    }
  }

  lemma ReachableEndsAtLast(c: Config, s: Sys)
    requires c.Valid() && Reachable(c, s)
    ensures EndsAtLast(s)
  {
    InitialHolds(c);
    var steps :| IsRun(c, INITIAL, steps, s);
    RunKeepsLast(c, INITIAL, steps, s);
  }

  /** In every reachable state in which a transaction was applied since the backfill, the checkpoint is
      the end of the last one. */
  lemma CheckpointIsLastEnd(c: Config, s: Sys)
    requires c.Valid() && Reachable(c, s) && HasCheckpoint(s.db) && s.boot < s.applied
    ensures s.applied <= |s.wal| && s.db.checkpoint.value == s.wal[s.applied - 1].endLsn
  {
    ReachableIsSafe(c, s);
    ReachableEndsAtLast(c, s);
  }

  /** A daemon can only start on a completed handshake, with no setup in progress, and then every
      transaction missing from the targets is delivered to it. */
  lemma StartsInSync(c: Config, s: Sys, from: nat, i: nat)
    requires c.Valid() && Reachable(c, s) && MayStart(s, from)
    ensures s.setup.NotRunning?
    ensures TargetsOk(c, s) && HasCheckpoint(s.db)
    ensures i < |s.wal| && s.db.checkpoint.value < s.wal[i].endLsn ==> from <= i
  {
    ReachableIsSafe(c, s);
    StartsEarlyEnough(c, s, from);
  }

  /** No single step moves a checkpoint back. */
  lemma CheckpointOnlyAdvances(c: Config, s: Sys, step: Step)
    requires c.Valid() && Reachable(c, s) && Enabled(c, s, step)
    requires HasCheckpoint(s.db) && HasCheckpoint(Next(c, s, step).db)
    ensures s.db.checkpoint.value <= Next(c, s, step).db.checkpoint.value
  {
    ReachableIsSafe(c, s);
    if step.CommitDurable? {
      CommitDurableSplits(c, s);
      WorkIsFinished(c, s);
    }
  }

  // ---- nothing is ever stuck --------------------------------------------------------------

  ghost predicate WalUsable(c: Config, wal: seq<Txn>) {
    forall i :: 0 <= i < |wal| ==> ChangesUsable(c.sem, c.views, wal[i].changes)
  }

  lemma {:induction false} SegmentUsable(c: Config, txns: seq<Txn>)
    requires WalUsable(c, txns)
    ensures ChangesUsable(c.sem, c.views, AllChanges(txns))
  {
    if txns != [] {
      assert forall i :: 0 <= i < |txns[1..]| ==> txns[1..][i] == txns[i + 1];
      SegmentUsable(c, txns[1..]);
      assert ChangesUsable(c.sem, c.views, txns[0].changes);
    }
  }

  /** Same system but for the daemon. */
  ghost predicate OnlyDaemon(s: Sys, t: Sys) { t == s.(daemon := t.daemon) }

  lemma DeliverTxn(c: Config, s: Sys, t: Sys) returns (u: Sys)
    requires c.Valid() && Leads(c, s, t) && Streaming(t) && t.daemon.open.None?
    ensures Leads(c, s, u) && OnlyDaemon(t, u) && u.daemon.Up? && u.daemon.phase.Idle?
    ensures u.daemon.open.None? && u.daemon.next == t.daemon.next + 1
  {
    LeadsOn(c, s, t, DeliverBegin);
    var a := Next(c, t, DeliverBegin);
    var all := DeliverRows(|t.wal[t.daemon.next].changes|);
    LeadsOn(c, s, a, all);
    var b := Next(c, a, all);
    LeadsOn(c, s, b, DeliverCommit);
    u := Next(c, b, DeliverCommit);
  }

  lemma {:induction false} DeliverAll(c: Config, s: Sys, t: Sys) returns (u: Sys)
    requires c.Valid() && Leads(c, s, t)
    requires t.daemon.Up? && t.daemon.phase.Idle? && t.slot.Some? && t.daemon.open.None? && t.daemon.next <= |t.wal|
    ensures Leads(c, s, u) && OnlyDaemon(t, u) && u.daemon.Up? && u.daemon.phase.Idle?
    ensures u.daemon.next == |t.wal|
    decreases |t.wal| - t.daemon.next
  {
    if t.daemon.next == |t.wal| {
      u := t;
    } else {
      var a := DeliverTxn(c, s, t);
      u := DeliverAll(c, s, a);
    }
  }

  lemma {:induction false} ExecuteAll(c: Config, s: Sys, t: Sys) returns (u: Sys)
    requires c.Valid() && Leads(c, s, t) && InTransaction(t)
    requires ExecAll(c.sem, t.daemon.phase.work, t.daemon.phase.todo).Some?
    ensures Leads(c, s, u)
    ensures var after := ExecAll(c.sem, t.daemon.phase.work, t.daemon.phase.todo).value;
            u == t.(daemon := t.daemon.(phase := Executing(after, [])))
    decreases |t.daemon.phase.todo|
  {
    if t.daemon.phase.todo == [] {
      u := t;
    } else {
      LeadsOn(c, s, t, ExecuteNext);
      u := ExecuteAll(c, s, Next(c, t, ExecuteNext));
    }
  }

  lemma PendingAccepted(c: Config, s: Sys)
    requires c.Valid() && Inv(c, s) && MayFlush(s) && HasCheckpoint(s.db) && WalUsable(c, s.wal)
    ensures FlushBegun(c, s).daemon.Up?
  {
    var txns := s.wal[s.applied..Max(s.applied, s.daemon.next)];
    PendingOpsAre(c, txns);
    SegmentUsable(c, txns);
    ChangesAccepted(c.sem, c.views, AllChanges(txns));
  }

  lemma CommitAppliesAll(c: Config, t: Sys)
    requires Inv(c, t) && InTransaction(t) && HasCheckpoint(t.db) && t.daemon.phase.todo == []
    requires t.daemon.next == |t.wal|
    ensures Committed(t).wal == t.wal && Committed(t).applied == |t.wal| && HasCheckpoint(Committed(t).db)
  {
    CommitInstallsBatch(c, t);
    WorkIsFinished(c, t);
  }

  lemma FlushAll(c: Config, s: Sys, t: Sys) returns (u: Sys)
    requires c.Valid() && Inv(c, s) && Leads(c, s, t) && WalUsable(c, t.wal)
    requires MayFlush(t) && HasCheckpoint(t.db) && t.daemon.next == |t.wal|
    ensures Leads(c, s, u) && u.wal == t.wal && u.applied == |t.wal| && HasCheckpoint(u.db)
  {
    Follow(c, s, t);
    PendingAccepted(c, t);
    LeadsOn(c, s, t, BeginFlush);
    var begun := Next(c, t, BeginFlush);
    Follow(c, s, begun);
    var executed := ExecuteAll(c, s, begun);
    Follow(c, s, executed);
    CommitAppliesAll(c, executed);
    LeadsOn(c, s, executed, CommitDurable);
    u := Next(c, executed, CommitDurable);
  }

  lemma Redeliver(c: Config, s: Sys) returns (t: Sys)
    requires c.Valid() && Inv(c, s) && MayStart(s, 0) && s.applied < |s.wal|
    ensures Leads(c, s, t) && OnlyDaemon(s, t) && MayFlush(t) && t.daemon.next == |t.wal|
  {
    LeadsFrom(c, s);
    LeadsOn(c, s, s, Start(0));
    t := DeliverAll(c, s, Next(c, s, Start(0)));
    Follow(c, s, t);
    assert |t.daemon.pending| == |s.wal[s.applied..|s.wal|]|;
  }

  /** From any reachable state where the daemon is down after a crash at any point, with slot and
      checkpoint present and no refused row in the WAL, some run of daemon steps alone brings the
      targets up to the whole WAL. */
  lemma CanAlwaysCatchUp(c: Config, s: Sys) returns (u: Sys)
    requires c.Valid() && Reachable(c, s) && WalUsable(c, s.wal)
    requires s.daemon.Down? && HasCheckpoint(s.db) && s.slot.Some? && s.applied < |s.wal|
    ensures Leads(c, s, u) && u.wal == s.wal && u.applied == |s.wal| && HasCheckpoint(u.db)
    ensures forall v :: v in c.views ==>
              v.name in u.db.tables &&
              u.db.tables[v.name] == GroundTruth(v, c.sem, Contents(AllChanges(s.wal), v))
  {
    ReachableIsSafe(c, s);
    var t := Redeliver(c, s);
    u := FlushAll(c, s, t);
    Follow(c, s, u);
    assert s.wal[..|s.wal|] == s.wal;
  }

  lemma Follow(c: Config, s: Sys, t: Sys)
    requires c.Valid() && Inv(c, s) && Leads(c, s, t)
    ensures Inv(c, t)
  {
    var steps :| IsRun(c, s, steps, t);
    RunKeeps(c, s, steps, t);
  }
}
