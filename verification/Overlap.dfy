/**
  A setup beside a live daemon.  A setup only looks at the slot; after a teardown there is none, though
  a daemon may live on with transactions in memory.  This says when such a daemon undoes the setup.
*/
module Overlap {
  import opened Prelude
  import opened Views
  import opened Aggregates
  import opened Targets
  import opened Flushes
  import opened RowMessages
  import opened Machine

  /** The guard that the program has where no slot exists: nothing is asked about a daemon. */
  predicate MaySetUp(s: Sys) { s.setup.NotRunning? && s.slot.None? }

  function SetupBegun(s: Sys): Sys { SlotCheckedBy(TableEnsured(s)) }

  // ---- the setup completes ------------------------------------------------------------------

  ghost predicate AllBackfillable(c: Config, s: Sys) {
    forall v :: v in c.views ==> Backfillable(c.sem, v, Contents(AllChanges(s.wal), v))
  }

  /** The state of the backfill with the first i views done. */
  ghost predicate Filling(c: Config, s: Sys, point: nat, i: nat, t: Sys) {
    && t.setup.BackfillOpen? && t.setup.snapshot == |t.wal| && t.setup.point == point && t.setup.done == i
    && t.setup.work.Db? && t.slot == Some(point) && t.daemon == s.daemon && t.wal == s.wal
    && i <= |c.views|
    && forall j :: 0 <= j < i ==>
         c.views[j].name in t.setup.work.tables
         && t.setup.work.tables[c.views[j].name] ==
            GroundTruth(c.views[j], c.sem, Contents(AllChanges(s.wal), c.views[j]))
  }

  lemma OneMoreFilled(c: Config, s: Sys, point: nat, i: nat, t: Sys)
    requires c.Valid() && Filling(c, s, point, i, t) && AllBackfillable(c, s) && i < |c.views|
    ensures MayBackfillView(c, t) && Filling(c, s, point, i + 1, ViewBackfilled(c, t))
  {
    assert t.wal[..|t.wal|] == t.wal;
    assert c.views[i] in c.views;
    var next := ViewBackfilled(c, t);
    forall j | 0 <= j < i
      ensures next.setup.work.tables[c.views[j].name] == t.setup.work.tables[c.views[j].name]
    {
      assert c.views[j].name != c.views[i].name;
    }
  }

  lemma {:induction false} FillOn(c: Config, s0: Sys, s: Sys, point: nat, i: nat, t: Sys) returns (u: Sys)
    requires c.Valid() && Leads(c, s0, t) && Filling(c, s, point, i, t) && AllBackfillable(c, s)
    ensures Leads(c, s0, u) && Filling(c, s, point, |c.views|, u)
    decreases |c.views| - i
  {
    if i == |c.views| {
      u := t;
    } else {
      OneMoreFilled(c, s, point, i, t);
      LeadsOn(c, s0, t, SetupBackfillView);
      u := FillOn(c, s0, s, point, i + 1, Next(c, t, SetupBackfillView));
    }
  }

  /** The targets are rebuilt at `point`; the daemon is as it was. */
  ghost predicate Rebuilt(c: Config, s: Sys, point: nat, t: Sys) {
    && t.db.Db? && t.db.checkpoint == Some(point) && t.setup.NotRunning? && t.daemon == s.daemon && t.wal == s.wal
    && Holds(c.views, c.sem, t.db.tables, AllChanges(t.wal))
  }

  lemma SetupOpens(c: Config, s: Sys, point: nat) returns (t: Sys)
    requires c.Valid() && MaySetUp(s) && s.top <= point
    ensures Leads(c, SetupBegun(s), t) && Filling(c, s, point, 0, t)
  {
    var s0 := SetupBegun(s);
    LeadsFrom(c, s0);
    LeadsOn(c, s0, s0, SetupClearCheckpoint);
    var cleared := Next(c, s0, SetupClearCheckpoint);
    LeadsOn(c, s0, cleared, SetupCreateSlot(point));
    var created := Next(c, cleared, SetupCreateSlot(point));
    LeadsOn(c, s0, created, SetupOpenBackfill);
    t := Next(c, created, SetupOpenBackfill);
  }

  lemma CommitRebuilds(c: Config, s: Sys, point: nat, t: Sys)
    requires c.Valid() && Filling(c, s, point, |c.views|, t)
    ensures Rebuilt(c, s, point, SetupCommitted(t))
  {
    forall v | v in c.views
      ensures v.name in t.setup.work.tables
      ensures t.setup.work.tables[v.name] == GroundTruth(v, c.sem, Contents(AllChanges(t.wal), v))
    {
      var j :| 0 <= j < |c.views| && c.views[j] == v;
    }
  }

  /** Under that guard a setup can run to its end, whatever the daemon is. */
  lemma SetupCompletes(c: Config, s: Sys, point: nat) returns (t: Sys)
    requires c.Valid() && MaySetUp(s) && s.top <= point && AllBackfillable(c, s)
    ensures Leads(c, SetupBegun(s), t) && Rebuilt(c, s, point, t)
  {
    var open := SetupOpens(c, s, point);
    var filled := FillOn(c, SetupBegun(s), s, point, 0, open);
    LeadsOn(c, SetupBegun(s), filled, SetupCommit);
    CommitRebuilds(c, s, point, filled);
    t := SetupCommitted(filled);
  }

  /** A teardown that drops the slot of a daemon about to flush reaches such a state. */
  lemma TeardownLeavesDaemon(c: Config, s: Sys)
    requires c.Valid() && Reachable(c, s) && CanFlush(c, s) && s.setup.NotRunning?
    ensures var t := Next(c, s, TeardownSlot);
            Reachable(c, t) && MaySetUp(t) && CanFlush(c, t) && !InTransaction(t)
  {
    LeadsOn(c, INITIAL, s, TeardownSlot);
  }

  // ---- the commands of any batch run on rebuilt targets ------------------------------------------

  lemma StatementsRun(view: ViewSpec, sem: Semantics, batch: ViewBatch, t: Table)
    requires WellFormed(view, batch.groups) && HasWidth(t, VecLength(view))
    ensures ExecTable(sem, t, ViewStatements(view, batch)).Some?
  {
    var base: Table := if batch.truncated then map[] else t;
    var deletes: seq<Command> := if batch.truncated then [DeleteAll(view.name)] else [];
    var upserts := UpsertsOf(view, batch.groups);
    var cleanup: seq<Command> := if NeedsCleanup(view, batch) then [DeleteEmpty(view.name)] else [];
    UpsertsAreUpserts(view, batch.groups);
    assert ExecTable(sem, t, deletes) == Some(base);
    ExecTableAppend(sem, t, deletes, upserts);
    UpsertsAdd(view, sem, base, batch.groups);
    ExecTableAppend(sem, t, deletes + upserts, cleanup);
  }

  lemma FlushRuns(c: Config, db: Db, b: BatchState, lsn: nat, history: seq<Change>)
    requires c.Valid() && db.Db? && BatchOf(c.views, b) && Holds(c.views, c.sem, db.tables, history)
    ensures var after := ExecAll(c.sem, db, FlushCommands(c.views, b, lsn));
            after.Some? && after.value.Db? && after.value.checkpoint == Some(lsn)
  {
    var cmds := Statements(c.views, b);
    StatementsNameViews(c.views, b);
    forall name | name in db.tables ensures ExecTable(c.sem, db.tables[name], CommandsFor(cmds, name)).Some? {
      StatementsFor(c.views, b, name);
      if v :| v in c.views && v.name == name {
        StatementsRun(v, c.sem, b[name], db.tables[name]);
      }
    }
    ExecByView(c.sem, db, cmds);
    ExecAllAppend(c.sem, db, cmds, [SetCheckpoint(lsn)]);
    assert [SetCheckpoint(lsn)][1..] == [];
  }

  // ---- the daemon alone ----------------------------------------------------------------------------

  /** Steps that a daemon can still take when its stream is gone: nothing is delivered, and an ack or a
      keepalive raises. */
  predicate WithoutStream(step: Step) {
    step.BeginFlush? || step.ExecuteNext? || step.CommitDurable? || step.CommitReturns? || step.Crash?
  }

  ghost predicate Alone(c: Config, s: Sys, steps: seq<Step>, t: Sys)
    requires c.Valid()
  {
    (forall i :: 0 <= i < |steps| ==> WithoutStream(steps[i])) && IsRun(c, s, steps, t)
  }

  /** The daemon has something to flush, and every row of it is usable. */
  ghost predicate CanFlush(c: Config, s: Sys) {
    MayFlush(s) && forall op :: op in PendingOps(s.daemon.pending) ==> OpUsable(c.sem, c.views, op)
  }

  lemma {:induction false} ExecutesAlone(c: Config, s: Sys) returns (steps: seq<Step>, t: Sys)
    requires c.Valid() && InTransaction(s) && ExecAll(c.sem, s.daemon.phase.work, s.daemon.phase.todo).Some?
    ensures Alone(c, s, steps, t)
    ensures t.db == ExecAll(c.sem, s.daemon.phase.work, s.daemon.phase.todo).value
    decreases |s.daemon.phase.todo|
  {
    if s.daemon.phase.todo == [] {
      t := Committed(s);
      steps := [CommitDurable];
      assert IsRun(c, t, [], t) && steps[1..] == [];
    } else {
      var next := CommandExecuted(c, s);
      var rest;
      rest, t := ExecutesAlone(c, next);
      OneStepMore(c, s, ExecuteNext, rest, t);
      steps := [ExecuteNext] + rest;
    }
  }

  lemma BeginsAlone(c: Config, t: Sys)
    requires c.Valid() && CanFlush(c, t) && t.db.Db? && Holds(c.views, c.sem, t.db.tables, AllChanges(t.wal))
    ensures var begun := FlushBegun(c, t);
            && InTransaction(begun)
            && var after := ExecAll(c.sem, begun.daemon.phase.work, begun.daemon.phase.todo);
               after.Some? && after.value.Db? && after.value.checkpoint == Some(LastLsn(t.daemon.pending))
  {
    OpsAcceptedIff(c.sem, c.views, EmptyBatch(c.views), PendingOps(t.daemon.pending));
    var b := ApplyOps(c.sem, c.views, EmptyBatch(c.views), PendingOps(t.daemon.pending)).0;
    FlushRuns(c, t.db, b, LastLsn(t.daemon.pending), AllChanges(t.wal));
  }

  lemma OneStepMore(c: Config, s: Sys, step: Step, rest: seq<Step>, u: Sys)
    requires c.Valid() && Enabled(c, s, step) && WithoutStream(step) && Alone(c, Next(c, s, step), rest, u)
    ensures Alone(c, s, [step] + rest, u)
  {
    assert ([step] + rest)[1..] == rest;
  }

  lemma FlushesAlone(c: Config, s: Sys, point: nat, t: Sys) returns (steps: seq<Step>, u: Sys)
    requires c.Valid() && Rebuilt(c, s, point, t) && CanFlush(c, s)
    ensures Alone(c, t, steps, u) && u.db.Db? && u.db.checkpoint == Some(LastLsn(s.daemon.pending))
  {
    BeginsAlone(c, t);
    var rest;
    rest, u := ExecutesAlone(c, FlushBegun(c, t));
    OneStepMore(c, t, BeginFlush, rest, u);
    steps := [BeginFlush] + rest;
  }

  /** A daemon that cannot flush writes nothing. */
  ghost predicate Harmless(c: Config, s: Sys) {
    s.daemon.Down? || (!InTransaction(s) && !CanFlush(c, s))
  }

  lemma {:induction false} HarmlessWritesNothing(c: Config, s: Sys, steps: seq<Step>, t: Sys)
    requires c.Valid() && Harmless(c, s) && Alone(c, s, steps, t)
    ensures t.db == s.db
    decreases |steps|
  {
    if steps != [] {
      assert GoesOn(c, s, steps, t);
      var next := Next(c, s, steps[0]);
      if steps[0].BeginFlush? {
        OpsAcceptedIff(c.sem, c.views, EmptyBatch(c.views), PendingOps(s.daemon.pending));
        assert next.daemon.Down?;
      }
      assert forall i :: 0 <= i < |steps[1..]| ==> steps[1..][i] == steps[i + 1];
      HarmlessWritesNothing(c, next, steps[1..], t);
    }
  }

  /** A setup beside a daemon that is not inside its target transaction: the daemon can go on to
      replace the checkpoint that the setup commits if and only if it has something to flush of which
      every row is usable, and what it then writes is a position before the setup's. */
  lemma SetupUndoneIff(c: Config, s: Sys, point: nat, t: Sys)
    requires c.Valid() && Rebuilt(c, s, point, t) && !InTransaction(s)
    requires s.daemon.Up? && s.daemon.pending != [] ==> LastLsn(s.daemon.pending) < point
    ensures (exists steps, u :: Alone(c, t, steps, u) && u.db != t.db) <==> CanFlush(c, s)
    ensures CanFlush(c, s) ==>
              exists steps, u :: Alone(c, t, steps, u) && HasCheckpoint(u.db) && u.db.checkpoint.value < point
  {
    if CanFlush(c, s) {
      var steps, u := FlushesAlone(c, s, point, t);
      assert Alone(c, t, steps, u) && u.db != t.db;
    } else {
      assert Harmless(c, t);
      forall steps, u | Alone(c, t, steps, u) ensures u.db == t.db {
        HarmlessWritesNothing(c, t, steps, u);
      }
    }
  }
}
