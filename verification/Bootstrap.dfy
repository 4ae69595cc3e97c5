/** setup and teardown as the program runs them: ordered effects on a server, each a machine step. */
module Bootstrap {
  import opened Prelude
  import opened Views
  import opened Aggregates
  import opened Flushes
  import opened Machine

  /** The slot (its confirmed position) and the target database. */
  class Server {
    var slot: Option<nat>
    var db: Db

    constructor (slot: Option<nat>, db: Db)
      ensures this.slot == slot && this.db == db
    {
      this.slot, this.db := slot, db;
    }
  }

  /** What the backfill query of a view returns in the snapshot, if it can run. */
  ghost predicate Answers(c: Config, wal: seq<Txn>, answers: seq<Option<Table>>) {
    && |answers| == |c.views|
    && forall i :: 0 <= i < |answers| ==>
         var rows := Contents(AllChanges(wal), c.views[i]);
         answers[i].Some? ==>
           Backfillable(c.sem, c.views[i], rows) && answers[i] == Some(GroundTruth(c.views[i], c.sem, rows))
  }

  /** The server's slot and database are those of the system; a slot is in use by a live daemon. */
  ghost predicate Shows(server: Server, s: Sys, active: bool)
    reads server
  {
    && server.slot == s.slot && server.db == s.db && s.setup.NotRunning?
    && (active <==> s.daemon.Up?) && (active ==> s.slot.Some?)
  }

  ghost predicate Done(c: Config, s: Sys, server: Server, end: Sys)
    requires c.Valid()
    reads server
  {
    Leads(c, s, end) && server.slot == end.slot && server.db == end.db
  }

  /** A process that dies in the middle of setup. */
  lemma Dies(c: Config, s: Sys, now: Sys)
    requires c.Valid() && Leads(c, s, now)
    ensures now.setup.NotRunning? || Leads(c, s, now.(setup := NotRunning))
  {
    if !now.setup.NotRunning? {
      LeadsOn(c, s, now, SetupCrash);
    }
  }

  method EnsureCheckpointTable(server: Server)
    modifies server`db
    ensures server.db == if old(server.db).NoSchema? then Db(map[], None) else old(server.db)
  {
    if server.db.NoSchema? {
      server.db := Db(map[], None);
    }
  }

  /** _prepare_slot: refuses an existing slot without --force and a slot in use, else drops it. */
  method PrepareSlot(server: Server, force: bool, active: bool) returns (error: Option<Error>)
    modifies server`slot
    ensures error == if old(server.slot).None? || (force && !active) then None else Some(SetupError)
    ensures server.slot == if error.None? then None else old(server.slot)
  {
    error := None;
    if server.slot.None? {
      return;
    }
    if !force || active {
      return Some(SetupError);
    }
    server.slot := None;
  }

  // ---- what sources commit meanwhile -----------------------------------------------------------

  /** Source commits that fall between the steps of a setup: before its slot is created, before each
      backfill query, and before its COMMIT. */
  datatype Commits = Commits(before: seq<Txn>, during: seq<seq<Txn>>)

  function Grown(s: Sys, txns: seq<Txn>): Sys {
    if txns == [] then s else s.(wal := s.wal + txns, top := txns[|txns| - 1].endLsn)
  }

  ghost predicate MayCommitAll(c: Config, s: Sys, txns: seq<Txn>)
    decreases |txns|
  {
    txns == [] || (MayCommit(c, s, txns[0]) && MayCommitAll(c, Grown(s, [txns[0]]), txns[1..]))
  }

  ghost predicate MayCommitEach(c: Config, s: Sys, during: seq<seq<Txn>>)
    decreases |during|
  {
    during == [] || (MayCommitAll(c, s, during[0]) && MayCommitEach(c, Grown(s, during[0]), during[1..]))
  }

  /** The transactions in the snapshot of a setup that begins in this state. */
  function Snapshot(s: Sys, others: Commits): seq<Txn> { s.wal + others.before }

  ghost predicate MayMeet(c: Config, s: Sys, others: Commits, point: nat) {
    && MayCommitAll(c, s, others.before) && Grown(s, others.before).top <= point
    && |others.during| == |c.views| + 1
    && MayCommitEach(c, Grown(s, others.before).(top := point), others.during)
  }

  /** Source commits see only the WAL and its end. */
  lemma {:induction false} OnlyWalMatters(c: Config, s: Sys, t: Sys, txns: seq<Txn>)
    requires s.wal == t.wal && s.top == t.top
    ensures MayCommitAll(c, s, txns) <==> MayCommitAll(c, t, txns)
    decreases |txns|
  {
    if txns != [] {
      OnlyWalMatters(c, Grown(s, [txns[0]]), Grown(t, [txns[0]]), txns[1..]);
    }
  }

  lemma {:induction false} OnlyWalMattersEach(c: Config, s: Sys, t: Sys, during: seq<seq<Txn>>)
    requires s.wal == t.wal && s.top == t.top
    ensures MayCommitEach(c, s, during) <==> MayCommitEach(c, t, during)
    decreases |during|
  {
    if during != [] {
      OnlyWalMatters(c, s, t, during[0]);
      OnlyWalMattersEach(c, Grown(s, during[0]), Grown(t, during[0]), during[1..]);
    }
  }

  lemma {:induction false} CommitsAreSteps(c: Config, s: Sys, now: Sys, txns: seq<Txn>)
    requires c.Valid() && Leads(c, s, now) && MayCommitAll(c, now, txns)
    ensures Leads(c, s, Grown(now, txns))
    decreases |txns|
  {
    if txns != [] {
      LeadsOn(c, s, now, SourceCommit(txns[0]));
      var next := Grown(now, [txns[0]]);
      CommitsAreSteps(c, s, next, txns[1..]);
      assert now.wal + [txns[0]] + txns[1..] == now.wal + txns;
      assert Grown(next, txns[1..]) == Grown(now, txns);
    }
  }

  // ---- the backfill -------------------------------------------------------------------------------

  /** The first i views are backfilled; sources have moved on since. */
  ghost predicate Filled(now: Sys, tables: map<Text, Table>, i: nat, end: Sys)
    requires now.setup.BackfillOpen? && now.setup.work.Db?
  {
    && end == now.(wal := end.wal, top := end.top,
                   setup := now.setup.(work := now.setup.work.(tables := tables), done := i))
    && now.wal <= end.wal
  }

  /** One more view is filled. */
  ghost function FilledOn(c: Config, now: Sys, tables: map<Text, Table>, i: nat, t: Table, end: Sys): Sys
    requires now.setup.BackfillOpen? && now.setup.work.Db? && i < |c.views|
  {
    end.(setup := now.setup.(work := now.setup.work.(tables := tables[c.views[i].name := t]), done := i + 1))
  }

  lemma OneViewFilled(c: Config, s: Sys, now: Sys, tables: map<Text, Table>, i: nat, answers: seq<Option<Table>>,
                      end: Sys)
    requires c.Valid() && now.setup.BackfillOpen? && now.setup.work.Db? && now.setup.snapshot == |now.wal|
    requires Answers(c, now.wal, answers) && i < |c.views| && answers[i].Some?
    requires Filled(now, tables, i, end) && Leads(c, s, end)
    ensures var next := FilledOn(c, now, tables, i, answers[i].value, end);
            Leads(c, s, next) && Filled(now, tables[c.views[i].name := answers[i].value], i + 1, next)
  {
    SnapshotStays(c, now, answers, i, end);
    BackfillFills(c, now, tables, i, answers[i].value, end);
    LeadsOn(c, s, end, SetupBackfillView);
  }

  lemma BackfillFills(c: Config, now: Sys, tables: map<Text, Table>, i: nat, t: Table, end: Sys)
    requires now.setup.BackfillOpen? && now.setup.work.Db? && now.setup.snapshot == |now.wal| && i < |c.views|
    requires Filled(now, tables, i, end)
    requires var rows := Contents(AllChanges(end.wal[..|now.wal|]), c.views[i]);
             Backfillable(c.sem, c.views[i], rows) && t == GroundTruth(c.views[i], c.sem, rows)
    ensures MayBackfillView(c, end) && ViewBackfilled(c, end) == FilledOn(c, now, tables, i, t, end)
  {
  }

  /** The query of a view has the same answer however sources have moved on. */
  lemma SnapshotStays(c: Config, now: Sys, answers: seq<Option<Table>>, i: nat, end: Sys)
    requires Answers(c, now.wal, answers) && i < |c.views| && answers[i].Some? && now.wal <= end.wal
    ensures var rows := Contents(AllChanges(end.wal[..|now.wal|]), c.views[i]);
            Backfillable(c.sem, c.views[i], rows) && answers[i] == Some(GroundTruth(c.views[i], c.sem, rows))
  {
    assert end.wal[..|now.wal|] == now.wal;
  }

  /** The first n views have the tables that their queries returned. */
  ghost predicate Collected(views: seq<ViewSpec>, answers: seq<Option<Table>>, tables: map<Text, Table>, n: nat)
    requires n <= |views| == |answers|
  {
    forall i :: 0 <= i < n ==> views[i].name in tables && answers[i] == Some(tables[views[i].name])
  }

  lemma OneMoreTable(views: seq<ViewSpec>, answers: seq<Option<Table>>, tables: map<Text, Table>, n: nat)
    requires DistinctNames(views) && n < |views| == |answers| && answers[n].Some?
    requires Collected(views, answers, tables, n)
    ensures Collected(views, answers, tables[views[n].name := answers[n].value], n + 1)
  {
  }

  /** Sources commit between two steps of the backfill. */
  lemma SourcesMoveOn(c: Config, s: Sys, now: Sys, tables: map<Text, Table>, i: nat, during: seq<seq<Txn>>, end: Sys)
    requires c.Valid() && now.setup.BackfillOpen? && now.setup.work.Db?
    requires Filled(now, tables, i, end) && Leads(c, s, end) && during != [] && MayCommitEach(c, end, during)
    ensures var next := Grown(end, during[0]);
            Leads(c, s, next) && Filled(now, tables, i, next) && MayCommitEach(c, next, during[1..])
  {
    CommitsAreSteps(c, s, end, during[0]);
  }

  /** The backfill transaction over every view; it stops at a query that fails and at `dies`. */
  method Backfill(c: Config, work: Db, answers: seq<Option<Table>>, dies: nat,
                  ghost during: seq<seq<Txn>>, ghost s: Sys, ghost now: Sys)
    returns (r: Result<Db>, ghost end: Sys)
    requires c.Valid() && Leads(c, s, now)
    requires now.setup.BackfillOpen? && now.setup.work == work && work.Db? && now.setup.done == 0
    requires now.setup.snapshot == |now.wal| && Answers(c, now.wal, answers)
    requires |during| == |c.views| + 1 && MayCommitEach(c, now, during)
    ensures Leads(c, s, end) && now.wal <= end.wal && !end.setup.NotRunning?
    ensures end == now.(wal := end.wal, top := end.top, setup := end.setup)
    ensures r.Ok? <==> dies > |c.views| && forall i :: 0 <= i < |answers| ==> answers[i].Some?
    ensures r.Ok? ==>
              && r.value.Db? && r.value.checkpoint == work.checkpoint
              && Collected(c.views, answers, r.value.tables, |c.views|)
    ensures r.Ok? ==> end.setup == now.setup.(work := r.value, done := |c.views|)
  {
    var tables := work.tables;
    end := now;
    for i := 0 to |c.views|
      invariant Filled(now, tables, i, end) && Leads(c, s, end) && MayCommitEach(c, end, during[i..])
      invariant i <= dies && Collected(c.views, answers, tables, i)
    {
      SourcesMoveOn(c, s, now, tables, i, during[i..], end);
      assert during[i..][0] == during[i] && during[i..][1..] == during[i + 1..];
      end := Grown(end, during[i]);
      if i == dies || answers[i].None? {
        return Err(SetupError), end;
      }
      OneViewFilled(c, s, now, tables, i, answers, end);
      OneMoreTable(c.views, answers, tables, i);
      ghost var next := FilledOn(c, now, tables, i, answers[i].value, end);
      tables := tables[c.views[i].name := answers[i].value];
      OnlyWalMattersEach(c, end, next, during[i + 1..]);
      end := next;
    }
    SourcesMoveOn(c, s, now, tables, |c.views|, during[|c.views|..], end);
    end := Grown(end, during[|c.views|..][0]);
    if dies == |c.views| {
      return Err(SetupError), end;
    }
    r := Ok(work.(tables := tables));
  }

  // ---- setup -----------------------------------------------------------------------------------------

  /** A handshake at `point` is complete: the snapshot is what the targets hold. */
  ghost predicate Completed(server: Server, end: Sys, point: nat, snapshot: seq<Txn>)
    reads server
  {
    && server.slot == Some(point) && HasCheckpoint(server.db) && server.db.checkpoint == Some(point)
    && end.boot == end.applied == |snapshot| && snapshot <= end.wal
  }

  /** setup, which may be refused, fail at a query, or die after any of its steps, while sources go on
      committing.  It ends with a completed handshake at `point`; or it leaves no checkpoint; or the
      database is as it was and the slot is as it was or gone.  A slot that is there without --force, or
      in use, is kept, with the database as it was but for an empty checkpoint table; a setup completes
      if and only if it is not refused, every query can run and the process lives. */
  method Setup(server: Server, c: Config, force: bool, active: bool, point: nat,
               answers: seq<Option<Table>>, dies: nat, ghost others: Commits, ghost s: Sys)
    returns (error: Option<Error>, ghost end: Sys)
    requires c.Valid() && Shows(server, s, active)
    requires MayMeet(c, s, others, point) && Answers(c, Snapshot(s, others), answers)
    modifies server
    ensures Done(c, s, server, end) && end.setup.NotRunning? && s.wal <= end.wal
    ensures error.None? ==>
              && Completed(server, end, point, Snapshot(s, others))
              && Collected(c.views, answers, server.db.tables, |c.views|)
    ensures error.Some? && HasCheckpoint(server.db) ==>
              server.db == old(server.db) && (server.slot == old(server.slot) || server.slot.None?)
    ensures old(server.slot).Some? && (!force || active) ==>
              && error == Some(SetupError) && server.slot == old(server.slot)
              && (server.db == old(server.db) || (old(server.db).NoSchema? && server.db == Db(map[], None)))
    ensures error.None? <==>
              && (old(server.slot).None? || (force && !active))
              && (forall i :: 0 <= i < |answers| ==> answers[i].Some?)
              && dies > |c.views| + 4
  {
    LeadsFrom(c, s);
    LeadsOn(c, s, s, SetupEnsureTable);
    end := Next(c, s, SetupEnsureTable);
    EnsureCheckpointTable(server);
    if dies == 0 {
      return Some(SetupError), end;
    }
    error := PrepareSlot(server, force, active);
    if error.Some? {
      return;
    }
    LeadsOn(c, s, end, SetupCheckSlot(force));
    end := Next(c, end, SetupCheckSlot(force));
    if dies == 1 {
      Dies(c, s, end);
      return Some(SetupError), end.(setup := NotRunning);
    }
    error, end := Handshake(server, c, point, answers, dies, others, s, end);
  }

  /** Sources commit, then the slot is created with its snapshot. */
  lemma SlotIsCreated(c: Config, s: Sys, now: Sys, others: Commits, point: nat) returns (next: Sys)
    requires c.Valid() && Leads(c, s, now) && now.wal == s.wal && now.top == s.top && MayMeet(c, s, others, point)
    requires now.setup.CheckpointCleared? && now.slot.None?
    ensures Leads(c, s, next) && MayCommitEach(c, next, others.during)
    ensures next == now.(wal := Snapshot(s, others), top := point, slot := Some(point),
                         setup := SlotCreated(|Snapshot(s, others)|, point))
  {
    OnlyWalMatters(c, s, now, others.before);
    CommitsAreSteps(c, s, now, others.before);
    var grown := Grown(now, others.before);
    assert others.before == [] ==> s.wal + others.before == s.wal;
    LeadsOn(c, s, grown, SetupCreateSlot(point));
    next := Next(c, grown, SetupCreateSlot(point));
    OnlyWalMattersEach(c, Grown(s, others.before).(top := point), next, others.during);
  }

  /** From the deletion of the old checkpoint to the commit of the backfill. */
  method Handshake(server: Server, c: Config, point: nat, answers: seq<Option<Table>>, dies: nat,
                   ghost others: Commits, ghost s: Sys, ghost now: Sys)
    returns (error: Option<Error>, ghost end: Sys)
    requires c.Valid() && Done(c, s, server, now) && now.setup.SlotChecked? && now.slot.None? && now.db.Db?
    requires now.wal == s.wal && now.top == s.top && MayMeet(c, s, others, point)
    requires Answers(c, Snapshot(s, others), answers) && dies >= 2
    modifies server
    ensures Done(c, s, server, end) && end.setup.NotRunning? && s.wal <= end.wal
    ensures error.None? ==>
              && Completed(server, end, point, Snapshot(s, others))
              && Collected(c.views, answers, server.db.tables, |c.views|)
    ensures error.Some? ==> !HasCheckpoint(server.db)
    ensures error.None? <==> (forall i :: 0 <= i < |answers| ==> answers[i].Some?) && dies > |c.views| + 4
  {
    LeadsOn(c, s, now, SetupClearCheckpoint);
    end := Next(c, now, SetupClearCheckpoint);
    server.db := server.db.(checkpoint := None);
    if dies == 2 {
      Dies(c, s, end);
      return Some(SetupError), end.(setup := NotRunning);
    }
    end := SlotIsCreated(c, s, end, others, point);
    server.slot := Some(point);
    if dies == 3 {
      Dies(c, s, end);
      return Some(SetupError), end.(setup := NotRunning);
    }
    LeadsOn(c, s, end, SetupOpenBackfill);
    ghost var open := Next(c, end, SetupOpenBackfill);
    OnlyWalMattersEach(c, end, open, others.during);
    var r;
    r, end := Backfill(c, server.db, answers, dies - 4, others.during, s, open);
    if r.Err? {
      Dies(c, s, end);
      return Some(r.error), end.(setup := NotRunning);
    }
    LeadsOn(c, s, end, SetupCommit);
    end := Next(c, end, SetupCommit);
    server.db := r.value.(checkpoint := Some(point));
    error := None;
  }

  /** teardown: the slot goes first, then the schema. */
  method Teardown(server: Server, c: Config, dies: bool, ghost s: Sys) returns (ghost end: Sys)
    requires c.Valid() && server.slot == s.slot && server.db == s.db
    requires !InTransaction(s) && !s.setup.BackfillOpen?
    modifies server
    ensures Done(c, s, server, end) && server.slot == None
    ensures server.db == if dies then old(server.db) else NoSchema
  {
    LeadsFrom(c, s);
    LeadsOn(c, s, s, TeardownSlot);
    end := Next(c, s, TeardownSlot);
    server.slot := None;
    if !dies {
      LeadsOn(c, s, end, TeardownSchema);
      end := Next(c, end, TeardownSchema);
      server.db := NoSchema;
    }
  }
}
