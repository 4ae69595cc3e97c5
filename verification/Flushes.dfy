/**
  A whole flush over all configured views: source changes become operations, operations a batch,
  the batch commands, the commands a new database that holds the views of the longer history.
*/
module Flushes {
  import opened Prelude
  import opened Views
  import opened Aggregates
  import opened Maintenance
  import opened Targets
  import opened Projection

  /** A change of one source table; a history is a list of changes, starting from empty tables. */
  datatype Change = Change(table: TableId, event: Event)

  function EventsOn(changes: seq<Change>, t: TableId): seq<Event> {
    if changes == [] then []
    else (if changes[0].table == t then [changes[0].event] else []) + EventsOn(changes[1..], t)
  }

  /** The events of the source of a view, as the view reads them. */
  function SeenBy(view: ViewSpec, changes: seq<Change>): seq<Event> {
    ObservedAll(view, EventsOn(changes, view.source))
  }

  /** The rows of the source of a view, as the view reads them. */
  function Contents(history: seq<Change>, view: ViewSpec): multiset<Row> {
    RowsAfterAll(multiset{}, SeenBy(view, history))
  }

  /** As each view reads them, deletes and updates are of rows that are there. */
  ghost predicate ValidNext(views: seq<ViewSpec>, history: seq<Change>, changes: seq<Change>) {
    forall v :: v in views ==> ValidEvents(Contents(history, v), SeenBy(v, changes))
  }

  /** The operations that the daemon buffers for one change: one for each view of its table. */
  function OpsOf(views: seq<ViewSpec>, change: Change): seq<Op> {
    if views == [] then []
    else
      (if views[0].source == change.table then [Op(views[0].name, change.event)] else []) + OpsOf(views[1..], change)
  }

  function OpsOfAll(views: seq<ViewSpec>, changes: seq<Change>): seq<Op> {
    if changes == [] then [] else OpsOf(views, changes[0]) + OpsOfAll(views, changes[1..])
  }

  function EventsFor(ops: seq<Op>, name: Text): seq<Event> {
    if ops == [] then []
    else (if ops[0].view == name then [ops[0].event] else []) + EventsFor(ops[1..], name)
  }

  // ---- lists --------------------------------------------------------------------

  lemma {:induction false} EventsOnAppend(a: seq<Change>, b: seq<Change>, t: TableId)
    ensures EventsOn(a + b, t) == EventsOn(a, t) + EventsOn(b, t)
  {
    if a == [] {
      assert a + b == b;
    } else {
      assert (a + b)[0] == a[0] && (a + b)[1..] == a[1..] + b;
      EventsOnAppend(a[1..], b, t);
      Associate(if a[0].table == t then [a[0].event] else [], EventsOn(a[1..], t), EventsOn(b, t));
    }
  }

  lemma {:induction false} OpsAppend(views: seq<ViewSpec>, a: seq<Change>, b: seq<Change>)
    ensures OpsOfAll(views, a + b) == OpsOfAll(views, a) + OpsOfAll(views, b)
  {
    if a == [] {
      assert a + b == b;
    } else {
      assert (a + b)[0] == a[0] && (a + b)[1..] == a[1..] + b;
      OpsAppend(views, a[1..], b);
      Associate(OpsOf(views, a[0]), OpsOfAll(views, a[1..]), OpsOfAll(views, b));
    }
  }

  lemma {:induction false} EventsForAppend(a: seq<Op>, b: seq<Op>, name: Text)
    ensures EventsFor(a + b, name) == EventsFor(a, name) + EventsFor(b, name)
  {
    if a == [] {
      assert a + b == b;
    } else {
      assert (a + b)[0] == a[0] && (a + b)[1..] == a[1..] + b;
      EventsForAppend(a[1..], b, name);
      Associate(if a[0].view == name then [a[0].event] else [], EventsFor(a[1..], name), EventsFor(b, name));
    }
  }

  lemma {:induction false} RowsAfterAppend(rows: multiset<Row>, a: seq<Event>, b: seq<Event>)
    ensures RowsAfterAll(rows, a + b) == RowsAfterAll(RowsAfterAll(rows, a), b)
    decreases |a|
  {
    if a == [] {
      assert a + b == b;
    } else {
      assert (a + b)[0] == a[0] && (a + b)[1..] == a[1..] + b;
      RowsAfterAppend(RowsAfter(rows, a[0]), a[1..], b);
    }
  }

  lemma SeenByAppend(view: ViewSpec, a: seq<Change>, b: seq<Change>)
    ensures SeenBy(view, a + b) == SeenBy(view, a) + SeenBy(view, b)
  {
    EventsOnAppend(a, b, view.source);
    ObservedAppend(view, EventsOn(a, view.source), EventsOn(b, view.source));
  }

  lemma ContentsAppend(history: seq<Change>, changes: seq<Change>, view: ViewSpec)
    ensures Contents(history + changes, view) == RowsAfterAll(Contents(history, view), SeenBy(view, changes))
  {
    SeenByAppend(view, history, changes);
    RowsAfterAppend(multiset{}, SeenBy(view, history), SeenBy(view, changes));
  }

  lemma {:induction false} ValidEventsAppend(rows: multiset<Row>, a: seq<Event>, b: seq<Event>)
    ensures ValidEvents(rows, a + b) <==> ValidEvents(rows, a) && ValidEvents(RowsAfterAll(rows, a), b)
    decreases |a|
  {
    if a == [] {
      assert a + b == b;
    } else {
      assert (a + b)[0] == a[0] && (a + b)[1..] == a[1..] + b;
      ValidEventsAppend(RowsAfter(rows, a[0]), a[1..], b);
    }
  }

  lemma ValidNextAppend(views: seq<ViewSpec>, history: seq<Change>, a: seq<Change>, b: seq<Change>)
    ensures ValidNext(views, history, a + b) <==> ValidNext(views, history, a) && ValidNext(views, history + a, b)
  {
    forall v | v in views
      ensures ValidEvents(Contents(history, v), SeenBy(v, a + b)) <==>
              ValidEvents(Contents(history, v), SeenBy(v, a)) && ValidEvents(Contents(history + a, v), SeenBy(v, b))
    {
      SeenByAppend(v, a, b);
      ContentsAppend(history, a, v);
      ValidEventsAppend(Contents(history, v), SeenBy(v, a), SeenBy(v, b));
    }
  }

  /** The rows of a table, whole. */
  function TableRows(history: seq<Change>, t: TableId): multiset<Row> {
    RowsAfterAll(multiset{}, EventsOn(history, t))
  }

  /** For a history that is valid row by row, the rows that a view reads are the rows of its source: it
      is valid as the view reads it, and the server's query over whole rows has the same answer. */
  lemma WholeRowsAgree(view: ViewSpec, sem: Semantics, history: seq<Change>, changes: seq<Change>)
    requires ValidEvents(multiset{}, EventsOn(history, view.source))
    ensures GroundTruth(view, sem, Contents(history, view)) == GroundTruth(view, sem, TableRows(history, view.source))
    ensures ValidEvents(TableRows(history, view.source), EventsOn(changes, view.source)) ==>
              ValidEvents(Contents(history, view), SeenBy(view, changes))
  {
    var rows := TableRows(history, view.source);
    ObservedHistory(view, multiset{}, EventsOn(history, view.source));
    SameTruth(view, sem, rows);
    if ValidEvents(rows, EventsOn(changes, view.source)) {
      ObservedHistory(view, rows, EventsOn(changes, view.source));
    }
  }

  // ---- each view sees the events of its table ------------------------------------

  lemma {:induction false} NoOpsForOthers(views: seq<ViewSpec>, change: Change, name: Text)
    requires forall v :: v in views ==> v.name != name
    ensures EventsFor(OpsOf(views, change), name) == []
  {
    if views != [] {
      var head: seq<Op> := if views[0].source == change.table then [Op(views[0].name, change.event)] else [];
      NoOpsForOthers(views[1..], change, name);
      EventsForAppend(head, OpsOf(views[1..], change), name);
    }
  }

  lemma {:induction false} OpsOfReachView(views: seq<ViewSpec>, change: Change, v: ViewSpec)
    requires DistinctNames(views) && v in views
    ensures EventsFor(OpsOf(views, change), v.name) == if v.source == change.table then [change.event] else []
  {
    var rest := views[1..];
    var head: seq<Op> := if views[0].source == change.table then [Op(views[0].name, change.event)] else [];
    assert OpsOf(views, change) == head + OpsOf(rest, change);
    EventsForAppend(head, OpsOf(rest, change), v.name);
    if v == views[0] {
      assert forall w :: w in rest ==> w.name != v.name;
      NoOpsForOthers(rest, change, v.name);
    } else {
      assert v in rest;
      OpsOfReachView(rest, change, v);
    }
  }

  lemma {:induction false} OpsReachView(views: seq<ViewSpec>, changes: seq<Change>, v: ViewSpec)
    requires DistinctNames(views) && v in views
    ensures EventsFor(OpsOfAll(views, changes), v.name) == EventsOn(changes, v.source)
  {
    if changes != [] {
      OpsOfReachView(views, changes[0], v);
      OpsReachView(views, changes[1..], v);
      EventsForAppend(OpsOf(views, changes[0]), OpsOfAll(views, changes[1..]), v.name);
    }
  }

  lemma NameFindsView(views: seq<ViewSpec>, v: ViewSpec)
    requires DistinctNames(views) && v in views
    ensures FindView(views, v.name) == Some(v)
  {
    var found := FindView(views, v.name).value;
    var i :| 0 <= i < |views| && views[i] == found;
    var j :| 0 <= j < |views| && views[j] == v;
  }

  lemma OneOpByView(sem: Semantics, views: seq<ViewSpec>, b: BatchState, op: Op, v: ViewSpec)
    requires DistinctNames(views) && BatchOf(views, b) && v in views
    requires ApplyOp(sem, views, b, op).1 == None
    ensures var next := ApplyOp(sem, views, b, op).0;
            if op.view == v.name then ApplyEvent(sem, v, b[v.name], op.event) == (next[v.name], None)
            else next[v.name] == b[v.name]
  {
    NameFindsView(views, v);
  }

  /** Views do not interfere in a batch: each one's part is the fold of its own events. */
  lemma {:induction false} BatchByView(sem: Semantics, views: seq<ViewSpec>, b: BatchState, ops: seq<Op>, v: ViewSpec)
    requires DistinctNames(views) && BatchOf(views, b) && v in views
    requires ApplyOps(sem, views, b, ops).1 == None
    ensures ApplyEvents(sem, v, b[v.name], EventsFor(ops, v.name)) == (ApplyOps(sem, views, b, ops).0[v.name], None)
    decreases |ops|
  {
    if ops != [] {
      OneOpByView(sem, views, b, ops[0], v);
      BatchByView(sem, views, ApplyOp(sem, views, b, ops[0]).0, ops[1..], v);
      EventsForHead(ops, v.name);
    }
  }

  lemma EventsForHead(ops: seq<Op>, name: Text)
    requires ops != []
    ensures if ops[0].view == name
            then EventsFor(ops, name) != [] && EventsFor(ops, name)[0] == ops[0].event
                 && EventsFor(ops, name)[1..] == EventsFor(ops[1..], name)
            else EventsFor(ops, name) == EventsFor(ops[1..], name)
  {
  }

  // ---- commands by view ------------------------------------------------------------

  function CommandsFor(cmds: seq<Command>, name: Text): (r: seq<Command>)
    ensures forall c :: c in r ==> c in cmds && !c.SetCheckpoint? && c.view == name
  {
    if cmds == [] then []
    else
      (if !cmds[0].SetCheckpoint? && cmds[0].view == name then [cmds[0]] else []) + CommandsFor(cmds[1..], name)
  }

  lemma {:induction false} CommandsForAppend(a: seq<Command>, b: seq<Command>, name: Text)
    ensures CommandsFor(a + b, name) == CommandsFor(a, name) + CommandsFor(b, name)
  {
    if a == [] {
      assert a + b == b;
    } else {
      assert (a + b)[0] == a[0] && (a + b)[1..] == a[1..] + b;
      CommandsForAppend(a[1..], b, name);
      Associate(if !a[0].SetCheckpoint? && a[0].view == name then [a[0]] else [],
                CommandsFor(a[1..], name), CommandsFor(b, name));
    }
  }

  lemma {:induction false} AllFor(cmds: seq<Command>, name: Text, own: bool)
    requires forall c :: c in cmds ==> !c.SetCheckpoint? && (c.view == name <==> own)
    ensures CommandsFor(cmds, name) == if own then cmds else []
  {
    if cmds != [] {
      AllFor(cmds[1..], name, own);
    }
  }

  lemma HeadName(views: seq<ViewSpec>, name: Text)
    requires DistinctNames(views) && views != []
    ensures views[0].name == name ==> name !in ViewNames(views[1..])
    ensures name in ViewNames(views) <==> views[0].name == name || name in ViewNames(views[1..])
  {
    if name in ViewNames(views) {
      var v :| v in views && v.name == name;
      assert v == views[0] || v in views[1..];
    }
    assert forall v :: v in views[1..] ==> v in views;
  }

  lemma {:induction false} DeletesFor(views: seq<ViewSpec>, b: BatchState, name: Text)
    requires DistinctNames(views) && forall v :: v in views ==> v.name in b
    ensures forall v :: v in views && v.name == name ==>
            CommandsFor(Deletes(views, b), name) == if b[name].truncated then [DeleteAll(name)] else []
    ensures name !in ViewNames(views) ==> CommandsFor(Deletes(views, b), name) == []
  {
    if views != [] {
      var head, rest := views[0], views[1..];
      var own: seq<Command> := if b[head.name].truncated then [DeleteAll(head.name)] else [];
      AllFor(own, name, head.name == name);
      CommandsForAppend(own, Deletes(rest, b), name);
      DeletesFor(rest, b, name);
      HeadName(views, name);
    }
  }

  lemma {:induction false} UpsertsFor(views: seq<ViewSpec>, b: BatchState, name: Text)
    requires DistinctNames(views) && forall v :: v in views ==> v.name in b
    ensures forall v :: v in views && v.name == name ==>
            CommandsFor(Upserts(views, b), name) == UpsertsOf(v, b[name].groups)
    ensures name !in ViewNames(views) ==> CommandsFor(Upserts(views, b), name) == []
  {
    if views != [] {
      var head, rest := views[0], views[1..];
      var own: seq<Command> := UpsertsOf(head, b[head.name].groups);
      UpsertsAreUpserts(head, b[head.name].groups);
      AllFor(own, name, head.name == name);
      CommandsForAppend(own, Upserts(rest, b), name);
      UpsertsFor(rest, b, name);
      HeadName(views, name);
    }
  }

  lemma {:induction false} CleanupsFor(views: seq<ViewSpec>, b: BatchState, name: Text)
    requires DistinctNames(views) && forall v :: v in views ==> v.name in b
    ensures forall v :: v in views && v.name == name ==>
            CommandsFor(Cleanups(views, b), name) == if NeedsCleanup(v, b[name]) then [DeleteEmpty(name)] else []
    ensures name !in ViewNames(views) ==> CommandsFor(Cleanups(views, b), name) == []
  {
    if views != [] {
      var head, rest := views[0], views[1..];
      var own: seq<Command> := if NeedsCleanup(head, b[head.name]) then [DeleteEmpty(head.name)] else [];
      AllFor(own, name, head.name == name);
      CommandsForAppend(own, Cleanups(rest, b), name);
      CleanupsFor(rest, b, name);
      HeadName(views, name);
    }
  }

  lemma StatementsFor(views: seq<ViewSpec>, b: BatchState, name: Text)
    requires DistinctNames(views) && forall v :: v in views ==> v.name in b
    ensures forall v :: v in views && v.name == name ==>
            CommandsFor(Statements(views, b), name) == ViewStatements(v, b[name])
    ensures name !in ViewNames(views) ==> CommandsFor(Statements(views, b), name) == []
  {
    DeletesFor(views, b, name);
    UpsertsFor(views, b, name);
    CleanupsFor(views, b, name);
    CommandsForAppend(Deletes(views, b) + Upserts(views, b), Cleanups(views, b), name);
    CommandsForAppend(Deletes(views, b), Upserts(views, b), name);
  }

  lemma {:induction false} StatementsNameViews(views: seq<ViewSpec>, b: BatchState)
    requires forall v :: v in views ==> v.name in b
    ensures forall c :: c in Deletes(views, b) || c in Upserts(views, b) || c in Cleanups(views, b) ==>
              !c.SetCheckpoint? && c.view in ViewNames(views)
  {
    if views != [] {
      StatementsNameViews(views[1..], b);
      UpsertsAreUpserts(views[0], b[views[0].name].groups);
      assert views[0].name in ViewNames(views);
      assert ViewNames(views[1..]) <= ViewNames(views);
    }
  }

  /** Commands on different tables do not interfere. */
  lemma {:induction false} ExecByView(sem: Semantics, db: Db, cmds: seq<Command>)
    requires db.Db? && forall c :: c in cmds ==> !c.SetCheckpoint? && c.view in db.tables
    requires forall name :: name in db.tables ==> ExecTable(sem, db.tables[name], CommandsFor(cmds, name)).Some?
    ensures ExecAll(sem, db, cmds).Some?
    ensures var after := ExecAll(sem, db, cmds).value;
            && after.Db? && after.checkpoint == db.checkpoint && after.tables.Keys == db.tables.Keys
            && forall name :: name in db.tables ==>
                 ExecTable(sem, db.tables[name], CommandsFor(cmds, name)) == Some(after.tables[name])
    decreases |cmds|
  {
    if cmds != [] {
      var own := CommandsFor(cmds, cmds[0].view);
      assert own[0] == cmds[0] && own[1..] == CommandsFor(cmds[1..], cmds[0].view);
      var next := Exec(sem, db, cmds[0]).value;
      assert next.tables.Keys == db.tables.Keys;
      forall name | name in db.tables
        ensures ExecTable(sem, next.tables[name], CommandsFor(cmds[1..], name)) ==
                ExecTable(sem, db.tables[name], CommandsFor(cmds, name))
      {
        if name != cmds[0].view {
          assert CommandsFor(cmds, name) == CommandsFor(cmds[1..], name);
        }
      }
      ExecByView(sem, next, cmds[1..]);
    }
  }

  lemma {:induction false} ExecAllAppend(sem: Semantics, db: Db, a: seq<Command>, b: seq<Command>)
    ensures ExecAll(sem, db, a + b) ==
            (match ExecAll(sem, db, a) case None => None case Some(mid) => ExecAll(sem, mid, b))
    decreases |a|
  {
    if a == [] {
      assert a + b == b;
    } else {
      assert (a + b)[0] == a[0] && (a + b)[1..] == a[1..] + b;
      if Exec(sem, db, a[0]).Some? {
        ExecAllAppend(sem, Exec(sem, db, a[0]).value, a[1..], b);
      }
    }
  }

  // ---- the flush theorem --------------------------------------------------------------

  /** Every configured target exists and holds its view of the source after the history. */
  ghost predicate Holds(views: seq<ViewSpec>, sem: Semantics, tables: map<Text, Table>, history: seq<Change>) {
    forall v :: v in views ==>
      v.name in tables && tables[v.name] == GroundTruth(v, sem, Contents(history, v))
  }

  /** No running total formed while folding the changes into one batch leaves 28 digits. */
  ghost predicate Fits(sem: Semantics, views: seq<ViewSpec>, changes: seq<Change>) {
    forall v :: v in views ==> FitsEvents(sem, v, EMPTY, EventsOn(changes, v.source))
  }

  function FlushCommands(views: seq<ViewSpec>, b: BatchState, lsn: nat): seq<Command>
    requires forall v :: v in views ==> v.name in b
  {
    Statements(views, b) + [SetCheckpoint(lsn)]
  }

  lemma BatchTracks(views: seq<ViewSpec>, sem: Semantics, history: seq<Change>, changes: seq<Change>, v: ViewSpec)
    requires sem.Valid() && DistinctNames(views) && v in views && ValidNext(views, history, changes)
             && Fits(sem, views, changes)
    requires ApplyOps(sem, views, EmptyBatch(views), OpsOfAll(views, changes)).1 == None
    ensures Tracks(v, sem, ApplyOps(sem, views, EmptyBatch(views), OpsOfAll(views, changes)).0[v.name],
                   Contents(history, v), Contents(history + changes, v))
  {
    var rows := Contents(history, v);
    OpsReachView(views, changes, v);
    BatchByView(sem, views, EmptyBatch(views), OpsOfAll(views, changes), v);
    EmptyBatchTracks(v, sem, rows);
    SameEvents(sem, v, EMPTY, EventsOn(changes, v.source));
    EventsTrack(v, sem, EMPTY, rows, rows, SeenBy(v, changes));
    ContentsAppend(history, changes, v);
  }

  lemma ViewCommandsReachTruth(views: seq<ViewSpec>, sem: Semantics, history: seq<Change>, changes: seq<Change>,
                               v: ViewSpec)
    requires sem.Valid() && DistinctNames(views) && v in views && ValidNext(views, history, changes)
             && Fits(sem, views, changes)
    requires ApplyOps(sem, views, EmptyBatch(views), OpsOfAll(views, changes)).1 == None
    ensures var b := ApplyOps(sem, views, EmptyBatch(views), OpsOfAll(views, changes)).0;
            ExecTable(sem, GroundTruth(v, sem, Contents(history, v)), CommandsFor(Statements(views, b), v.name)) ==
            Some(GroundTruth(v, sem, Contents(history + changes, v)))
  {
    var b := ApplyOps(sem, views, EmptyBatch(views), OpsOfAll(views, changes)).0;
    BatchTracks(views, sem, history, changes, v);
    ViewIsMaintained(v, sem, b[v.name], Contents(history, v), Contents(history + changes, v));
    StatementsFor(views, b, v.name);
  }

  /** Every table of the database gets through the commands of a batch. */
  ghost predicate AllReach(views: seq<ViewSpec>, sem: Semantics, db: Db, cmds: seq<Command>, history: seq<Change>)
    requires db.Db?
  {
    && (forall v :: v in views ==>
          v.name in db.tables &&
          ExecTable(sem, db.tables[v.name], CommandsFor(cmds, v.name)) ==
          Some(GroundTruth(v, sem, Contents(history, v))))
    && forall name :: name in db.tables ==> ExecTable(sem, db.tables[name], CommandsFor(cmds, name)).Some?
  }

  lemma StatementsReach(views: seq<ViewSpec>, sem: Semantics, db: Db, history: seq<Change>, changes: seq<Change>)
    requires sem.Valid() && DistinctNames(views) && db.Db? && Holds(views, sem, db.tables, history)
    requires ValidNext(views, history, changes) && Fits(sem, views, changes)
    requires ApplyOps(sem, views, EmptyBatch(views), OpsOfAll(views, changes)).1 == None
    ensures var b := ApplyOps(sem, views, EmptyBatch(views), OpsOfAll(views, changes)).0;
            AllReach(views, sem, db, Statements(views, b), history + changes)
  {
    var b := ApplyOps(sem, views, EmptyBatch(views), OpsOfAll(views, changes)).0;
    var cmds := Statements(views, b);
    forall v | v in views
      ensures ExecTable(sem, db.tables[v.name], CommandsFor(cmds, v.name)) ==
              Some(GroundTruth(v, sem, Contents(history + changes, v)))
    {
      ViewCommandsReachTruth(views, sem, history, changes, v);
    }
    forall name | name in db.tables ensures ExecTable(sem, db.tables[name], CommandsFor(cmds, name)).Some? {
      if name !in ViewNames(views) {
        StatementsFor(views, b, name);
      }
    }
  }

  lemma CommandsThenCheckpoint(views: seq<ViewSpec>, sem: Semantics, db: Db, cmds: seq<Command>, history: seq<Change>,
                               lsn: nat)
    requires db.Db? && AllReach(views, sem, db, cmds, history)
    requires forall c :: c in cmds ==> !c.SetCheckpoint? && c.view in db.tables
    ensures var after := ExecAll(sem, db, cmds + [SetCheckpoint(lsn)]);
            && after.Some? && after.value.Db? && after.value.checkpoint == Some(lsn)
            && Holds(views, sem, after.value.tables, history)
  {
    ExecByView(sem, db, cmds);
    ExecAllAppend(sem, db, cmds, [SetCheckpoint(lsn)]);
    var mid := ExecAll(sem, db, cmds).value;
    assert [SetCheckpoint(lsn)][1..] == [];
    assert ExecAll(sem, mid, [SetCheckpoint(lsn)]) == Some(mid.(checkpoint := Some(lsn)));
  }

  /** If the targets hold the views of a history, and the batch of the next changes is accepted,
      its commands succeed and leave the views of the longer history, with the new checkpoint. */
  lemma FlushMaintainsViews(views: seq<ViewSpec>, sem: Semantics, db: Db, history: seq<Change>, changes: seq<Change>,
                            lsn: nat)
    requires sem.Valid() && DistinctNames(views) && db.Db? && Holds(views, sem, db.tables, history)
    requires ValidNext(views, history, changes) && Fits(sem, views, changes)
    requires ApplyOps(sem, views, EmptyBatch(views), OpsOfAll(views, changes)).1 == None
    ensures var b := ApplyOps(sem, views, EmptyBatch(views), OpsOfAll(views, changes)).0;
            var after := ExecAll(sem, db, FlushCommands(views, b, lsn));
            && after.Some? && after.value.Db? && after.value.checkpoint == Some(lsn)
            && Holds(views, sem, after.value.tables, history + changes)
  {
    var b := ApplyOps(sem, views, EmptyBatch(views), OpsOfAll(views, changes)).0;
    StatementsNameViews(views, b);
    StatementsReach(views, sem, db, history, changes);
    CommandsThenCheckpoint(views, sem, db, Statements(views, b), history + changes, lsn);
  }
}
