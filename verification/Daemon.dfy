/**
  The daemon object: relation tracking, row decoding, the flush and the loop, each proved equal to
  the function that specifies it.
*/
module Daemons {
  import opened Prelude
  import opened Protocol
  import opened Views
  import opened Aggregates
  import opened Flushes
  import opened DeltaBatches
  import opened RowMessages
  import opened Machine
  import opened Runs
  import R = Readers
  import opened Replication

  /** The target connection: the durable database, and what the open transaction sees. */
  class Connection {
    const sem: Semantics
    var db: Db
    var work: Db

    constructor (sem: Semantics, db: Db)
      ensures this.sem == sem && this.db == db
    {
      this.sem, this.db, this.work := sem, db, db;
    }

    /** The first statement of a transaction begins it. */
    method Begin()
      modifies this`work
      ensures work == db
    {
      work := db;
    }

    method Execute(cmd: Command, fails: bool) returns (error: Option<Error>)
      modifies this`work
      ensures error.None? <==> !fails && Exec(sem, old(work), cmd).Some?
      ensures error.None? ==> Exec(sem, old(work), cmd) == Some(work)
    {
      var after := Exec(sem, work, cmd);
      if fails || after.None? {
        return Some(DatabaseError);
      }
      work := after.value;
      error := None;
    }

    method Commit(fault: Fault) returns (error: Option<Error>)
      modifies this`db
      ensures db == if fault.BeforeCommit? then old(db) else work
      ensures error.Some? <==> fault.BeforeCommit? || fault.CommitLost?
    {
      if fault.BeforeCommit? {
        return Some(DatabaseError);
      }
      db := work;
      error := if fault.CommitLost? then Some(DatabaseError) else None;
    }
  }

  /** What run reads first: the checkpoint of a completed handshake, or a refusal to start. */
  method ReadCheckpoint(conn: Connection) returns (r: Result<nat>)
    ensures r.Ok? <==> HasCheckpoint(conn.db)
    ensures r == if HasCheckpoint(conn.db) then Ok(conn.db.checkpoint.value) else Err(SetupError)
  {
    if conn.db.NoSchema? || conn.db.checkpoint.None? {
      return Err(SetupError);
    }
    r := Ok(conn.db.checkpoint.value);
  }

  function AtTable(m: map<TableId, seq<ViewSpec>>, t: TableId): seq<ViewSpec> {
    if t in m then m[t] else []
  }

  lemma {:induction false} ViewsOfAppend(views: seq<ViewSpec>, more: seq<ViewSpec>, t: TableId)
    ensures ViewsOf(views + more, t) == ViewsOf(views, t) + ViewsOf(more, t)
  {
    if views == [] {
      assert views + more == more;
    } else {
      assert (views + more)[0] == views[0] && (views + more)[1..] == views[1..] + more;
      ViewsOfAppend(views[1..], more, t);
    }
  }

  /** One more view joins the list of its table and no other. */
  lemma OneMoreView(views: seq<ViewSpec>, i: nat, t: TableId)
    requires i < |views|
    ensures ViewsOf(views[..i + 1], t) ==
            ViewsOf(views[..i], t) + (if views[i].source == t then [views[i]] else [])
  {
    assert views[..i + 1] == views[..i] + [views[i]];
    ViewsOfAppend(views[..i], [views[i]], t);
    assert [views[i]][1..] == [];
  }

  lemma {:induction false} ApplyOpsAppend(sem: Semantics, views: seq<ViewSpec>, b: BatchState, first: seq<Op>,
                                          rest: seq<Op>)
    requires DistinctNames(views) && BatchOf(views, b)
    ensures ApplyOps(sem, views, b, first + rest) ==
            (var (next, error) := ApplyOps(sem, views, b, first);
             if error.Some? then (next, error) else ApplyOps(sem, views, next, rest))
    decreases |first|
  {
    if first == [] {
      assert first + rest == rest;
    } else {
      assert (first + rest)[0] == first[0] && (first + rest)[1..] == first[1..] + rest;
      ApplyOpsAppend(sem, views, ApplyOp(sem, views, b, first[0]).0, first[1..], rest);
    }
  }

  /** Folds one operation into the batch, by its kind. */
  method ApplyToBatch(batch: DeltaBatch, op: Op) returns (error: Option<Error>)
    requires batch.Valid()
    modifies batch
    ensures batch.Valid() && (batch.state, error) == ApplyOp(batch.sem, batch.views, old(batch.state), op)
  {
    match op.event
    case Insert(row) => error := batch.ApplyInsert(op.view, row);
    case Update(before, after) => error := batch.ApplyUpdate(op.view, before, after);
    case Delete(row) => error := batch.ApplyDelete(op.view, row);
    case Truncate => error := batch.ApplyTruncate(op.view);
  }

  method ApplyTxn(batch: DeltaBatch, ops: seq<Op>) returns (error: Option<Error>)
    requires batch.Valid()
    modifies batch
    ensures batch.Valid() && (batch.state, error) == ApplyOps(batch.sem, batch.views, old(batch.state), ops)
  {
    for j := 0 to |ops|
      invariant batch.Valid()
      invariant ApplyOps(batch.sem, batch.views, batch.state, ops[j..]) ==
                ApplyOps(batch.sem, batch.views, old(batch.state), ops)
    {
      assert ops[j..][0] == ops[j] && ops[j..][1..] == ops[j + 1..];
      error := ApplyToBatch(batch, ops[j]);
      if error.Some? {
        return;
      }
    }
    error := None;
  }

  method ApplyPending(batch: DeltaBatch, pending: seq<Sealed>) returns (error: Option<Error>)
    requires batch.Valid()
    modifies batch
    ensures batch.Valid() && (batch.state, error) ==
            ApplyOps(batch.sem, batch.views, old(batch.state), PendingOps(pending))
  {
    for i := 0 to |pending|
      invariant batch.Valid()
      invariant ApplyOps(batch.sem, batch.views, batch.state, PendingOps(pending[i..])) ==
                ApplyOps(batch.sem, batch.views, old(batch.state), PendingOps(pending))
    {
      assert pending[i..][0] == pending[i] && pending[i..][1..] == pending[i + 1..];
      ApplyOpsAppend(batch.sem, batch.views, batch.state, pending[i].ops, PendingOps(pending[i + 1..]));
      error := ApplyTxn(batch, pending[i].ops);
      if error.Some? {
        return;
      }
    }
    error := None;
  }

  /** Runs the commands of a flush in the open transaction; the statement of the fault raises. */
  method ExecuteCommands(conn: Connection, cmds: seq<Command>, fault: Fault) returns (error: Option<Error>)
    modifies conn`work
    ensures error.None? ==> ExecAll(conn.sem, old(conn.work), cmds) == Some(conn.work)
    ensures error.Some? ==> fault.BeforeCommit? || ExecAll(conn.sem, old(conn.work), cmds).None?
  {
    for i := 0 to |cmds|
      invariant ExecAll(conn.sem, conn.work, cmds[i..]) == ExecAll(conn.sem, old(conn.work), cmds)
    {
      assert cmds[i..][0] == cmds[i] && cmds[i..][1..] == cmds[i + 1..];
      error := conn.Execute(cmds[i], fault.BeforeCommit? && fault.statement == i);
      if error.Some? {
        return;
      }
    }
    error := None;
  }

  /** One target transaction: all commands and the commit, or nothing. */
  method ApplyAtomically(conn: Connection, cmds: seq<Command>, fault: Fault) returns (error: Option<Error>)
    modifies conn
    ensures var after := ExecAll(conn.sem, old(conn.db), cmds);
            && conn.db == (if after.Some? && !fault.BeforeCommit? then after.value else old(conn.db))
            && (error.None? <==> after.Some? && !fault.BeforeCommit? && !fault.CommitLost?)
  {
    conn.Begin();
    error := ExecuteCommands(conn, cmds, fault);
    if error.None? {
      error := conn.Commit(fault);
    }
  }

  /** One turn of the loop over relation ids appends the operations of a known relation. */
  lemma NextTruncate(views: seq<ViewSpec>, known: map<nat, Relation>, relIds: seq<nat>, ops: seq<Op>, i: nat)
    requires i < |relIds|
    ensures ops + TruncateOps(views, known, relIds[i..]) ==
            (if relIds[i] in known then ops + OpsFor(ViewsOf(views, TableOf(known[relIds[i]])), Truncate) else ops)
            + TruncateOps(views, known, relIds[i + 1..])
  {
    assert relIds[i..][0] == relIds[i] && relIds[i..][1..] == relIds[i + 1..];
    Associate(ops, if relIds[i] in known then OpsFor(ViewsOf(views, TableOf(known[relIds[i]])), Truncate) else [],
              TruncateOps(views, known, relIds[i + 1..]));
    assert ops + [] == ops;
  }

  /** The columns that a view needs and a table lacks. */
  method MissingColumns(view: ViewSpec, rel: Relation) returns (missing: set<Text>)
    ensures forall c :: c in missing <==> c in NeededColumns(view) && c !in Names(rel.columns)
    ensures missing == {} <==> Provides(rel, view)
  {
    var required := set c | c in NeededColumns(view);
    var available := Names(rel.columns);
    missing := required - available;
    if missing == {} {
      forall i | 0 <= i < |NeededColumns(view)| ensures NeededColumns(view)[i] in available {
        assert NeededColumns(view)[i] !in missing;
      }
    } else {
      ghost var column :| column in missing;
      ghost var i :| 0 <= i < |NeededColumns(view)| && NeededColumns(view)[i] == column;
    }
  }

  class Daemon {
    const p: Params
    const viewsByTable: map<TableId, seq<ViewSpec>>
    var relations: map<nat, Relation>
    var viewRelIds: set<nat>
    var checkpoint: nat

    ghost predicate Valid() {
      && p.Valid() && p.decode == Decode
      && forall t :: AtTable(viewsByTable, t) == ViewsOf(p.c.views, t)
    }

    ghost function Rels(): Relations
      reads this
    {
      Relations(relations, viewRelIds)
    }

    constructor (p: Params, checkpoint: nat)
      requires p.Valid() && p.decode == Decode
      ensures Valid() && this.p == p && Rels() == NO_RELATIONS && this.checkpoint == checkpoint
    {
      var views := p.c.views;
      var byTable: map<TableId, seq<ViewSpec>> := map[];
      for i := 0 to |views|
        invariant forall t :: AtTable(byTable, t) == ViewsOf(views[..i], t)
      {
        var more := byTable[views[i].source := AtTable(byTable, views[i].source) + [views[i]]];
        forall t ensures AtTable(more, t) == ViewsOf(views[..i + 1], t) {
          OneMoreView(views, i, t);
          assert AtTable(byTable, t) == ViewsOf(views[..i], t);
        }
        byTable := more;
      }
      assert views[..|views|] == views;
      this.p, this.viewsByTable, this.checkpoint := p, byTable, checkpoint;
      this.relations, this.viewRelIds := map[], {};
    }

    /** Tracks a relation; halts on a renamed source and on a missing column. */
    method OnRelation(rel: Relation) returns (error: Option<Error>)
      requires Valid()
      modifies this`relations, this`viewRelIds
      ensures (Rels(), error) == RowMessages.OnRelation(p.c.views, old(Rels()), rel)
    {
      relations := relations[rel.relId := rel];
      var vs := AtTable(viewsByTable, TableOf(rel));
      assert vs == ViewsOf(p.c.views, TableOf(rel));
      if vs == [] {
        return if rel.relId in viewRelIds then Some(SchemaDriftError) else None;
      }
      viewRelIds := viewRelIds + {rel.relId};
      ghost var tracked := Rels();
      for i := 0 to |vs|
        invariant Rels() == tracked
        invariant forall j :: 0 <= j < i ==> Provides(rel, vs[j])
      {
        var missing := MissingColumns(vs[i], rel);
        if missing != {} {
          return Some(SchemaDriftError);
        }
      }
      error := None;
    }

    method DecodeRow(rel: Relation, tuple: Tuple) returns (r: Result<Row>)
      ensures r == RowMessages.DecodeRow(p.convert, rel, tuple)
    {
      var row: Row := map[];
      var i := 0;
      while i < |rel.columns| && i < |tuple|
        invariant i <= |rel.columns| && i <= |tuple|
        invariant DecodeOnto(p.convert, row, rel.columns[i..], tuple[i..]) ==
                  RowMessages.DecodeRow(p.convert, rel, tuple)
      {
        assert rel.columns[i..][0] == rel.columns[i] && rel.columns[i..][1..] == rel.columns[i + 1..];
        assert tuple[i..][0] == tuple[i] && tuple[i..][1..] == tuple[i + 1..];
        var value :- CellValue(p.convert, tuple[i], rel.columns[i].typeOid);
        row := row[rel.columns[i].name := value];
        i := i + 1;
      }
      if i < |rel.columns| || i < |tuple| {
        return Err(RuntimeError);
      }
      r := Ok(row);
    }

    /** Overwrites each unchanged entry of the new row with the old value, one by one. */
    method Substitute(rel: Relation, before: Row, after: Row) returns (row: Row)
      requires after.Keys == Names(rel.columns)
      ensures row == Substituted(before, after)
    {
      row := after;
      for i := 0 to |rel.columns|
        invariant row.Keys == after.Keys
        invariant forall name :: name in after ==>
                    row[name] == after[name] || row[name] == Substituted(before, after)[name]
        invariant forall j :: 0 <= j < i ==>
                    row[rel.columns[j].name] == Substituted(before, after)[rel.columns[j].name]
      {
        var name := rel.columns[i].name;
        if row[name] == Unchanged {
          row := row[name := Field(before, name)];
        }
      }
      SameRow(row, Substituted(before, after), rel.columns);
    }

    method Event(rel: Relation, m: Message) returns (r: Result<Event>)
      requires IsRowMessage(m) && !m.TruncateMsg?
      ensures r == RowEvent(p.convert, rel, m)
    {
      match m
      case InsertMsg(_, tuple) =>
        var row :- DecodeRow(rel, tuple);
        r := Ok(Insert(row));
      case UpdateMsg(_, before, _, tuple) =>
        if before.None? {
          return Err(SchemaDriftError);
        }
        var prior :- DecodeRow(rel, before.value);
        var next :- DecodeRow(rel, tuple);
        DecodedKeys(p.convert, map[], rel.columns, tuple);
        next := Substitute(rel, prior, next);
        r := Ok(Update(prior, next));
      case DeleteMsg(_, before, _) =>
        if before.None? {
          return Err(SchemaDriftError);
        }
        var row :- DecodeRow(rel, before.value);
        r := Ok(Delete(row));
    }

    method OpsForViews(vs: seq<ViewSpec>, event: Event) returns (ops: seq<Op>)
      ensures ops == OpsFor(vs, event)
    {
      ops := [];
      for i := 0 to |vs|
        invariant ops == OpsFor(vs[..i], event)
      {
        ops := ops + [Op(vs[i].name, event)];
      }
      assert vs[..|vs|] == vs;
    }

    method TruncateOperations(relIds: seq<nat>) returns (ops: seq<Op>)
      requires Valid()
      ensures ops == TruncateOps(p.c.views, relations, relIds)
    {
      ops := [];
      for i := 0 to |relIds|
        invariant ops + TruncateOps(p.c.views, relations, relIds[i..]) == TruncateOps(p.c.views, relations, relIds)
      {
        NextTruncate(p.c.views, relations, relIds, ops, i);
        if relIds[i] in relations {
          var one := OpsForViews(AtTable(viewsByTable, TableOf(relations[relIds[i]])), Truncate);
          ops := ops + one;
        }
      }
    }

    method RowOps(m: Message) returns (r: Result<seq<Op>>)
      requires Valid() && IsRowMessage(m)
      ensures r == RowMessages.RowOps(p.c.views, p.convert, relations, m)
    {
      if m.TruncateMsg? {
        var ops := TruncateOperations(m.relIds);
        return Ok(ops);
      }
      if m.relId !in relations {
        return Err(ProtocolError);
      }
      var rel := relations[m.relId];
      var vs := AtTable(viewsByTable, TableOf(rel));
      if vs == [] {
        return Ok([]);
      }
      var event :- Event(rel, m);
      var ops := OpsForViews(vs, event);
      r := Ok(ops);
    }

    /** The whole batch is built before any command runs; deltas and checkpoint commit together;
        only then is the position acknowledged and remembered. */
    method Flush(conn: Connection, stream: Stream, pending: seq<Sealed>, fault: Fault) returns (error: Option<Error>)
      requires Valid() && conn.sem == p.c.sem && pending != []
      modifies this`checkpoint, conn, stream
      ensures match FlushOutcome(p.c, old(conn.db), pending, fault)
              case Refused(e) => error == Some(e) && conn.db == old(conn.db) && unchanged(this) && unchanged(stream)
              case RolledBack => error.Some? && conn.db == old(conn.db) && unchanged(this) && unchanged(stream)
              case Interrupted(db) => error.Some? && conn.db == db && unchanged(this)
              case Done(db) =>
                && error.None? && conn.db == db && checkpoint == stream.flushLsn == LastLsn(pending)
                && stream.sent == old(stream.sent) + [LastLsn(pending)]
    {
      var commands := BuildCommands(pending);
      if commands.Err? {
        return Some(commands.error);
      }
      error := ApplyAtomically(conn, commands.value, fault);
      if error.Some? {
        return;
      }
      error := stream.Ack(LastLsn(pending), fault.AckLost?);
      if error.Some? {
        return;
      }
      checkpoint := LastLsn(pending);
    }

    /** Folds the pending operations and turns the batch into commands, the checkpoint last. */
    method BuildCommands(pending: seq<Sealed>) returns (r: Result<seq<Command>>)
      requires Valid() && pending != []
      ensures var (b, e) := ApplyOps(p.c.sem, p.c.views, EmptyBatch(p.c.views), PendingOps(pending));
              r == if e.Some? then Err(e.value) else Ok(FlushCommands(p.c.views, b, LastLsn(pending)))
    {
      var batch := new DeltaBatch(p.c.sem, p.c.views);
      var error := ApplyPending(batch, pending);
      if error.Some? {
        return Err(error.value);
      }
      var statements := batch.Statements();
      r := Ok(statements + [SetCheckpoint(LastLsn(pending))]);
    }

    // ---- the loop -----------------------------------------------------------------

    /** The objects and the loop's variables hold what the run says. */
    ghost predicate Mirrors(w: Run, conn: Connection, stream: Stream,
                            pending: seq<Sealed>, oldest: Option<int>, open: Option<seq<Op>>)
      reads this, conn, stream
    {
      && Ready(w) && Rels() == w.rels && oldest == w.oldest
      && conn.sem == p.c.sem && conn.db == w.sys.db
      && var d := w.sys.daemon;
      && d.open == open && d.pending == pending && d.checkpoint == checkpoint && d.flushLsn == stream.flushLsn
    }

    /** A flush inside the loop. */
    method FlushPending(conn: Connection, stream: Stream, pending: seq<Sealed>, oldest: Option<int>,
                        ghost open: Option<seq<Op>>, fault: Fault, ghost w: Run) returns (error: Option<Error>)
      requires Valid() && pending != [] && Mirrors(w, conn, stream, pending, oldest, open)
      modifies this`checkpoint, conn, stream
      ensures var x := Flushed(p.c, w, fault);
              && conn.db == x.sys.db
              && (error.None? <==> x.sys.daemon.Up?)
              && (error.None? ==> Mirrors(x, conn, stream, [], None, open))
    {
      error := Flush(conn, stream, pending, fault);
    }

    /** The dispatch on the kind of message. */
    method Handle(m: Message, item: Item, pending: seq<Sealed>, oldest: Option<int>, open: Option<seq<Op>>,
                  ghost conn: Connection, ghost stream: Stream, ghost w: Run, ghost count: nat)
      returns (error: Option<Error>, pending': seq<Sealed>, oldest': Option<int>, open': Option<seq<Op>>)
      requires Valid() && Mirrors(w, conn, stream, pending, oldest, open)
      modifies this`relations, this`viewRelIds
      ensures var x := Sees(p, w, m, item.sealedAt, count);
              && x.sys.db == w.sys.db
              && (error.None? <==> x.sys.daemon.Up?)
              && (error.None? ==> Mirrors(x, conn, stream, pending', oldest', open'))
      ensures m.RelationMsg? ==> error == RowMessages.OnRelation(p.c.views, w.rels, m.rel).1
      ensures IsRowMessage(m) && open.None? ==> error == Some(ProtocolError)
      ensures IsRowMessage(m) && open.Some? ==>
                var ops := RowMessages.RowOps(p.c.views, p.convert, w.rels.known, m);
                error == if ops.Err? then Some(ops.error) else None
    {
      error, pending', oldest', open' := None, pending, oldest, open;
      if m.Begin? {
        open' := Some([]);
      } else if m.Commit? {
        var ops := if open.Some? then open.value else [];
        open' := None;
        if m.endLsn > checkpoint {
          pending' := pending + [Sealed(m.endLsn, ops)];
          if oldest.None? {
            oldest' := Some(item.sealedAt);
          }
        }
      } else if m.RelationMsg? {
        error := OnRelation(m.rel);
      } else if IsRowMessage(m) {
        if open.None? {
          error := Some(ProtocolError);
        } else {
          var ops := RowOps(m);
          if ops.Err? {
            error := Some(ops.error);
          } else {
            open' := Some(open.value + ops.value);
          }
        }
      }
    }

    /** One turn: an item of the stream, or a wake. */
    method OnItem(conn: Connection, stream: Stream, item: Item, pending: seq<Sealed>, oldest: Option<int>,
                  open: Option<seq<Op>>, ghost w: Run, ghost count: nat)
      returns (error: Option<Error>, pending': seq<Sealed>, oldest': Option<int>, open': Option<seq<Op>>)
      requires Valid() && Mirrors(w, conn, stream, pending, oldest, open)
      requires oldest.None? ==> pending == []
      modifies this, conn, stream
      ensures var x := Turn(p, w, item, count);
              && conn.db == x.sys.db
              && (error.None? <==> x.sys.daemon.Up?)
              && (error.None? ==> Mirrors(x, conn, stream, pending', oldest', open'))
      ensures item.payload.Data? && Decode(item.payload.bytes).Err? ==>
                error == Some(Decode(item.payload.bytes).error)
    {
      error, pending', oldest', open' := None, pending, oldest, open;
      if item.payload.Broken? {
        error := Some(DatabaseError);
      } else if item.payload.Wake? {
        if pending != [] {
          error := FlushPending(conn, stream, pending, oldest, open, item.fault, w);
          pending', oldest' := [], None;
        }
      } else {
        var m := R.DecodeMessage(item.payload.bytes);
        if m.Err? {
          error := Some(m.error);
          return;
        }
        error, pending', oldest', open' := Handle(m.value, item, pending, oldest, open, conn, stream, w, count);
        if error.Some? {
          return;
        }
        ghost var x := Sees(p, w, m.value, item.sealedAt, count);
        if pending' != [] && (|pending'| >= p.maxTxns || item.checkedAt - oldest'.value >= p.maxMs) {
          error := FlushPending(conn, stream, pending', oldest', open', item.fault, x);
          pending', oldest' := [], None;
        }
      }
    }

    /** _loop over the items that the stream yields, whatever they are and whatever fails. */
    method Loop(conn: Connection, stream: Stream, items: seq<Item>, last: Fault, ghost w: Run, ghost env: seq<Env>)
      returns (error: Option<Error>)
      requires Valid() && Mirrors(w, conn, stream, [], None, None) && LoopHead(p, w) && Fed(p, w, items, env)
      modifies this, conn, stream
      ensures var x := Runs.Loop(p, w, items, env, last);
              && conn.db == x.sys.db
              && (error.None? <==> x.sys.daemon.Up?)
              && (error.None? ==> checkpoint == x.sys.daemon.checkpoint && stream.flushLsn == x.sys.daemon.flushLsn)
    {
      var pending: seq<Sealed>, oldest: Option<int>, open: Option<seq<Op>> := [], None, None;
      ghost var run := w;
      var i := 0;
      while i < |items| && !items[i].stop
        invariant 0 <= i <= |items| && |env| == |items|
        invariant Mirrors(run, conn, stream, pending, oldest, open)
        invariant LoopHead(p, run) && Fed(p, run, items[i..], env[i..])
        invariant Turns(p, run, items[i..], env[i..]) == Turns(p, w, items, env)
      {
        ghost var t := run.(sys := env[i].sys);
        TurnHead(p, run, items, env, i);
        error, pending, oldest, open := OnItem(conn, stream, items[i], pending, oldest, open, t, env[i].count);
        run := Turn(p, t, items[i], env[i].count);
        TurnKeepsHead(p, t, items[i], env[i].count);
        if error.Some? {
          return;
        }
        i := i + 1;
      }
      error := None;
      if pending != [] {
        error := FlushPending(conn, stream, pending, oldest, open, last, run);
      }
    }
  }

  /** What others did before the next item leaves the loop head, and the rest is fed as before. */
  lemma TurnHead(p: Params, w: Run, items: seq<Item>, env: seq<Env>, i: nat)
    requires p.Valid() && |env| == |items| && i < |items| && !items[i].stop
    requires LoopHead(p, w) && Fed(p, w, items[i..], env[i..])
    ensures var t := w.(sys := env[i].sys);
            && SameView(w.sys, t.sys) && LoopHead(p, t)
            && var x := Turn(p, t, items[i], env[i].count);
            && Fed(p, x, items[i + 1..], env[i + 1..])
            && Turns(p, w, items[i..], env[i..]) == Turns(p, x, items[i + 1..], env[i + 1..])
  {
    assert items[i..][0] == items[i] && items[i..][1..] == items[i + 1..];
    assert env[i..][0] == env[i] && env[i..][1..] == env[i + 1..];
    LeadsFrom(p.c, w.sys);
    ElsewhereKeeps(p.c, w.sys, w.sys, env[i].steps, env[i].sys);
  }
}
