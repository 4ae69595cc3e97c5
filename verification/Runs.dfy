/**
  The daemon loop as a function of what it is fed: items of the stream with clock readings and
  faults, and steps that the rest of the system takes in between.  The results: each turn is made
  of steps of the machine, and every loop head has the promised shape.
*/
module Runs {
  import opened Prelude
  import opened Protocol
  import opened Views
  import opened Aggregates
  import opened Flushes
  import opened ViewResults
  import opened RowMessages
  import opened Machine
  import opened Safety
  import opened Theorems

  /** Configuration of a daemon process, and its decoders; clock readings are milliseconds. */
  datatype Params = Params(c: Config, maxTxns: nat, maxMs: nat, convert: Convert, decode: Bytes -> Result<Message>) {
    ghost predicate Valid() { c.Valid() && maxTxns >= 1 && maxMs >= 1 }
  }

  datatype Payload = Wake | Data(bytes: Bytes) | Broken

  /** Where the flush of this turn, if there is one, is interrupted. */
  datatype Fault =
    | NoFault
    | BeforeCommit(statement: nat)  // that command, or else the commit, raises; nothing is durable
    | CommitLost                    // durable, but commit raises
    | AckLost                       // durable, but the feedback cannot be sent

  /** One item of the stream, the clock as read while it is handled, and whether a stop was asked. */
  datatype Item = Item(stop: bool, payload: Payload, sealedAt: int, checkedAt: int, fault: Fault)

  /** The system, the daemon's relations, and when the oldest pending transaction was sealed. */
  datatype Run = Run(sys: Sys, rels: Relations, oldest: Option<int>)

  /** What others do before an item: their steps, the state after them, and how many source
      changes a row message of the item stands for. */
  datatype Env = Env(steps: seq<Step>, sys: Sys, count: nat)

  predicate Ready(w: Run) { w.sys.daemon.Up? && w.sys.daemon.phase.Idle? }

  function Halted(w: Run): Run { w.(sys := w.sys.(daemon := Down)) }

  // ---- a flush ----------------------------------------------------------------------

  datatype Outcome =
    | Refused(error: Error)     // a row is not usable; no command was run
    | RolledBack
    | Interrupted(db: Db)       // durable, then an exception
    | Done(db: Db)

  function FlushOutcome(c: Config, db: Db, pending: seq<Sealed>, fault: Fault): Outcome
    requires c.Valid() && pending != []
  {
    var (b, error) := ApplyOps(c.sem, c.views, EmptyBatch(c.views), PendingOps(pending));
    if error.Some? then Refused(error.value)
    else
      match ExecAll(c.sem, db, FlushCommands(c.views, b, LastLsn(pending)))
      case None => RolledBack
      case Some(after) =>
        if fault.BeforeCommit? then RolledBack
        else if fault.NoFault? then Done(after)
        else Interrupted(after)
  }

  function Installed(s: Sys, after: Db): Sys
    requires s.daemon.Up?
  {
    Committed(s.(daemon := s.daemon.(phase := Executing(after, []))))
  }

  function Flushed(c: Config, w: Run, fault: Fault): Run
    requires c.Valid() && Ready(w) && w.sys.daemon.pending != []
  {
    match FlushOutcome(c, w.sys.db, w.sys.daemon.pending, fault)
    case Refused(_) => Halted(w)
    case RolledBack => Halted(w)
    case Interrupted(db) => Halted(w.(sys := Installed(w.sys, db)))
    case Done(db) => Run(Acknowledged(Installed(w.sys, db)), w.rels, None)
  }

  /** The state after BeginFlush, when every row is usable. */
  function Begun(c: Config, w: Run): Sys
    requires c.Valid() && Ready(w) && w.sys.daemon.pending != []
  {
    FlushBegun(c, w.sys)
  }

  lemma BeginIsStep(c: Config, w: Run)
    requires c.Valid() && Ready(w) && w.sys.daemon.pending != []
    ensures Leads(c, w.sys, Begun(c, w))
  {
    LeadsFrom(c, w.sys);
    LeadsOn(c, w.sys, w.sys, BeginFlush);
  }

  /** A flush that becomes durable does so by machine steps. */
  lemma DurableIsSteps(c: Config, w: Run, db: Db, fault: Fault)
    requires c.Valid() && Ready(w) && w.sys.daemon.pending != []
    requires var o := FlushOutcome(c, w.sys.db, w.sys.daemon.pending, fault); o == Interrupted(db) || o == Done(db)
    ensures Leads(c, w.sys, Installed(w.sys, db))
  {
    BeginIsStep(c, w);
    var durable := ReachesDurable(c, w.sys, Begun(c, w), db);
  }

  lemma AckIsSteps(c: Config, s0: Sys, s: Sys)
    requires c.Valid() && Leads(c, s0, s) && s.daemon.Up? && s.daemon.phase.Durable? && s.daemon.pending != []
             && s.slot.Some?
    ensures Leads(c, s0, Acknowledged(s))
  {
    LeadsOn(c, s0, s, CommitReturns);
    var returned := Next(c, s, CommitReturns);
    LeadsOn(c, s0, returned, Acknowledge);
  }

  lemma InterruptedIsSteps(c: Config, w: Run, fault: Fault, db: Db)
    requires c.Valid() && Ready(w) && w.sys.daemon.pending != []
    requires FlushOutcome(c, w.sys.db, w.sys.daemon.pending, fault) == Interrupted(db)
    ensures Leads(c, w.sys, Flushed(c, w, fault).sys)
  {
    DurableIsSteps(c, w, db, fault);
    LeadsOn(c, w.sys, Installed(w.sys, db), Crash);
  }

  lemma DoneIsSteps(c: Config, w: Run, fault: Fault, db: Db)
    requires c.Valid() && Ready(w) && w.sys.daemon.pending != [] && w.sys.slot.Some?
    requires FlushOutcome(c, w.sys.db, w.sys.daemon.pending, fault) == Done(db)
    ensures Leads(c, w.sys, Flushed(c, w, fault).sys)
  {
    DurableIsSteps(c, w, db, fault);
    AckIsSteps(c, w.sys, Installed(w.sys, db));
  }

  /** A flush is a sequence of machine steps, however it ends. */
  lemma FlushIsSteps(c: Config, w: Run, fault: Fault)
    requires c.Valid() && Ready(w) && w.sys.daemon.pending != [] && w.sys.slot.Some?
    ensures Leads(c, w.sys, Flushed(c, w, fault).sys)
  {
    match FlushOutcome(c, w.sys.db, w.sys.daemon.pending, fault)
    case Refused(_) => BeginIsStep(c, w);
    case RolledBack =>
      LeadsFrom(c, w.sys);
      LeadsOn(c, w.sys, w.sys, Crash);
    case Interrupted(db) => InterruptedIsSteps(c, w, fault, db);
    case Done(db) => DoneIsSteps(c, w, fault, db);
  }

  lemma ReachesDurable(c: Config, s: Sys, begun: Sys, db: Db) returns (durable: Sys)
    requires c.Valid() && Leads(c, s, begun) && InTransaction(begun)
    requires ExecAll(c.sem, begun.daemon.phase.work, begun.daemon.phase.todo) == Some(db)
    ensures Leads(c, s, durable)
    ensures durable == Committed(begun.(daemon := begun.daemon.(phase := Executing(db, []))))
  {
    var executed := ExecuteAll(c, s, begun);
    LeadsOn(c, s, executed, CommitDurable);
    durable := Next(c, executed, CommitDurable);
  }

  /** A row that is not usable halts the daemon with target and checkpoint as they were; a flush
      that can run its commands is refused for no other reason. */
  lemma UnusableRowHalts(c: Config, w: Run, fault: Fault)
    requires c.Valid() && Ready(w) && w.sys.daemon.pending != []
    ensures FlushOutcome(c, w.sys.db, w.sys.daemon.pending, fault).Refused? <==>
            exists op :: op in PendingOps(w.sys.daemon.pending) && !OpUsable(c.sem, c.views, op)
    ensures FlushOutcome(c, w.sys.db, w.sys.daemon.pending, fault).Refused? ==>
              Flushed(c, w, fault) == w.(sys := w.sys.(daemon := Down))
  {
    OpsAcceptedIff(c.sem, c.views, EmptyBatch(c.views), PendingOps(w.sys.daemon.pending));
  }

  /** In particular an unchanged-TOAST marker that survives in a column its view needs. */
  lemma SurvivingMarkerHalts(c: Config, w: Run, fault: Fault, op: Op, v: ViewSpec, row: Row, column: Text)
    requires c.Valid() && Ready(w) && w.sys.daemon.pending != []
    requires op in PendingOps(w.sys.daemon.pending) && v in c.views && v.name == op.view
    requires match op.event
             case Insert(r) => row == r
             case Delete(r) => row == r
             case Update(before, after) => row == before || row == after
             case Truncate => false
    requires column in NeededColumns(v) && column in row && row[column] == Unchanged
    ensures Flushed(c, w, fault) == w.(sys := w.sys.(daemon := Down))
  {
    UnusableRowHalts(c, w, fault);
    var i :| 0 <= i < |NeededColumns(v)| && NeededColumns(v)[i] == column;
    assert !Usable(c.sem, v, row);
    forall u | u in c.views && u.name == op.view ensures u == v {
      NameFindsView(c.views, u);
      NameFindsView(c.views, v);
    }
    assert !OpUsable(c.sem, c.views, op);
  }

  // ---- one turn of the loop ------------------------------------------------------------

  /** One decoded message. */
  function Sees(p: Params, w: Run, m: Message, sealedAt: int, count: nat): (x: Run)
    requires Ready(w)
    ensures x.sys.daemon.Down? || Ready(x)
  {
    var d := w.sys.daemon;
    match m
    case Begin(_, _, _) => w.(sys := w.sys.(daemon := DaemonSeesBegin(d)))
    case Commit(_, _, endLsn, _) =>
      var after := DaemonSeesCommit(d, endLsn);
      Run(w.sys.(daemon := after), w.rels,
          if w.oldest.None? && |after.pending| > |d.pending| then Some(sealedAt) else w.oldest)
    case RelationMsg(rel) =>
      var (rels, error) := OnRelation(p.c.views, w.rels, rel);
      if error.Some? then Halted(w) else w.(rels := rels)
    case Origin(_, _) => w
    case TypeInfo(_, _, _) => w
    case _ =>
      if d.open.None? then Halted(w)
      else
        match RowOps(p.c.views, p.convert, w.rels.known, m)
        case Err(_) => Halted(w)
        case Ok(ops) => w.(sys := w.sys.(daemon := DaemonSeesRows(d, count, ops)))
  }

  /** The flush triggers: enough transactions, or the oldest has waited long enough. */
  predicate Due(p: Params, pending: seq<Sealed>, oldest: Option<int>, now: int) {
    pending != [] && (|pending| >= p.maxTxns || (oldest.Some? && now - oldest.value >= p.maxMs))
  }

  function Turn(p: Params, w: Run, item: Item, count: nat): (x: Run)
    requires p.Valid() && Ready(w)
    ensures x.sys.daemon.Down? || Ready(x)
  {
    match item.payload
    case Broken => Halted(w)
    case Wake => if w.sys.daemon.pending == [] then w else Flushed(p.c, w, item.fault)
    case Data(bytes) =>
      match p.decode(bytes)
      case Err(_) => Halted(w)
      case Ok(m) =>
        var x := Sees(p, w, m, item.sealedAt, count);
        if x.sys.daemon.Up? && Due(p, x.sys.daemon.pending, x.oldest, item.checkedAt)
        then Flushed(p.c, x, item.fault)
        else x
  }

  /** Turns until the items end, a stop is seen, or the daemon halts. */
  function Turns(p: Params, w: Run, items: seq<Item>, env: seq<Env>): Run
    requires p.Valid() && |env| == |items|
    decreases |items|
  {
    if items == [] || items[0].stop || !Ready(w) || !Ready(w.(sys := env[0].sys)) then w
    else Turns(p, Turn(p, w.(sys := env[0].sys), items[0], env[0].count), items[1..], env[1..])
  }

  /** _loop: the turns, then a last flush of what is sealed; an open buffer is dropped. */
  function Loop(p: Params, w: Run, items: seq<Item>, env: seq<Env>, last: Fault): Run
    requires p.Valid() && |env| == |items|
  {
    var x := Turns(p, w, items, env);
    if !Ready(x) || x.sys.daemon.pending == [] then x else Flushed(p.c, x, last)
  }

  // ---- what it may be fed ------------------------------------------------------------------

  /** Steps of others: source commits, feedback and keepalives, and changes of tables that feed no
      view, which the server does not send. */
  ghost predicate Elsewhere(c: Config, s: Sys, step: Step)
    requires c.Valid()
  {
    && Enabled(c, s, step)
    && match step
       case SourceCommit(_) => true
       case Keepalive => true
       case FeedbackArrives(_) => true
       case FeedbackLost(_) => true
       case DeliverRows(count) => OpsOfAll(c.views, RowsDelivered(s, count)) == []
       case _ => false
  }

  ghost predicate ElsewhereRun(c: Config, s: Sys, steps: seq<Step>, end: Sys)
    requires c.Valid()
    decreases |steps|
  {
    if steps == [] then s == end
    else Elsewhere(c, s, steps[0]) && ElsewhereRun(c, Next(c, s, steps[0]), steps[1..], end)
  }

  /** What a server may send next: transactions of the WAL in order, each message standing for the
      changes it carries.  Rows that the daemon refuses are not restricted. */
  ghost predicate Offers(p: Params, w: Run, payload: Payload, count: nat)
    requires Ready(w)
  {
    payload.Data? && p.decode(payload.bytes).Ok? ==>
      match p.decode(payload.bytes).value
      case Begin(_, _, _) => MayDeliverBegin(w.sys)
      case Commit(_, _, endLsn, _) => MayDeliverCommit(w.sys) && endLsn == w.sys.wal[w.sys.daemon.next].endLsn
      case RelationMsg(_) => true
      case Origin(_, _) => true
      case TypeInfo(_, _, _) => true
      case m =>
        w.sys.daemon.open.Some? && RowOps(p.c.views, p.convert, w.rels.known, m).Ok? ==>
          MayDeliverRows(w.sys, count) && Carries(p.convert, w.rels.known, m, RowsDelivered(w.sys, count))
  }

  ghost predicate Fed(p: Params, w: Run, items: seq<Item>, env: seq<Env>)
    requires p.Valid()
    decreases |items|
  {
    && |env| == |items|
    && (items != [] && !items[0].stop && Ready(w) ==>
          && ElsewhereRun(p.c, w.sys, env[0].steps, env[0].sys)
          && var t := w.(sys := env[0].sys);
          && Ready(t)
          && Offers(p, t, items[0].payload, env[0].count)
          && Fed(p, Turn(p, t, items[0], env[0].count), items[1..], env[1..]))
  }

  // ---- every turn is made of machine steps ---------------------------------------------------

  /** The daemon sees nothing of the steps of others. */
  ghost predicate SameView(a: Sys, b: Sys) {
    && a.daemon.Up? && b.daemon.Up? && b.db == a.db && (a.slot.Some? ==> b.slot.Some?)
    && b.daemon == a.daemon.(next := b.daemon.next, mid := b.daemon.mid)
  }

  lemma OneElsewhere(c: Config, s: Sys, step: Step)
    requires c.Valid() && s.daemon.Up? && Elsewhere(c, s, step)
    ensures SameView(s, Next(c, s, step))
  {
    if step.DeliverRows? {
      assert s.daemon.open.value + [] == s.daemon.open.value;
    }
  }

  lemma {:induction false} ElsewhereKeeps(c: Config, s0: Sys, s: Sys, steps: seq<Step>, end: Sys)
    requires c.Valid() && s.daemon.Up? && Leads(c, s0, s) && ElsewhereRun(c, s, steps, end)
    ensures Leads(c, s0, end) && SameView(s, end)
    decreases |steps|
  {
    if steps != [] {
      OneElsewhere(c, s, steps[0]);
      LeadsOn(c, s0, s, steps[0]);
      ElsewhereKeeps(c, s0, Next(c, s, steps[0]), steps[1..], end);
    }
  }

  lemma FollowFlush(c: Config, s0: Sys, w: Run, fault: Fault)
    requires c.Valid() && Leads(c, s0, w.sys) && Ready(w) && w.sys.daemon.pending != [] && w.sys.slot.Some?
    ensures Leads(c, s0, Flushed(c, w, fault).sys)
  {
    FlushIsSteps(c, w, fault);
    LeadsCompose(c, s0, w.sys, Flushed(c, w, fault).sys);
  }

  lemma LeadsCompose(c: Config, a: Sys, b: Sys, end: Sys)
    requires c.Valid() && Leads(c, a, b) && Leads(c, b, end)
    ensures Leads(c, a, end)
  {
    var first :| IsRun(c, a, first, b);
    var second :| IsRun(c, b, second, end);
    RunsCompose(c, a, first, b, second, end);
  }

  lemma RowsAreStep(p: Params, s0: Sys, w: Run, m: Message, count: nat)
    requires p.Valid() && Ready(w) && Leads(p.c, s0, w.sys) && IsRowMessage(m)
    requires w.sys.daemon.open.Some? && RowOps(p.c.views, p.convert, w.rels.known, m).Ok?
    requires MayDeliverRows(w.sys, count) && Carries(p.convert, w.rels.known, m, RowsDelivered(w.sys, count))
    ensures Leads(p.c, s0, Sees(p, w, m, 0, count).sys)
  {
    ChangesAreReconstructed(p.c.views, p.convert, w.rels.known, m, RowsDelivered(w.sys, count));
    LeadsOn(p.c, s0, w.sys, DeliverRows(count));
  }

  lemma SeesIsStep(p: Params, s0: Sys, w: Run, bytes: Bytes, sealedAt: int, count: nat)
    requires p.Valid() && Ready(w) && Leads(p.c, s0, w.sys)
    requires p.decode(bytes).Ok? && Offers(p, w, Data(bytes), count)
    ensures Leads(p.c, s0, Sees(p, w, p.decode(bytes).value, sealedAt, count).sys)
  {
    var m := p.decode(bytes).value;
    LeadsOn(p.c, s0, w.sys, Crash);
    if m.Begin? {
      LeadsOn(p.c, s0, w.sys, DeliverBegin);
    } else if m.Commit? {
      LeadsOn(p.c, s0, w.sys, DeliverCommit);
    } else if IsRowMessage(m) && w.sys.daemon.open.Some? && RowOps(p.c.views, p.convert, w.rels.known, m).Ok? {
      RowsAreStep(p, s0, w, m, count);
    }
  }

  lemma TurnIsSteps(p: Params, s0: Sys, w: Run, item: Item, count: nat)
    requires p.Valid() && Ready(w) && Leads(p.c, s0, w.sys) && w.sys.slot.Some?
    requires Offers(p, w, item.payload, count)
    ensures Leads(p.c, s0, Turn(p, w, item, count).sys)
  {
    match item.payload
    case Broken => LeadsOn(p.c, s0, w.sys, Crash);
    case Wake =>
      if w.sys.daemon.pending != [] {
        FollowFlush(p.c, s0, w, item.fault);
      }
    case Data(bytes) =>
      LeadsOn(p.c, s0, w.sys, Crash);
      if p.decode(bytes).Ok? {
        SeesIsStep(p, s0, w, bytes, item.sealedAt, count);
        var x := Sees(p, w, p.decode(bytes).value, item.sealedAt, count);
        if x.sys.daemon.Up? && Due(p, x.sys.daemon.pending, x.oldest, item.checkedAt) {
          FollowFlush(p.c, s0, x, item.fault);
        }
      }
  }

  // ---- the loop head ------------------------------------------------------------------------------

  ghost predicate LoopHead(p: Params, w: Run) {
    && Ready(w) && w.sys.slot.Some? && HasCheckpoint(w.sys.db)
    && |w.sys.daemon.pending| < p.maxTxns
    && (w.oldest.None? <==> w.sys.daemon.pending == [])
    && Resolved(p.c.views, w.rels)
  }

  lemma {:induction false} FlushSetsCheckpoint(sem: Semantics, db: Db, cmds: seq<Command>, lsn: nat)
    requires ExecAll(sem, db, cmds + [SetCheckpoint(lsn)]).Some?
    ensures var after := ExecAll(sem, db, cmds + [SetCheckpoint(lsn)]).value;
            HasCheckpoint(after) && after.checkpoint == Some(lsn)
    decreases |cmds|
  {
    var all := cmds + [SetCheckpoint(lsn)];
    if cmds == [] {
      assert all[1..] == [];
    } else {
      assert all[0] == cmds[0] && all[1..] == cmds[1..] + [SetCheckpoint(lsn)];
      FlushSetsCheckpoint(sem, Exec(sem, db, cmds[0]).value, cmds[1..], lsn);
    }
  }

  lemma FlushKeepsCheckpoint(p: Params, w: Run, fault: Fault)
    requires p.Valid() && Ready(w) && w.sys.daemon.pending != [] && HasCheckpoint(w.sys.db)
    ensures match FlushOutcome(p.c, w.sys.db, w.sys.daemon.pending, fault)
            case Interrupted(db) => HasCheckpoint(db)
            case Done(db) => HasCheckpoint(db)
            case _ => true
  {
    var pending := w.sys.daemon.pending;
    var (b, error) := ApplyOps(p.c.sem, p.c.views, EmptyBatch(p.c.views), PendingOps(pending));
    if error.None? && ExecAll(p.c.sem, w.sys.db, FlushCommands(p.c.views, b, LastLsn(pending))).Some? {
      FlushSetsCheckpoint(p.c.sem, w.sys.db, Statements(p.c.views, b), LastLsn(pending));
    }
  }

  /** What a flush leaves, outcome by outcome. */
  lemma FlushedIs(c: Config, w: Run, fault: Fault)
    requires c.Valid() && Ready(w) && w.sys.daemon.pending != []
    ensures match FlushOutcome(c, w.sys.db, w.sys.daemon.pending, fault)
            case Interrupted(db) => Flushed(c, w, fault) == Halted(w.(sys := Installed(w.sys, db)))
            case Done(db) => Flushed(c, w, fault) == Run(Acknowledged(Installed(w.sys, db)), w.rels, None)
            case _ => Flushed(c, w, fault) == Halted(w)
  {
  }

  lemma FlushKeepsHead(p: Params, w: Run, fault: Fault)
    requires p.Valid() && Ready(w) && w.sys.slot.Some? && w.sys.daemon.pending != [] && Resolved(p.c.views, w.rels)
    requires HasCheckpoint(w.sys.db)
    ensures Flushed(p.c, w, fault).sys.daemon.Down? || LoopHead(p, Flushed(p.c, w, fault))
    ensures HasCheckpoint(Flushed(p.c, w, fault).sys.db)
  {
    FlushKeepsCheckpoint(p, w, fault);
    FlushedIs(p.c, w, fault);
    var outcome := FlushOutcome(p.c, w.sys.db, w.sys.daemon.pending, fault);
    if outcome.Done? {
      DoneIsHead(p, w, outcome.db);
    }
  }

  lemma DoneIsHead(p: Params, w: Run, db: Db)
    requires p.Valid() && Ready(w) && w.sys.slot.Some? && w.sys.daemon.pending != [] && Resolved(p.c.views, w.rels)
    requires HasCheckpoint(db)
    ensures var x := Run(Acknowledged(Installed(w.sys, db)), w.rels, None); LoopHead(p, x) && x.sys.db == db
  {
  }

  lemma SeesKeepsHead(p: Params, w: Run, m: Message, sealedAt: int, count: nat)
    requires p.Valid() && LoopHead(p, w)
    ensures Sees(p, w, m, sealedAt, count).sys.db == w.sys.db
    ensures var x := Sees(p, w, m, sealedAt, count);
            x.sys.daemon.Down? ||
            (&& x.sys.slot.Some? && HasCheckpoint(x.sys.db)
             && (x.oldest.None? <==> x.sys.daemon.pending == [])
             && Resolved(p.c.views, x.rels))
  {
    if m.RelationMsg? && OnRelation(p.c.views, w.rels, m.rel).1 == None {
      OneRelationKeeps(p.c.views, w.rels, m.rel);
    }
  }

  lemma TurnKeepsHead(p: Params, w: Run, item: Item, count: nat)
    requires p.Valid() && LoopHead(p, w)
    ensures Turn(p, w, item, count).sys.daemon.Down? || LoopHead(p, Turn(p, w, item, count))
    ensures HasCheckpoint(Turn(p, w, item, count).sys.db)
  {
    match item.payload
    case Broken =>
    case Wake =>
      if w.sys.daemon.pending != [] {
        FlushKeepsHead(p, w, item.fault);
      }
    case Data(bytes) =>
      if p.decode(bytes).Ok? {
        var m := p.decode(bytes).value;
        SeesKeepsHead(p, w, m, item.sealedAt, count);
        var x := Sees(p, w, m, item.sealedAt, count);
        if x.sys.daemon.Up? && Due(p, x.sys.daemon.pending, x.oldest, item.checkedAt) {
          FlushKeepsHead(p, x, item.fault);
        }
      }
  }

  /** However it is fed and whatever fails, the loop only takes steps of the machine, and at every
      head fewer than maxTxns transactions are pending, `oldest` is None exactly when none is, and
      every relation id that fed a view still does. */
  lemma {:induction false} LoopTakesMachineSteps(p: Params, s0: Sys, w: Run, items: seq<Item>, env: seq<Env>)
    requires p.Valid() && Leads(p.c, s0, w.sys) && LoopHead(p, w) && Fed(p, w, items, env)
    ensures var x := Turns(p, w, items, env);
            Leads(p.c, s0, x.sys) && (x.sys.daemon.Down? || LoopHead(p, x)) && HasCheckpoint(x.sys.db)
    decreases |items|
  {
    if items != [] && !items[0].stop {
      var t := w.(sys := env[0].sys);
      ElsewhereKeeps(p.c, s0, w.sys, env[0].steps, env[0].sys);
      TurnIsSteps(p, s0, t, items[0], env[0].count);
      TurnKeepsHead(p, t, items[0], env[0].count);
      var x := Turn(p, t, items[0], env[0].count);
      if x.sys.daemon.Up? {
        LoopTakesMachineSteps(p, s0, x, items[1..], env[1..]);
      }
    }
  }

  lemma SealsAscend(c: Config, wal: seq<Txn>, top: nat, a: nat, n: nat, lsn: nat)
    requires Ordered(wal, top) && Splits(wal, a, lsn) && a <= n <= |wal|
    ensures var seals := SealsOf(c, wal[a..n]);
            && (forall i, j :: 0 <= i < j < |seals| ==> seals[i].endLsn < seals[j].endLsn)
            && (forall i :: 0 <= i < |seals| ==> lsn < seals[i].endLsn)
  {
  }

  /** In a reachable system a loop head is exact: `pending` is the run of whole transactions right
      after the durable checkpoint, in strictly increasing order, and the checkpoint in memory is
      the durable one. */
  lemma LoopHeadIsExact(p: Params, w: Run)
    requires p.Valid() && Reachable(p.c, w.sys) && LoopHead(p, w)
    ensures var s := w.sys;
            && s.daemon.checkpoint == s.db.checkpoint.value
            && Splits(s.wal, s.applied, s.daemon.checkpoint)
            && Max(s.applied, s.daemon.next) <= |s.wal|
            && s.daemon.pending == SealsOf(p.c, s.wal[s.applied..Max(s.applied, s.daemon.next)])
    ensures var pending := w.sys.daemon.pending;
            && (forall i, j :: 0 <= i < j < |pending| ==> pending[i].endLsn < pending[j].endLsn)
            && (forall i :: 0 <= i < |pending| ==> w.sys.daemon.checkpoint < pending[i].endLsn)
  {
    var s := w.sys;
    ReachableIsSafe(p.c, s);
    SealsAscend(p.c, s.wal, s.top, s.applied, Max(s.applied, s.daemon.next), s.daemon.checkpoint);
  }

  /** A stop without error leaves nothing pending; in every case the system stays reachable. */
  lemma LoopStaysReachable(p: Params, w: Run, items: seq<Item>, env: seq<Env>, last: Fault)
    requires p.Valid() && Reachable(p.c, w.sys) && LoopHead(p, w) && Fed(p, w, items, env)
    ensures var x := Loop(p, w, items, env, last);
            && Reachable(p.c, x.sys) && HasCheckpoint(x.sys.db)
            && (x.sys.daemon.Up? ==> x.sys.daemon.pending == [] && LoopHead(p, x))
  {
    LoopTakesMachineSteps(p, INITIAL, w, items, env);
    var x := Turns(p, w, items, env);
    if Ready(x) && x.sys.daemon.pending != [] {
      FollowFlush(p.c, INITIAL, x, last);
      FlushKeepsHead(p, x, last);
    }
  }

  ghost predicate Exact(c: Config, s: Sys)
    requires HasCheckpoint(s.db)
  {
    && Splits(s.wal, s.applied, s.db.checkpoint.value)
    && Holds(c.views, c.sem, s.db.tables, AllChanges(s.wal[..s.applied]))
  }

  lemma ReachableIsExact(c: Config, s: Sys)
    requires c.Valid() && Reachable(c, s) && HasCheckpoint(s.db)
    ensures Exact(c, s)
  {
    ReachableIsSafe(c, s);
  }

  /** The whole loop, from any reachable start, whatever it is fed and wherever it fails: each
      target it leaves is the GROUP BY of its source after exactly the transactions up to the
      checkpoint it leaves. */
  lemma LoopLeavesExactTargets(p: Params, w: Run, items: seq<Item>, env: seq<Env>, last: Fault)
    requires p.Valid() && Reachable(p.c, w.sys) && LoopHead(p, w) && Fed(p, w, items, env)
    ensures HasCheckpoint(Loop(p, w, items, env, last).sys.db)
    ensures Exact(p.c, Loop(p, w, items, env, last).sys)
  {
    LoopStaysReachable(p, w, items, env, last);
    ReachableIsExact(p.c, Loop(p, w, items, env, last).sys);
  }

  /** A daemon that has just started is at a loop head. */
  lemma StartIsLoopHead(p: Params, s: Sys, from: nat)
    requires p.Valid() && Reachable(p.c, s) && MayStart(s, from)
    ensures Reachable(p.c, Started(s, from))
    ensures LoopHead(p, Run(Started(s, from), NO_RELATIONS, None))
  {
    LeadsOn(p.c, INITIAL, s, Start(from));
  }
}
