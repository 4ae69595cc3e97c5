/**
  That the loop goes on and arrives: told from the items alone, when it halts, when it flushes, and
  what it has applied when it stops.
*/
module Progress {
  import opened Prelude
  import opened Protocol
  import opened Views
  import opened Aggregates
  import opened Flushes
  import opened ViewResults
  import opened RowMessages
  import opened Machine
  import opened Safety
  import opened Theorems
  import opened Runs

  // ---- items, told without the daemon -----------------------------------------------------

  /** What a reader of the items knows: relations sent, ids that fed a view, whether a Begin is open. */
  datatype Scan = Scan(known: map<nat, Relation>, fed: set<nat>, open: bool)

  /** A message that a daemon can take: relations suffice for the views over their table and do not move
      one away from its views; rows come inside Begin..Commit, on a known relation, complete. */
  ghost predicate MessageOk(views: seq<ViewSpec>, convert: Convert, scan: Scan, m: Message) {
    if m.RelationMsg? then
      && (forall v :: v in views && Over(v, m.rel) ==> Suffices(m.rel, v))
      && (Feeds(views, m.rel) || m.rel.relId !in scan.fed)
    else if m.TruncateMsg? then scan.open
    else if IsRowMessage(m) then
      && scan.open && m.relId in scan.known
      && (Feeds(views, scan.known[m.relId]) ==> Complete(convert, scan.known[m.relId], m))
    else true
  }

  ghost function ScanMessage(views: seq<ViewSpec>, scan: Scan, m: Message): Scan {
    match m
    case Begin(_, _, _) => scan.(open := true)
    case Commit(_, _, _, _) => scan.(open := false)
    case RelationMsg(rel) =>
      scan.(known := scan.known[rel.relId := rel],
            fed := if Feeds(views, rel) then scan.fed + {rel.relId} else scan.fed)
    case _ => scan
  }

  predicate Carried(p: Params, item: Item) { item.payload.Data? && p.decode(item.payload.bytes).Ok? }

  function MessageOf(p: Params, item: Item): Message
    requires Carried(p, item)
  {
    p.decode(item.payload.bytes).value
  }

  ghost predicate ItemOk(p: Params, scan: Scan, item: Item) {
    item.payload.Wake? || (Carried(p, item) && MessageOk(p.c.views, p.convert, scan, MessageOf(p, item)))
  }

  ghost function ScanItem(p: Params, scan: Scan, item: Item): Scan {
    if Carried(p, item) then ScanMessage(p.c.views, scan, MessageOf(p, item)) else scan
  }

  /** Every item up to a stop is one that a daemon can take. */
  ghost predicate AllOk(p: Params, scan: Scan, items: seq<Item>)
    decreases |items|
  {
    items == [] || items[0].stop || (ItemOk(p, scan, items[0]) && AllOk(p, ScanItem(p, scan, items[0]), items[1..]))
  }

  predicate IsCommit(p: Params, item: Item) { Carried(p, item) && MessageOf(p, item).Commit? }

  function One(b: bool): nat { if b then 1 else 0 }

  /** The Commit messages up to a stop. */
  function Commits(p: Params, items: seq<Item>): nat {
    if items == [] || items[0].stop then 0 else One(IsCommit(p, items[0])) + Commits(p, items[1..])
  }

  predicate NoFaults(items: seq<Item>) { forall i :: 0 <= i < |items| ==> items[i].fault.NoFault? }

  ghost predicate Matches(scan: Scan, w: Run) {
    && w.sys.daemon.Up?
    && w.rels == Relations(scan.known, scan.fed) && (scan.open <==> w.sys.daemon.open.Some?)
  }

  // ---- what is usable -----------------------------------------------------------------------

  ghost predicate TxnUsable(c: Config, txn: Txn) { ChangesUsable(c.sem, c.views, txn.changes) }

  /** Every change of transactions a to b of the WAL is usable by the views over its table. */
  ghost predicate AllUsable(c: Config, wal: seq<Txn>, a: int, b: int) {
    forall i :: a <= i < b && 0 <= i < |wal| ==> TxnUsable(c, wal[i])
  }

  lemma UsableAppend(c: Config, a: seq<Change>, b: seq<Change>)
    ensures ChangesUsable(c.sem, c.views, a + b) <==>
            ChangesUsable(c.sem, c.views, a) && ChangesUsable(c.sem, c.views, b)
  {
    if ChangesUsable(c.sem, c.views, a + b) {
      forall v, i | v in c.views && 0 <= i < |a| && a[i].table == v.source ensures EventUsable(c.sem, v, a[i].event) {
        assert (a + b)[i] == a[i];
      }
      forall v, i | v in c.views && 0 <= i < |b| && b[i].table == v.source ensures EventUsable(c.sem, v, b[i].event) {
        assert (a + b)[|a| + i] == b[i];
      }
    }
  }

  lemma {:induction false} SegmentUsableIff(c: Config, txns: seq<Txn>)
    ensures ChangesUsable(c.sem, c.views, AllChanges(txns)) <==> AllUsable(c, txns, 0, |txns|)
  {
    if txns != [] {
      SegmentUsableIff(c, txns[1..]);
      UsableAppend(c, txns[0].changes, AllChanges(txns[1..]));
      if AllUsable(c, txns, 0, |txns|) {
        assert forall i :: 0 <= i < |txns[1..]| ==> txns[1..][i] == txns[i + 1] && TxnUsable(c, txns[i + 1]);
        assert TxnUsable(c, txns[0]);
      }
      if TxnUsable(c, txns[0]) && AllUsable(c, txns[1..], 0, |txns[1..]|) {
        forall i | 0 <= i < |txns| ensures TxnUsable(c, txns[i]) {
          if i > 0 {
            assert txns[1..][i - 1] == txns[i];
          }
        }
      }
    }
  }

  lemma SliceUsableIff(c: Config, wal: seq<Txn>, a: nat, b: nat)
    requires a <= b <= |wal|
    ensures ChangesUsable(c.sem, c.views, AllChanges(wal[a..b])) <==> AllUsable(c, wal, a, b)
  {
    var txns := wal[a..b];
    SegmentUsableIff(c, txns);
    if AllUsable(c, txns, 0, |txns|) {
      forall i | a <= i < b ensures TxnUsable(c, wal[i]) {
        assert txns[i - a] == wal[i];
      }
    }
  }

  /** Each change comes to each view over its table as an operation. */
  lemma {:induction false} OpOfView(views: seq<ViewSpec>, change: Change, v: ViewSpec)
    requires v in views && v.source == change.table
    ensures Op(v.name, change.event) in OpsOf(views, change)
  {
    if views[0] != v {
      OpOfView(views[1..], change, v);
    }
  }

  lemma {:induction false} OpOfChange(views: seq<ViewSpec>, changes: seq<Change>, i: nat, v: ViewSpec)
    requires i < |changes| && v in views && v.source == changes[i].table
    ensures Op(v.name, changes[i].event) in OpsOfAll(views, changes)
    decreases i
  {
    if i == 0 {
      OpOfView(views, changes[0], v);
    } else {
      OpOfChange(views, changes[1..], i - 1, v);
    }
  }

  /** A batch takes the operations of changes if and only if every change is usable. */
  lemma ChangesAcceptedIff(sem: Semantics, views: seq<ViewSpec>, changes: seq<Change>)
    requires DistinctNames(views)
    ensures ApplyOps(sem, views, EmptyBatch(views), OpsOfAll(views, changes)).1 == None <==>
            ChangesUsable(sem, views, changes)
  {
    OpsAcceptedIff(sem, views, EmptyBatch(views), OpsOfAll(views, changes));
    if ChangesUsable(sem, views, changes) {
      ChangesAccepted(sem, views, changes);
    } else {
      var v, i :| v in views && 0 <= i < |changes| && changes[i].table == v.source
                  && !EventUsable(sem, v, changes[i].event);
      var op := Op(v.name, changes[i].event);
      OpOfChange(views, changes, i, v);
      forall u | u in views && u.name == op.view ensures u == v {
        NameFindsView(views, u);
        NameFindsView(views, v);
      }
      assert !OpUsable(sem, views, op);
    }
  }

  // ---- a flush --------------------------------------------------------------------------------

  lemma PendingRun(p: Params, w: Run)
    requires p.Valid() && Reachable(p.c, w.sys) && Ready(w) && HasCheckpoint(w.sys.db)
    ensures var s := w.sys;
            && Max(s.applied, s.daemon.next) <= |s.wal|
            && s.daemon.pending == SealsOf(p.c, s.wal[s.applied..Max(s.applied, s.daemon.next)])
            && s.daemon.checkpoint == s.db.checkpoint.value
  {
    ReachableIsSafe(p.c, w.sys);
  }

  lemma WorkRuns(c: Config, s: Sys)
    requires DaemonOk(c, s) && TargetsOk(c, s) && InTransaction(s) && HasCheckpoint(s.db)
    ensures ExecAll(c.sem, s.daemon.phase.work, s.daemon.phase.todo).Some?
  {
  }

  lemma BegunKeeps(c: Config, s: Sys)
    requires c.Valid() && Inv(c, s) && MayFlush(s)
    ensures Inv(c, FlushBegun(c, s))
  {
    NextBegins(c, s);
    BeginFlushKeeps(c, s);
  }

  lemma NextBegins(c: Config, s: Sys)
    requires c.Valid() && MayFlush(s)
    ensures Next(c, s, BeginFlush) == FlushBegun(c, s)
  {
  }

  lemma BegunShape(c: Config, s: Sys)
    requires c.Valid() && MayFlush(s) && FlushBegun(c, s).daemon.Up?
    ensures InTransaction(FlushBegun(c, s)) && FlushBegun(c, s).db == s.db
  {
  }

  lemma WorkOf(c: Config, s: Sys, begun: Sys)
    requires Inv(c, begun) && InTransaction(begun) && begun.db == s.db && HasCheckpoint(s.db)
    ensures ExecAll(c.sem, begun.daemon.phase.work, begun.daemon.phase.todo).Some?
  {
    WorkRuns(c, begun);
  }

  /** The commands of an accepted batch run through. */
  lemma CommandsRun(c: Config, s: Sys)
    requires c.Valid() && Inv(c, s) && MayFlush(s) && HasCheckpoint(s.db) && FlushBegun(c, s).daemon.Up?
    ensures var begun := FlushBegun(c, s);
            InTransaction(begun) && ExecAll(c.sem, begun.daemon.phase.work, begun.daemon.phase.todo).Some?
  {
    BegunKeeps(c, s);
    BegunShape(c, s);
    WorkOf(c, s, FlushBegun(c, s));
  }

  /** The transactions that a flush at this point applies: up to this one. */
  function FlushesTo(w: Run): nat
    requires w.sys.daemon.Up?
  {
    Max(w.sys.applied, w.sys.daemon.next)
  }

  /** The batch takes every pending operation. */
  predicate Taken(c: Config, pending: seq<Sealed>)
    requires c.Valid()
  {
    ApplyOps(c.sem, c.views, EmptyBatch(c.views), PendingOps(pending)).1 == None
  }

  lemma FlushUpIfTaken(c: Config, w: Run)
    requires c.Valid() && Inv(c, w.sys) && Ready(w) && w.sys.daemon.pending != [] && HasCheckpoint(w.sys.db)
    ensures Flushed(c, w, NoFault).sys.daemon.Up? <==> Taken(c, w.sys.daemon.pending)
  {
    if Taken(c, w.sys.daemon.pending) {
      CommandsRun(c, w.sys);
    }
  }

  lemma TakenIff(c: Config, wal: seq<Txn>, a: nat, b: nat)
    requires c.Valid() && a <= b <= |wal|
    ensures Taken(c, SealsOf(c, wal[a..b])) <==> AllUsable(c, wal, a, b)
  {
    PendingOpsAre(c, wal[a..b]);
    ChangesAcceptedIff(c.sem, c.views, AllChanges(wal[a..b]));
    SliceUsableIff(c, wal, a, b);
  }

  /** Without a fault a flush completes if and only if everything pending is usable. */
  lemma FlushUpIff(p: Params, w: Run)
    requires p.Valid() && Reachable(p.c, w.sys) && Ready(w) && w.sys.daemon.pending != [] && HasCheckpoint(w.sys.db)
    ensures Flushed(p.c, w, NoFault).sys.daemon.Up? <==> AllUsable(p.c, w.sys.wal, w.sys.applied, FlushesTo(w))
  {
    PendingRun(p, w);
    ReachableIsSafe(p.c, w.sys);
    TakenIff(p.c, w.sys.wal, w.sys.applied, FlushesTo(w));
    FlushUpIfTaken(p.c, w);
  }

  /** The run goes on in the same place of the stream. */
  ghost predicate SamePlace(w: Run, x: Run) {
    && w.sys.daemon.Up? && x.sys.daemon.Up?
    && x.rels == w.rels && x.sys.wal == w.sys.wal && x.sys.boot == w.sys.boot
    && x.sys.daemon.next == w.sys.daemon.next && x.sys.daemon.mid == w.sys.daemon.mid
    && x.sys.daemon.open == w.sys.daemon.open
  }

  /** A flush that completes applies everything pending, and its position is acknowledged and on its way. */
  lemma FlushApplies(p: Params, w: Run)
    requires p.Valid() && Reachable(p.c, w.sys) && Ready(w) && w.sys.daemon.pending != [] && HasCheckpoint(w.sys.db)
    requires Flushed(p.c, w, NoFault).sys.daemon.Up?
    ensures var x := Flushed(p.c, w, NoFault);
            && SamePlace(w, x) && x.sys.applied == FlushesTo(w) > w.sys.applied
            && x.sys.daemon.flushLsn == LastLsn(w.sys.daemon.pending) && x.sys.daemon.flushLsn in x.sys.inflight
  {
    PendingRun(p, w);
  }

  lemma FlushDownKeeps(p: Params, w: Run)
    requires p.Valid() && Ready(w) && w.sys.daemon.pending != []
    ensures Flushed(p.c, w, NoFault).sys.wal == w.sys.wal
  {
  }

  // ---- one message -------------------------------------------------------------------------------

  /** A message halts the daemon if and only if it is not one that it can take; else only the daemon
      moves on, as a reader of the items does. */
  lemma SeesUpIff(p: Params, w: Run, m: Message, sealedAt: int, count: nat, scan: Scan)
    requires Ready(w) && Matches(scan, w)
    ensures var x := Sees(p, w, m, sealedAt, count);
            && (x.sys.daemon.Up? <==> MessageOk(p.c.views, p.convert, scan, m))
            && x.sys == w.sys.(daemon := x.sys.daemon)
            && (x.sys.daemon.Up? ==>
                  && Matches(ScanMessage(p.c.views, scan, m), x)
                  && x.sys.daemon.next == w.sys.daemon.next + One(m.Commit?)
                  && x.sys.daemon.mid == (if m.Begin? || m.Commit? then 0
                                          else if IsRowMessage(m) then w.sys.daemon.mid + count else w.sys.daemon.mid))
  {
    if m.RelationMsg? {
      RelationRefusedIff(p.c.views, w.rels, m.rel);
    } else if IsRowMessage(m) {
      RowRefusedIff(p.c.views, p.convert, w.rels.known, m);
    }
  }

  // ---- one turn ----------------------------------------------------------------------------------

  /** The item is a Commit past the checkpoint. */
  predicate SealsNew(p: Params, w: Run, item: Item)
    requires w.sys.daemon.Up?
  {
    IsCommit(p, item) && MessageOf(p, item).endLsn > w.sys.daemon.checkpoint
  }

  /** A turn flushes: at a wake what is pending, else when max_txns are pending or the first of them was
      sealed max_ms ago, counting what the item seals. */
  predicate FlushesNow(p: Params, w: Run, item: Item)
    requires w.sys.daemon.Up?
  {
    if item.payload.Wake? then w.sys.daemon.pending != []
    else
      var n := |w.sys.daemon.pending| + One(SealsNew(p, w, item));
      var since := if w.oldest.Some? then w.oldest.value else item.sealedAt;
      Carried(p, item) && n > 0 && (n >= p.maxTxns || item.checkedAt - since >= p.maxMs)
  }

  /** The run once the message of an item is seen. */
  function SeenRun(p: Params, w: Run, item: Item, count: nat): Run
    requires Ready(w) && Carried(p, item)
  {
    Sees(p, w, MessageOf(p, item), item.sealedAt, count)
  }

  lemma DueIff(p: Params, w: Run, item: Item, count: nat)
    requires p.Valid() && LoopHead(p, w) && Carried(p, item) && SeenRun(p, w, item, count).sys.daemon.Up?
    ensures var y := SeenRun(p, w, item, count);
            Due(p, y.sys.daemon.pending, y.oldest, item.checkedAt) <==> FlushesNow(p, w, item)
  {
  }

  /** The stream after an item. */
  function NextAfter(p: Params, w: Run, item: Item): nat
    requires w.sys.daemon.Up?
  {
    w.sys.daemon.next + One(IsCommit(p, item))
  }

  function MidAfter(p: Params, mid: nat, item: Item, count: nat): nat {
    if !Carried(p, item) then mid
    else
      var m := MessageOf(p, item);
      if m.Begin? || m.Commit? then 0 else if IsRowMessage(m) then mid + count else mid
  }

  /** How a turn that leaves the daemon up leaves the system. */
  ghost predicate Advanced(p: Params, scan: Scan, w: Run, item: Item, count: nat, x: Run)
    requires w.sys.daemon.Up?
  {
    && Matches(ScanItem(p, scan, item), x) && x.sys.wal == w.sys.wal && x.sys.boot == w.sys.boot
    && x.sys.daemon.next == NextAfter(p, w, item) && x.sys.daemon.mid == MidAfter(p, w.sys.daemon.mid, item, count)
    && x.sys.applied == (if FlushesNow(p, w, item) then Max(w.sys.applied, NextAfter(p, w, item)) else w.sys.applied)
    && (FlushesNow(p, w, item) ==> w.sys.applied < x.sys.applied)
    && AllUsable(p.c, w.sys.wal, w.sys.applied, x.sys.applied)
  }

  ghost predicate TurnsOut(p: Params, scan: Scan, w: Run, item: Item, count: nat, x: Run)
    requires w.sys.daemon.Up?
  {
    if x.sys.daemon.Up? then ItemOk(p, scan, item) && Advanced(p, scan, w, item, count, x)
    else
      && x.sys.wal == w.sys.wal
      && (!ItemOk(p, scan, item) || !AllUsable(p.c, w.sys.wal, w.sys.applied, NextAfter(p, w, item)))
  }

  lemma WakeTurnsOut(p: Params, w: Run, item: Item, count: nat, scan: Scan)
    requires p.Valid() && Reachable(p.c, w.sys) && LoopHead(p, w) && Matches(scan, w)
    requires item.payload.Wake? && item.fault.NoFault?
    ensures TurnsOut(p, scan, w, item, count, Turn(p, w, item, count))
  {
    if w.sys.daemon.pending != [] {
      FlushUpIff(p, w);
      if Flushed(p.c, w, NoFault).sys.daemon.Up? {
        FlushApplies(p, w);
      } else {
        FlushDownKeeps(p, w);
      }
    }
  }

  lemma SeenIsReachable(p: Params, w: Run, item: Item, count: nat)
    requires p.Valid() && Reachable(p.c, w.sys) && Ready(w) && Carried(p, item) && Offers(p, w, item.payload, count)
    ensures Reachable(p.c, SeenRun(p, w, item, count).sys)
  {
    SeesIsStep(p, INITIAL, w, item.payload.bytes, item.sealedAt, count);
  }

  /** The flush after a message, if there is one. */
  lemma FlushTurnsOut(p: Params, w: Run, y: Run, item: Item, count: nat, scan: Scan)
    requires p.Valid() && Reachable(p.c, y.sys) && Ready(w) && Ready(y) && HasCheckpoint(y.sys.db)
    requires y.sys.daemon.pending != [] && FlushesNow(p, w, item) && ItemOk(p, scan, item)
    requires y.sys == w.sys.(daemon := y.sys.daemon) && Matches(ScanItem(p, scan, item), y)
    requires y.sys.daemon.next == NextAfter(p, w, item)
    requires y.sys.daemon.mid == MidAfter(p, w.sys.daemon.mid, item, count)
    ensures TurnsOut(p, scan, w, item, count, Flushed(p.c, y, NoFault))
  {
    FlushUpIff(p, y);
    if Flushed(p.c, y, NoFault).sys.daemon.Up? {
      FlushApplies(p, y);
    } else {
      FlushDownKeeps(p, y);
    }
  }

  lemma DataTurnsOut(p: Params, w: Run, item: Item, count: nat, scan: Scan)
    requires p.Valid() && Reachable(p.c, w.sys) && LoopHead(p, w) && Matches(scan, w)
    requires Carried(p, item) && item.fault.NoFault? && Offers(p, w, item.payload, count)
    ensures TurnsOut(p, scan, w, item, count, Turn(p, w, item, count))
  {
    var y := SeenRun(p, w, item, count);
    SeesUpIff(p, w, MessageOf(p, item), item.sealedAt, count, scan);
    if y.sys.daemon.Up? {
      DueIff(p, w, item, count);
      if FlushesNow(p, w, item) {
        SeenIsReachable(p, w, item, count);
        FlushTurnsOut(p, w, y, item, count, scan);
      }
    }
  }

  /** A turn without a fault halts the daemon if and only if the item is not one that it can take, or it
      flushes and a pending change is not usable; else it flushes exactly when it must, and then applies
      every transaction delivered so far. */
  lemma TurnUpIff(p: Params, w: Run, item: Item, count: nat, scan: Scan)
    requires p.Valid() && Reachable(p.c, w.sys) && LoopHead(p, w) && Matches(scan, w)
    requires item.fault.NoFault? && Offers(p, w, item.payload, count)
    ensures TurnsOut(p, scan, w, item, count, Turn(p, w, item, count))
  {
    if item.payload.Wake? {
      WakeTurnsOut(p, w, item, count, scan);
    } else if Carried(p, item) {
      DataTurnsOut(p, w, item, count, scan);
    }
  }

  // ---- the whole loop ------------------------------------------------------------------------------

  /** What others do leaves the place in the stream and what is applied; the WAL may grow. */
  ghost predicate OthersLeave(s: Sys, t: Sys) {
    && s.daemon.Up? && t.daemon.Up?
    && s.wal <= t.wal && t.applied == s.applied && t.boot == s.boot
    && t.daemon.next == s.daemon.next && t.daemon.open == s.daemon.open
  }

  lemma OneLeaves(c: Config, s: Sys, step: Step)
    requires c.Valid() && s.daemon.Up? && Elsewhere(c, s, step)
    ensures OthersLeave(s, Next(c, s, step))
  {
    OneElsewhere(c, s, step);
  }

  lemma {:induction false} RunLeaves(c: Config, s: Sys, steps: seq<Step>, end: Sys)
    requires c.Valid() && s.daemon.Up? && ElsewhereRun(c, s, steps, end)
    ensures OthersLeave(s, end)
    decreases |steps|
  {
    if steps != [] {
      OneLeaves(c, s, steps[0]);
      RunLeaves(c, Next(c, s, steps[0]), steps[1..], end);
    }
  }

  /** How the turns leave the system, told from the items: while all of them can be taken and what they
      flush is usable the daemon is up, at its place in the stream. */
  ghost predicate ComesOut(p: Params, scan: Scan, w: Run, items: seq<Item>, x: Run)
    requires w.sys.daemon.Up?
  {
    && w.sys.wal <= x.sys.wal
    && var to := w.sys.daemon.next + Commits(p, items);
    if x.sys.daemon.Up? then
      && AllOk(p, scan, items) && x.sys.daemon.next == to && x.sys.boot == w.sys.boot
      && w.sys.applied <= x.sys.applied <= Max(w.sys.applied, to)
      && AllUsable(p.c, x.sys.wal, w.sys.applied, x.sys.applied)
    else
      !AllOk(p, scan, items) || !AllUsable(p.c, x.sys.wal, w.sys.applied, to)
  }

  lemma UsableStays(c: Config, wal: seq<Txn>, more: seq<Txn>, a: nat, b: nat)
    requires wal <= more && b <= |wal|
    ensures AllUsable(c, wal, a, b) <==> AllUsable(c, more, a, b)
  {
    if AllUsable(c, more, a, b) {
      forall i | a <= i < b ensures TxnUsable(c, wal[i]) {
        assert more[i] == wal[i];
      }
    }
  }

  lemma UnusableStays(c: Config, wal: seq<Txn>, more: seq<Txn>, a: nat, b: nat, from: nat, to: nat)
    requires wal <= more && from <= a && b <= to && !AllUsable(c, wal, a, b)
    ensures !AllUsable(c, more, from, to)
  {
    var i :| a <= i < b && 0 <= i < |wal| && !TxnUsable(c, wal[i]);
    assert more[i] == wal[i];
  }

  lemma UsableJoins(c: Config, wal: seq<Txn>, a: nat, b: nat, d: nat)
    requires AllUsable(c, wal, a, b) && AllUsable(c, wal, b, d)
    ensures AllUsable(c, wal, a, d)
  {
  }

  /** One turn and then the rest. */
  lemma TurnThenRest(p: Params, w: Run, t: Run, items: seq<Item>, count: nat, scan: Scan, x: Run, y: Run)
    requires OthersLeave(w.sys, t.sys) && items != [] && !items[0].stop
    requires TurnsOut(p, scan, t, items[0], count, x) && |t.sys.wal| >= t.sys.applied
    requires if x.sys.daemon.Up? then
               x.sys.applied <= |x.sys.wal| && ComesOut(p, ScanItem(p, scan, items[0]), x, items[1..], y)
             else y == x
    ensures ComesOut(p, scan, w, items, y)
  {
    var to := w.sys.daemon.next + Commits(p, items);
    if x.sys.daemon.Up? {
      if y.sys.daemon.Up? {
        UsableStays(p.c, x.sys.wal, y.sys.wal, w.sys.applied, x.sys.applied);
        UsableJoins(p.c, y.sys.wal, w.sys.applied, x.sys.applied, y.sys.applied);
      } else if AllOk(p, scan, items) {
        UnusableStays(p.c, y.sys.wal, y.sys.wal, x.sys.applied, to, w.sys.applied, to);
      }
    } else if ItemOk(p, scan, items[0]) {
      UnusableStays(p.c, x.sys.wal, x.sys.wal, t.sys.applied, NextAfter(p, t, items[0]), w.sys.applied, to);
    }
  }

  lemma AppliedInWal(p: Params, w: Run)
    requires p.Valid() && Reachable(p.c, w.sys) && HasCheckpoint(w.sys.db)
    ensures w.sys.boot <= w.sys.applied <= |w.sys.wal|
  {
    ReachableIsSafe(p.c, w.sys);
  }

  lemma {:induction false} TurnsGoOn(p: Params, w: Run, items: seq<Item>, env: seq<Env>)
    requires p.Valid() && |env| == |items| && items != [] && !items[0].stop
    requires Ready(w) && Ready(w.(sys := env[0].sys))
    ensures var x := Turn(p, w.(sys := env[0].sys), items[0], env[0].count);
            && Turns(p, w, items, env) == Turns(p, x, items[1..], env[1..])
            && (x.sys.daemon.Down? ==> Turns(p, w, items, env) == x)
  {
  }

  /** The state after what others did before the first item. */
  function Before(w: Run, env: seq<Env>): Run
    requires env != []
  {
    w.(sys := env[0].sys)
  }

  lemma BeforeTurn(p: Params, w: Run, items: seq<Item>, env: seq<Env>, scan: Scan)
    requires p.Valid() && Reachable(p.c, w.sys) && LoopHead(p, w) && Matches(scan, w)
    requires Fed(p, w, items, env) && items != [] && !items[0].stop
    ensures var t := Before(w, env);
            && OthersLeave(w.sys, t.sys) && Reachable(p.c, t.sys) && LoopHead(p, t) && Matches(scan, t)
            && Offers(p, t, items[0].payload, env[0].count) && t.sys.applied <= |t.sys.wal|
  {
    ElsewhereKeeps(p.c, INITIAL, w.sys, env[0].steps, env[0].sys);
    RunLeaves(p.c, w.sys, env[0].steps, env[0].sys);
    AppliedInWal(p, Before(w, env));
  }

  lemma TurnIsHead(p: Params, t: Run, item: Item, count: nat)
    requires p.Valid() && Reachable(p.c, t.sys) && LoopHead(p, t) && Offers(p, t, item.payload, count)
    ensures var x := Turn(p, t, item, count);
            x.sys.daemon.Up? ==> Reachable(p.c, x.sys) && LoopHead(p, x) && x.sys.applied <= |x.sys.wal|
  {
    TurnIsSteps(p, INITIAL, t, item, count);
    TurnKeepsHead(p, t, item, count);
    AppliedInWal(p, Turn(p, t, item, count));
  }

  lemma {:induction false} TurnsComeOut(p: Params, w: Run, items: seq<Item>, env: seq<Env>, scan: Scan)
    requires p.Valid() && Reachable(p.c, w.sys) && LoopHead(p, w) && Matches(scan, w)
    requires Fed(p, w, items, env) && NoFaults(items)
    ensures ComesOut(p, scan, w, items, Turns(p, w, items, env))
    decreases |items|
  {
    if items != [] && !items[0].stop {
      var t := Before(w, env);
      BeforeTurn(p, w, items, env, scan);
      TurnUpIff(p, t, items[0], env[0].count, scan);
      TurnIsHead(p, t, items[0], env[0].count);
      TurnsGoOn(p, w, items, env);
      var x := Turn(p, t, items[0], env[0].count);
      if x.sys.daemon.Up? {
        assert forall i :: 0 <= i < |items[1..]| ==> items[1..][i] == items[i + 1];
        TurnsComeOut(p, x, items[1..], env[1..], ScanItem(p, scan, items[0]));
      }
      TurnThenRest(p, w, t, items, env[0].count, scan, x, Turns(p, w, items, env));
    }
  }

  /** The last flush. */
  lemma LastFlushComesOut(p: Params, x: Run)
    requires p.Valid() && Reachable(p.c, x.sys) && LoopHead(p, x)
    ensures var y := if x.sys.daemon.pending == [] then x else Flushed(p.c, x, NoFault);
            && y.sys.wal == x.sys.wal
            && (y.sys.daemon.Up? <==> AllUsable(p.c, x.sys.wal, x.sys.applied, x.sys.daemon.next))
            && (y.sys.daemon.Up? ==> SamePlace(x, y) && y.sys.applied == FlushesTo(x))
  {
    PendingRun(p, x);
    if x.sys.daemon.pending != [] {
      FlushUpIff(p, x);
      if Flushed(p.c, x, NoFault).sys.daemon.Up? {
        FlushApplies(p, x);
      } else {
        FlushDownKeeps(p, x);
      }
    }
  }

  /** How the loop leaves the system, but for its checkpoint. */
  ghost predicate Stops(p: Params, scan: Scan, w: Run, items: seq<Item>, y: Run)
    requires w.sys.daemon.Up?
  {
    var to := w.sys.daemon.next + Commits(p, items);
    && w.sys.wal <= y.sys.wal
    && (y.sys.daemon.Up? <==> AllOk(p, scan, items) && AllUsable(p.c, y.sys.wal, w.sys.applied, to))
    && (y.sys.daemon.Up? ==> y.sys.boot == w.sys.boot && y.sys.applied == Max(w.sys.applied, to))
  }

  /** The turns, and then the last flush. */
  lemma TurnsThenFlush(p: Params, w: Run, items: seq<Item>, scan: Scan, x: Run, y: Run)
    requires w.sys.daemon.Up? && ComesOut(p, scan, w, items, x) && y.sys.wal == x.sys.wal
    requires if x.sys.daemon.Up? then
               && (y.sys.daemon.Up? <==> AllUsable(p.c, x.sys.wal, x.sys.applied, x.sys.daemon.next))
               && (y.sys.daemon.Up? ==> SamePlace(x, y) && y.sys.applied == FlushesTo(x))
             else y == x
    ensures Stops(p, scan, w, items, y)
  {
    var to := w.sys.daemon.next + Commits(p, items);
    if x.sys.daemon.Up? {
      if AllUsable(p.c, y.sys.wal, x.sys.applied, to) {
        UsableJoins(p.c, y.sys.wal, w.sys.applied, x.sys.applied, to);
      } else {
        UnusableStays(p.c, y.sys.wal, y.sys.wal, x.sys.applied, to, w.sys.applied, to);
      }
    }
  }

  /** The loop is its turns and the last flush. */
  lemma LoopIsTurnsAndFlush(p: Params, w: Run, items: seq<Item>, env: seq<Env>)
    requires p.Valid() && Reachable(p.c, w.sys) && LoopHead(p, w) && Fed(p, w, items, env)
    ensures var x, y := Turns(p, w, items, env), Loop(p, w, items, env, NoFault);
            if x.sys.daemon.Up? then
              && Reachable(p.c, x.sys) && LoopHead(p, x)
              && y == if x.sys.daemon.pending == [] then x else Flushed(p.c, x, NoFault)
            else y == x
  {
    LoopTakesMachineSteps(p, INITIAL, w, items, env);
  }

  /** The checkpoint is the end of the last transaction applied since the backfill. */
  ghost predicate Ended(w: Run, s: Sys) {
    HasCheckpoint(s.db) && w.sys.boot <= w.sys.applied && s.applied <= |s.wal| && EndsAtLast(s)
  }

  lemma LoopEnds(p: Params, w: Run, items: seq<Item>, env: seq<Env>)
    requires p.Valid() && Reachable(p.c, w.sys) && LoopHead(p, w) && Fed(p, w, items, env)
    ensures Ended(w, Loop(p, w, items, env, NoFault).sys)
  {
    LoopStaysReachable(p, w, items, env, NoFault);
    var x := Loop(p, w, items, env, NoFault);
    AppliedInWal(p, w);
    AppliedInWal(p, x);
    ReachableEndsAtLast(p.c, x.sys);
  }

  /** The loop ends up if and only if every item up to a stop is one that a daemon can take and every
      change it was sent is usable.  Then it has applied every transaction delivered, and if there were
      any the checkpoint is the end of the last one. */
  ghost predicate Arrives(p: Params, scan: Scan, w: Run, items: seq<Item>, y: Run)
    requires w.sys.daemon.Up?
  {
    var to := w.sys.daemon.next + Commits(p, items);
    && w.sys.wal <= y.sys.wal
    && (y.sys.daemon.Up? <==> AllOk(p, scan, items) && AllUsable(p.c, y.sys.wal, w.sys.applied, to))
    && (y.sys.daemon.Up? ==>
          && y.sys.applied == Max(w.sys.applied, to) <= |y.sys.wal| && HasCheckpoint(y.sys.db)
          && (w.sys.applied < to ==> y.sys.db.checkpoint == Some(y.sys.wal[to - 1].endLsn)))
  }

  lemma LoopStops(p: Params, w: Run, items: seq<Item>, env: seq<Env>, scan: Scan)
    requires p.Valid() && Reachable(p.c, w.sys) && LoopHead(p, w) && Matches(scan, w)
    requires Fed(p, w, items, env) && NoFaults(items)
    ensures Stops(p, scan, w, items, Loop(p, w, items, env, NoFault))
  {
    var x, y := Turns(p, w, items, env), Loop(p, w, items, env, NoFault);
    TurnsComeOut(p, w, items, env, scan);
    LoopIsTurnsAndFlush(p, w, items, env);
    if x.sys.daemon.Up? {
      LastFlushComesOut(p, x);
    }
    TurnsThenFlush(p, w, items, scan, x, y);
  }

  lemma StopsArrive(p: Params, scan: Scan, w: Run, items: seq<Item>, y: Run)
    requires w.sys.daemon.Up? && Stops(p, scan, w, items, y) && Ended(w, y.sys)
    ensures Arrives(p, scan, w, items, y)
  {
  }

  /** Where the loop ends, without a fault, told from the items. */
  lemma LoopUpIff(p: Params, w: Run, items: seq<Item>, env: seq<Env>, scan: Scan)
    requires p.Valid() && Reachable(p.c, w.sys) && LoopHead(p, w) && Matches(scan, w)
    requires Fed(p, w, items, env) && NoFaults(items)
    ensures Arrives(p, scan, w, items, Loop(p, w, items, env, NoFault))
  {
    LoopStops(p, w, items, env, scan);
    LoopEnds(p, w, items, env);
    StopsArrive(p, scan, w, items, Loop(p, w, items, env, NoFault));
  }

  // ---- a stream that is the WAL ----------------------------------------------------------------------

  /** The item is what comes next: a wake, a relation or other message without rows, or the next piece of
      transaction `next` of the WAL, of which `mid` changes were sent. */
  ghost predicate DeliversOne(p: Params, wal: seq<Txn>, next: nat, mid: nat, scan: Scan, item: Item, count: nat) {
    && !item.stop && item.fault.NoFault? && ItemOk(p, scan, item)
    && (Carried(p, item) ==>
          var m := MessageOf(p, item);
          && (m.Begin? ==> !scan.open && next < |wal|)
          && (m.Commit? || IsRowMessage(m) ==> scan.open && next < |wal|)
          && (m.Commit? ==> mid == |wal[next].changes| && m.endLsn == wal[next].endLsn)
          && (IsRowMessage(m) ==>
                mid + count <= |wal[next].changes|
                && Carries(p.convert, scan.known, m, wal[next].changes[mid..mid + count])))
  }

  /** The items are transactions of the WAL from `next` on, in order, each between its Begin and its Commit;
      `counts` says how many changes each row message stands for. */
  ghost predicate Delivers(p: Params, wal: seq<Txn>, next: nat, mid: nat, scan: Scan, items: seq<Item>,
                           counts: seq<nat>)
    decreases |items|
  {
    && |counts| == |items|
    && (items == [] ||
        (&& DeliversOne(p, wal, next, mid, scan, items[0], counts[0])
         && Delivers(p, wal, next + One(IsCommit(p, items[0])), MidAfter(p, mid, items[0], counts[0]),
                     ScanItem(p, scan, items[0]), items[1..], counts[1..])))
  }

  /** Nobody else does anything. */
  function Alone(p: Params, w: Run, items: seq<Item>, counts: seq<nat>): (env: seq<Env>)
    requires p.Valid() && |counts| == |items|
    ensures |env| == |items|
    decreases |items|
  {
    if items == [] then []
    else
      [Env([], w.sys, counts[0])]
      + Alone(p, if Ready(w) then Turn(p, w, items[0], counts[0]) else w, items[1..], counts[1..])
  }

  lemma DeliveryIsOffered(p: Params, w: Run, item: Item, count: nat, scan: Scan)
    requires p.Valid() && LoopHead(p, w) && Matches(scan, w)
    requires DeliversOne(p, w.sys.wal, w.sys.daemon.next, w.sys.daemon.mid, scan, item, count)
    ensures Offers(p, w, item.payload, count)
  {
  }

  lemma AloneGoesOn(p: Params, w: Run, items: seq<Item>, counts: seq<nat>)
    requires p.Valid() && |counts| == |items| && items != [] && LoopHead(p, w)
    requires Offers(p, w, items[0].payload, counts[0])
    requires var x := Turn(p, w, items[0], counts[0]); Fed(p, x, items[1..], Alone(p, x, items[1..], counts[1..]))
    ensures Fed(p, w, items, Alone(p, w, items, counts))
  {
    var x, env := Turn(p, w, items[0], counts[0]), Alone(p, w, items, counts);
    assert env[0] == Env([], w.sys, counts[0]) && env[1..] == Alone(p, x, items[1..], counts[1..]);
    assert w.(sys := w.sys) == w;
  }

  lemma DeliveredTurn(p: Params, w: Run, item: Item, count: nat, scan: Scan)
    requires p.Valid() && Reachable(p.c, w.sys) && LoopHead(p, w) && Matches(scan, w)
    requires DeliversOne(p, w.sys.wal, w.sys.daemon.next, w.sys.daemon.mid, scan, item, count)
    requires AllUsable(p.c, w.sys.wal, w.sys.applied, |w.sys.wal|)
    ensures var x := Turn(p, w, item, count);
            && Offers(p, w, item.payload, count) && x.sys.daemon.Up? && Advanced(p, scan, w, item, count, x)
            && Reachable(p.c, x.sys) && LoopHead(p, x)
  {
    DeliveryIsOffered(p, w, item, count, scan);
    TurnUpIff(p, w, item, count, scan);
    TurnIsHead(p, w, item, count);
  }

  /** Where the rest of such a stream begins. */
  lemma DeliveryGoesOn(p: Params, w: Run, items: seq<Item>, counts: seq<nat>, scan: Scan, x: Run)
    requires w.sys.daemon.Up? && x.sys.daemon.Up? && items != []
    requires Delivers(p, w.sys.wal, w.sys.daemon.next, w.sys.daemon.mid, scan, items, counts)
    requires AllUsable(p.c, w.sys.wal, w.sys.applied, |w.sys.wal|)
    requires Advanced(p, scan, w, items[0], counts[0], x)
    ensures Matches(ScanItem(p, scan, items[0]), x) && AllUsable(p.c, x.sys.wal, x.sys.applied, |x.sys.wal|)
    ensures Delivers(p, x.sys.wal, x.sys.daemon.next, x.sys.daemon.mid, ScanItem(p, scan, items[0]), items[1..],
                     counts[1..])
  {
  }

  /** Such a stream, fed with nobody else at work, is one that a server may send. */
  lemma {:induction false} DeliveryIsFed(p: Params, w: Run, items: seq<Item>, counts: seq<nat>, scan: Scan)
    requires p.Valid() && Reachable(p.c, w.sys) && LoopHead(p, w) && Matches(scan, w)
    requires Delivers(p, w.sys.wal, w.sys.daemon.next, w.sys.daemon.mid, scan, items, counts)
    requires AllUsable(p.c, w.sys.wal, w.sys.applied, |w.sys.wal|)
    ensures Fed(p, w, items, Alone(p, w, items, counts))
    decreases |items|
  {
    if items != [] {
      var x := Turn(p, w, items[0], counts[0]);
      DeliveredTurn(p, w, items[0], counts[0], scan);
      DeliveryGoesOn(p, w, items, counts, scan, x);
      DeliveryIsFed(p, x, items[1..], counts[1..], ScanItem(p, scan, items[0]));
      AloneGoesOn(p, w, items, counts);
    }
  }

  lemma {:induction false} DeliveryIsOk(p: Params, wal: seq<Txn>, next: nat, mid: nat, scan: Scan, items: seq<Item>,
                                        counts: seq<nat>)
    requires next <= |wal| && Delivers(p, wal, next, mid, scan, items, counts)
    ensures AllOk(p, scan, items) && NoFaults(items) && next + Commits(p, items) <= |wal|
    decreases |items|
  {
    if items != [] {
      DeliveryIsOk(p, wal, next + One(IsCommit(p, items[0])), MidAfter(p, mid, items[0], counts[0]),
                   ScanItem(p, scan, items[0]), items[1..], counts[1..]);
      assert forall i :: 0 < i < |items| ==> items[i] == items[1..][i - 1];
    }
  }

  /** Progress: fed any stretch of the WAL from its place on, complete and usable, the loop applies all of
      it.  The checkpoint is the end of the last transaction sent, and each target is its view after
      exactly those. */
  lemma LoopAppliesStream(p: Params, w: Run, items: seq<Item>, counts: seq<nat>, scan: Scan)
    requires p.Valid() && Reachable(p.c, w.sys) && LoopHead(p, w) && Matches(scan, w)
    requires Delivers(p, w.sys.wal, w.sys.daemon.next, w.sys.daemon.mid, scan, items, counts)
    requires AllUsable(p.c, w.sys.wal, w.sys.applied, |w.sys.wal|)
    ensures var x := Loop(p, w, items, Alone(p, w, items, counts), NoFault);
            var to := w.sys.daemon.next + Commits(p, items);
            && x.sys.daemon.Up? && HasCheckpoint(x.sys.db) && to <= |w.sys.wal|
            && (w.sys.applied < to ==> x.sys.db.checkpoint == Some(w.sys.wal[to - 1].endLsn))
            && (w.sys.applied < to ==>
                  Holds(p.c.views, p.c.sem, x.sys.db.tables, AllChanges(w.sys.wal[..to])))
  {
    var env := Alone(p, w, items, counts);
    AppliedInWal(p, w);
    PendingRun(p, w);
    DeliveryIsFed(p, w, items, counts, scan);
    DeliveryIsOk(p, w.sys.wal, w.sys.daemon.next, w.sys.daemon.mid, scan, items, counts);
    LoopUpIff(p, w, items, env, scan);
    LoopLeavesExactTargets(p, w, items, env, NoFault);
    StreamIsApplied(p, scan, w, items, Loop(p, w, items, env, NoFault));
  }

  lemma StreamIsApplied(p: Params, scan: Scan, w: Run, items: seq<Item>, x: Run)
    requires w.sys.daemon.Up? && Arrives(p, scan, w, items, x) && HasCheckpoint(x.sys.db) && Exact(p.c, x.sys)
    requires AllOk(p, scan, items) && AllUsable(p.c, w.sys.wal, w.sys.applied, |w.sys.wal|)
    requires w.sys.daemon.next + Commits(p, items) <= |w.sys.wal|
    ensures var to := w.sys.daemon.next + Commits(p, items);
            && x.sys.daemon.Up?
            && (w.sys.applied < to ==> x.sys.db.checkpoint == Some(w.sys.wal[to - 1].endLsn))
            && (w.sys.applied < to ==>
                  Holds(p.c.views, p.c.sem, x.sys.db.tables, AllChanges(w.sys.wal[..to])))
  {
    var to := w.sys.daemon.next + Commits(p, items);
    UsableStays(p.c, w.sys.wal, x.sys.wal, w.sys.applied, to);
    assert x.sys.wal[..to] == w.sys.wal[..to];
  }
}
