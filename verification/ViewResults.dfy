/** What follows from incremental maintenance: cuts, key splitting, backfill, NULLs and bounds. */
module ViewResults {
  import opened Prelude
  import opened Decimals
  import opened Views
  import opened Aggregates
  import opened Maintenance
  import opened Targets
  import opened Flushes

  // ---- which rows a batch accepts ------------------------------------------------

  predicate Usable(sem: Semantics, view: ViewSpec, row: Row) {
    && HasColumns(NeededColumns(view), row)
    && forall i :: 0 <= i < |view.aggregates| ==> AggDeltas(sem, view.aggregates[i], row).Ok?
  }

  predicate EventUsable(sem: Semantics, view: ViewSpec, e: Event) {
    match e
    case Insert(row) => Usable(sem, view, row)
    case Delete(row) => Usable(sem, view, row)
    case Update(before, after) => Usable(sem, view, before) && Usable(sem, view, after)
    case Truncate => true
  }

  lemma {:induction false} AddAggregatesAccepts(sem: Semantics, aggs: seq<AggSpec>, group: Vec, index: nat, row: Row,
                                                sign: int)
    requires index + Widths(aggs) == |group|
    ensures AddAggregates(sem, aggs, group, index, row, sign).1 == None <==>
            forall i :: 0 <= i < |aggs| ==> AggDeltas(sem, aggs[i], row).Ok?
    decreases |aggs|
  {
    if aggs != [] {
      var rest := aggs[1..];
      assert forall i :: 0 <= i < |rest| ==> rest[i] == aggs[i + 1];
      assert forall i :: 1 <= i < |aggs| ==> aggs[i] == rest[i - 1];
      if AggDeltas(sem, aggs[0], row).Ok? {
        var d := AggDeltas(sem, aggs[0], row).value;
        AddAggregatesAccepts(sem, rest, AddDeltas(group, index, aggs[0], sign, d), index + |d|, row, sign);
      }
    }
  }

  /** An event is refused exactly when one of its row images is not usable, whatever the batch. */
  lemma EventAccepted(sem: Semantics, view: ViewSpec, batch: ViewBatch, e: Event)
    requires WellFormed(view, batch.groups)
    ensures ApplyEvent(sem, view, batch, e).1 == None <==> EventUsable(sem, view, e)
  {
    match e
    case Insert(row) => RowAccepted(sem, view, batch, row, 1);
    case Delete(row) => RowAccepted(sem, view, batch, row, -1);
    case Update(before, after) =>
      RowAccepted(sem, view, batch, before, -1);
      RowAccepted(sem, view, ApplyRow(sem, view, batch, before, -1).0, after, 1);
    case Truncate =>
  }

  lemma RowAccepted(sem: Semantics, view: ViewSpec, batch: ViewBatch, row: Row, sign: int)
    requires WellFormed(view, batch.groups)
    ensures ApplyRow(sem, view, batch, row, sign).1 == None <==> Usable(sem, view, row)
  {
    if HasColumns(NeededColumns(view), row) {
      GetHasLength(sem, view, batch.groups, MemKey(view, row));
      var group := Get(sem, batch.groups, MemKey(view, row), Zeros(VecLength(view)));
      AddAggregatesAccepts(sem, view.aggregates, group[0 := group[0] + sign], 1, row, sign);
    }
  }

  ghost predicate ChangesUsable(sem: Semantics, views: seq<ViewSpec>, changes: seq<Change>) {
    forall v, i :: v in views && 0 <= i < |changes| && changes[i].table == v.source ==>
      EventUsable(sem, v, changes[i].event)
  }

  lemma {:induction false} OpsOfOne(views: seq<ViewSpec>, change: Change, op: Op)
    requires op in OpsOf(views, change)
    ensures exists v :: v in views && v.source == change.table && op == Op(v.name, change.event)
  {
    if views[0].source != change.table || op != Op(views[0].name, change.event) {
      OpsOfOne(views[1..], change, op);
    }
  }

  lemma {:induction false} OpsAccepted(sem: Semantics, views: seq<ViewSpec>, b: BatchState, ops: seq<Op>)
    requires DistinctNames(views) && BatchOf(views, b)
    requires forall op :: op in ops ==> exists v :: v in views && v.name == op.view && EventUsable(sem, v, op.event)
    ensures ApplyOps(sem, views, b, ops).1 == None
    decreases |ops|
  {
    if ops != [] {
      assert ops[0] in ops;
      var v :| v in views && v.name == ops[0].view && EventUsable(sem, v, ops[0].event);
      NameFindsView(views, v);
      EventAccepted(sem, v, b[v.name], ops[0].event);
      OpsAccepted(sem, views, ApplyOp(sem, views, b, ops[0]).0, ops[1..]);
    }
  }

  lemma {:induction false} OpsAreUsable(sem: Semantics, views: seq<ViewSpec>, changes: seq<Change>, op: Op)
    requires ChangesUsable(sem, views, changes) && op in OpsOfAll(views, changes)
    ensures exists v :: v in views && v.name == op.view && EventUsable(sem, v, op.event)
  {
    if op in OpsOf(views, changes[0]) {
      OpsOfOne(views, changes[0], op);
      assert EventUsable(sem, Witness(views, changes[0], op), changes[0].event);
    } else {
      assert forall i :: 0 <= i < |changes[1..]| ==> changes[1..][i] == changes[i + 1];
      OpsAreUsable(sem, views, changes[1..], op);
    }
  }

  ghost function Witness(views: seq<ViewSpec>, change: Change, op: Op): (v: ViewSpec)
    requires exists v :: v in views && v.source == change.table && op == Op(v.name, change.event)
    ensures v in views && v.source == change.table && op == Op(v.name, change.event)
  {
    var v :| v in views && v.source == change.table && op == Op(v.name, change.event);
    v
  }

  lemma ChangesAccepted(sem: Semantics, views: seq<ViewSpec>, changes: seq<Change>)
    requires DistinctNames(views) && ChangesUsable(sem, views, changes)
    ensures ApplyOps(sem, views, EmptyBatch(views), OpsOfAll(views, changes)).1 == None
  {
    forall op | op in OpsOfAll(views, changes)
      ensures exists v :: v in views && v.name == op.view && EventUsable(sem, v, op.event)
    {
      OpsAreUsable(sem, views, changes, op);
    }
    OpsAccepted(sem, views, EmptyBatch(views), OpsOfAll(views, changes));
  }

  // ---- enough room for 28 digits -----------------------------------------------------

  function ImagesOf(e: Event): nat {
    match e case Insert(_) => 1 case Delete(_) => 1 case Update(_, _) => 2 case Truncate => 0
  }

  function Images(events: seq<Event>): nat {
    if events == [] then 0 else ImagesOf(events[0]) + Images(events[1..])
  }

  ghost predicate WithinVec(v: Vec, bound: int) {
    forall i :: 0 <= i < |v| ==> Abs(v[i]) <= bound
  }

  ghost predicate WithinGroups(groups: Groups, bound: int) {
    forall i :: 0 <= i < |groups| ==> WithinVec(groups[i].delta, bound)
  }

  /** Every row image contributes at most m units to any column. */
  ghost predicate SmallRow(sem: Semantics, view: ViewSpec, row: Row, m: int) { WithinVec(RowVec(sem, view, row), m) }

  ghost predicate SmallEvent(sem: Semantics, view: ViewSpec, e: Event, m: int) {
    match e
    case Insert(row) => SmallRow(sem, view, row, m)
    case Delete(row) => SmallRow(sem, view, row, m)
    case Update(before, after) => SmallRow(sem, view, before, m) && SmallRow(sem, view, after, m)
    case Truncate => true
  }

  lemma {:induction false} GetWithin(sem: Semantics, groups: Groups, key: Key, n: nat, bound: nat)
    requires WithinGroups(groups, bound)
    ensures WithinVec(Get(sem, groups, key, Zeros(n)), bound)
  {
    if groups != [] && !sem.same(groups[0].key, key) {
      assert forall i :: 0 <= i < |groups[1..]| ==> groups[1..][i] == groups[i + 1];
      GetWithin(sem, groups[1..], key, n, bound);
    }
  }

  lemma {:induction false} PutWithin(sem: Semantics, groups: Groups, key: Key, delta: Vec, bound: nat)
    requires WithinGroups(groups, bound) && WithinVec(delta, bound)
    ensures WithinGroups(Put(sem, groups, key, delta), bound)
  {
    if groups != [] && !sem.same(groups[0].key, key) {
      assert forall i :: 0 <= i < |groups[1..]| ==> groups[1..][i] == groups[i + 1];
      PutWithin(sem, groups[1..], key, delta, bound);
    }
  }

  lemma Widen(groups: Groups, a: nat, b: nat)
    requires WithinGroups(groups, a) && a <= b
    ensures WithinGroups(groups, b)
  {
    forall i | 0 <= i < |groups| ensures WithinVec(groups[i].delta, b) {
      assert WithinVec(groups[i].delta, a);
    }
  }

  lemma RowFits(sem: Semantics, view: ViewSpec, batch: ViewBatch, row: Row, sign: int, m: nat, bound: nat)
    requires WellFormed(view, batch.groups) && WithinGroups(batch.groups, bound)
    requires Usable(sem, view, row) && SmallRow(sem, view, row, m) && bound + m <= LIMIT && (sign == 1 || sign == -1)
    ensures FitsRow(sem, view, batch.groups, row, sign)
    ensures WithinGroups(ApplyRow(sem, view, batch, row, sign).0.groups, bound + m)
  {
    var n, key, c := VecLength(view), MemKey(view, row), RowVec(sem, view, row);
    GetHasLength(sem, view, batch.groups, key);
    GetWithin(sem, batch.groups, key, n, bound);
    var group := Get(sem, batch.groups, key, Zeros(n));
    forall i | 0 <= i < |c| ensures Abs(c[i]) <= m && Abs(group[i] + sign * c[i]) <= bound + m {
    }
    RowAccepted(sem, view, batch, row, sign);
    ApplyRowIsExact(sem, view, batch, row, sign);
    Widen(batch.groups, bound, bound + m);
    assert WithinVec(Plus(group, Scale(sign, c)), bound + m);
    PutWithin(sem, batch.groups, key, Plus(group, Scale(sign, c)), bound + m);
  }

  lemma EventFits(sem: Semantics, view: ViewSpec, batch: ViewBatch, e: Event, m: nat, bound: nat)
    requires WellFormed(view, batch.groups) && WithinGroups(batch.groups, bound)
    requires EventUsable(sem, view, e) && SmallEvent(sem, view, e, m) && bound + ImagesOf(e) * m <= LIMIT
    ensures FitsEvent(sem, view, batch, e)
    ensures WithinGroups(ApplyEvent(sem, view, batch, e).0.groups, bound + ImagesOf(e) * m)
  {
    EventAccepted(sem, view, batch, e);
    match e
    case Insert(row) => RowFits(sem, view, batch, row, 1, m, bound);
    case Delete(row) => RowFits(sem, view, batch, row, -1, m, bound);
    case Update(before, after) =>
      assert ImagesOf(e) * m == m + m;
      RowAccepted(sem, view, batch, before, -1);
      RowFits(sem, view, batch, before, -1, m, bound);
      RowFits(sem, view, ApplyRow(sem, view, batch, before, -1).0, after, 1, m, bound + m);
    case Truncate => assert ImagesOf(e) * m == 0;
  }

  /** n row images of magnitude at most m with n * m <= 10^28 are always summed exactly. */
  lemma {:induction false} FewEventsFit(sem: Semantics, view: ViewSpec, batch: ViewBatch, events: seq<Event>, m: nat,
                                        bound: nat)
    requires WellFormed(view, batch.groups) && WithinGroups(batch.groups, bound)
    requires forall i :: 0 <= i < |events| ==> EventUsable(sem, view, events[i]) && SmallEvent(sem, view, events[i], m)
    requires bound + Images(events) * m <= LIMIT
    ensures FitsEvents(sem, view, batch, events)
    decreases |events|
  {
    if events != [] {
      var e, rest := events[0], events[1..];
      assert forall i :: 0 <= i < |rest| ==> rest[i] == events[i + 1];
      Distribute(ImagesOf(e), Images(rest), m);
      EventFits(sem, view, batch, e, m, bound);
      FewEventsFit(sem, view, ApplyEvent(sem, view, batch, e).0, rest, m, bound + ImagesOf(e) * m);
    }
  }

  /** The same for all views of a configuration: such changes fit, in whatever batch. */
  lemma SmallChangesFit(sem: Semantics, views: seq<ViewSpec>, changes: seq<Change>, m: nat)
    requires ChangesUsable(sem, views, changes) && Images(EventsOfAll(changes)) * m <= LIMIT
    requires forall v, i :: v in views && 0 <= i < |changes| && changes[i].table == v.source ==>
               SmallEvent(sem, v, changes[i].event, m)
    ensures Fits(sem, views, changes)
  {
    forall v | v in views ensures FitsEvents(sem, v, EMPTY, EventsOn(changes, v.source)) {
      EventsOnAreSome(sem, v, changes, m);
      Grow(Images(EventsOn(changes, v.source)), Images(EventsOfAll(changes)), m);
      FewEventsFit(sem, v, EMPTY, EventsOn(changes, v.source), m, 0);
    }
  }

  function EventsOfAll(changes: seq<Change>): seq<Event> {
    seq(|changes|, i requires 0 <= i < |changes| => changes[i].event)
  }

  lemma {:induction false} EventsOnAreSome(sem: Semantics, v: ViewSpec, changes: seq<Change>, m: nat)
    requires forall i :: 0 <= i < |changes| && changes[i].table == v.source ==>
               EventUsable(sem, v, changes[i].event) && SmallEvent(sem, v, changes[i].event, m)
    ensures forall e :: e in EventsOn(changes, v.source) ==> EventUsable(sem, v, e) && SmallEvent(sem, v, e, m)
    ensures Images(EventsOn(changes, v.source)) <= Images(EventsOfAll(changes))
  {
    if changes != [] {
      assert forall i :: 0 <= i < |changes[1..]| ==> changes[1..][i] == changes[i + 1];
      assert EventsOfAll(changes)[1..] == EventsOfAll(changes[1..]);
      EventsOnAreSome(sem, v, changes[1..], m);
      if changes[0].table == v.source {
        assert EventsOn(changes, v.source)[1..] == EventsOn(changes[1..], v.source);
      } else {
        assert EventsOn(changes, v.source) == EventsOn(changes[1..], v.source);
      }
    }
  }

  lemma Grow(a: nat, b: nat, m: nat)
    requires a <= b
    ensures a * m <= b * m
  {
  }

  lemma Distribute(a: nat, b: nat, m: nat)
    ensures (a + b) * m == a * m + b * m && a * m >= 0 && b * m >= 0
  {
  }

  // ---- flush boundaries do not matter -----------------------------------------------------

  datatype Cut = Cut(changes: seq<Change>, lsn: nat)

  function CutChanges(cuts: seq<Cut>): seq<Change> {
    if cuts == [] then [] else cuts[0].changes + CutChanges(cuts[1..])
  }

  /** Flushes one batch after another; None when a batch is refused or a command fails. */
  function FlushCuts(views: seq<ViewSpec>, sem: Semantics, db: Db, cuts: seq<Cut>): Option<Db>
    requires DistinctNames(views)
    decreases |cuts|
  {
    if cuts == [] then Some(db)
    else
      var (b, error) := ApplyOps(sem, views, EmptyBatch(views), OpsOfAll(views, cuts[0].changes));
      if error.Some? then None
      else
        match ExecAll(sem, db, FlushCommands(views, b, cuts[0].lsn))
        case None => None
        case Some(next) => FlushCuts(views, sem, next, cuts[1..])
  }

  ghost predicate CutsUsable(sem: Semantics, views: seq<ViewSpec>, cuts: seq<Cut>) {
    forall i :: 0 <= i < |cuts| ==> ChangesUsable(sem, views, cuts[i].changes) && Fits(sem, views, cuts[i].changes)
  }

  /** The database after the first of the cuts. */
  function AfterFirst(views: seq<ViewSpec>, sem: Semantics, db: Db, cuts: seq<Cut>): Option<Db>
    requires DistinctNames(views) && cuts != []
  {
    var b := ApplyOps(sem, views, EmptyBatch(views), OpsOfAll(views, cuts[0].changes)).0;
    ExecAll(sem, db, FlushCommands(views, b, cuts[0].lsn))
  }

  lemma FirstCutReachesViews(views: seq<ViewSpec>, sem: Semantics, db: Db, history: seq<Change>, cuts: seq<Cut>)
    requires sem.Valid() && DistinctNames(views) && db.Db? && Holds(views, sem, db.tables, history) && cuts != []
    requires ValidNext(views, history, CutChanges(cuts)) && CutsUsable(sem, views, cuts)
    ensures ApplyOps(sem, views, EmptyBatch(views), OpsOfAll(views, cuts[0].changes)).1 == None
    ensures var next := AfterFirst(views, sem, db, cuts);
            && next.Some? && next.value.Db? && Holds(views, sem, next.value.tables, history + cuts[0].changes)
    ensures ValidNext(views, history + cuts[0].changes, CutChanges(cuts[1..]))
  {
    ValidNextAppend(views, history, cuts[0].changes, CutChanges(cuts[1..]));
    ChangesAccepted(sem, views, cuts[0].changes);
    FlushMaintainsViews(views, sem, db, history, cuts[0].changes, cuts[0].lsn);
  }

  lemma {:induction false} CutsReachViews(views: seq<ViewSpec>, sem: Semantics, db: Db, history: seq<Change>,
                                          cuts: seq<Cut>)
    requires sem.Valid() && DistinctNames(views) && db.Db? && Holds(views, sem, db.tables, history)
    requires ValidNext(views, history, CutChanges(cuts)) && CutsUsable(sem, views, cuts)
    ensures FlushCuts(views, sem, db, cuts).Some? && FlushCuts(views, sem, db, cuts).value.Db?
    ensures Holds(views, sem, FlushCuts(views, sem, db, cuts).value.tables, history + CutChanges(cuts))
    decreases |cuts|
  {
    if cuts == [] {
      assert history + CutChanges(cuts) == history;
    } else {
      FirstCutReachesViews(views, sem, db, history, cuts);
      var next := AfterFirst(views, sem, db, cuts).value;
      assert CutsUsable(sem, views, cuts[1..]);
      CutsReachViews(views, sem, next, history + cuts[0].changes, cuts[1..]);
      Associate(history, cuts[0].changes, CutChanges(cuts[1..]));
    }
  }

  // What the tables must hold says nothing of the dictionary in memory.

  lemma {:induction false} SumIgnoresSame(x: Semantics, y: Semantics, rows: multiset<Row>, column: Text)
    requires y == x.(same := y.same)
    ensures ColumnSum(x, rows, column) == ColumnSum(y, rows, column)
    decreases |rows|
  {
    if rows != multiset{} {
      SumIgnoresSame(x, y, rows - multiset{Pick(rows)}, column);
    }
  }

  lemma StorageIgnoresSame(x: Semantics, y: Semantics, agg: AggSpec, rows: multiset<Row>)
    requires y == x.(same := y.same)
    ensures StorageOf(x, agg, rows) == StorageOf(y, agg, rows)
  {
    if agg.SumOf? || agg.AvgOf? {
      SumIgnoresSame(x, y, NonNull(rows, agg.column), agg.column);
      TotalOf(x, rows, agg.column);
      TotalOf(y, rows, agg.column);
    }
  }

  lemma {:induction false} StoragesIgnoreSame(x: Semantics, y: Semantics, aggs: seq<AggSpec>, rows: multiset<Row>)
    requires y == x.(same := y.same)
    ensures StorageOfAll(x, aggs, rows) == StorageOfAll(y, aggs, rows)
  {
    if aggs != [] {
      StorageIgnoresSame(x, y, aggs[0], rows);
      StoragesIgnoreSame(x, y, aggs[1..], rows);
    }
  }

  lemma GroupsIgnoreSame(x: Semantics, y: Semantics, view: ViewSpec, rows: multiset<Row>, k: Key)
    requires y == x.(same := y.same)
    ensures TrueVec(x, view, GroupOf(view, x, rows, k)) == TrueVec(y, view, GroupOf(view, y, rows, k))
  {
    assert GroupOf(view, x, rows, k) == GroupOf(view, y, rows, k);
    StoragesIgnoreSame(x, y, view.aggregates, GroupOf(view, y, rows, k));
  }

  lemma TruthIgnoresSame(x: Semantics, y: Semantics, view: ViewSpec, rows: multiset<Row>)
    requires y == x.(same := y.same)
    ensures GroundTruth(view, x, rows) == GroundTruth(view, y, rows)
  {
    var n := VecLength(view);
    StoragesIgnoreSame(x, y, view.aggregates, rows);
    if view.groupBy != [] {
      forall k
        ensures Lookup(GroundTruth(view, x, rows), k, n) == Lookup(GroundTruth(view, y, rows), k, n)
        ensures k in GroundTruth(view, x, rows) <==> k in GroundTruth(view, y, rows)
      {
        GroundTruthLookup(view, x, rows, k);
        GroundTruthLookup(view, y, rows, k);
        GroupsIgnoreSame(x, y, view, rows, k);
      }
      SameTable(GroundTruth(view, x, rows), GroundTruth(view, y, rows), n);
    }
  }

  lemma HoldsIgnoresSame(views: seq<ViewSpec>, x: Semantics, y: Semantics, tables: map<Text, Table>,
                         history: seq<Change>)
    requires y == x.(same := y.same)
    ensures Holds(views, x, tables, history) <==> Holds(views, y, tables, history)
  {
    forall v | v in views
      ensures GroundTruth(v, x, Contents(history, v)) == GroundTruth(v, y, Contents(history, v))
    {
      TruthIgnoresSame(x, y, v, Contents(history, v));
    }
  }

  /** Any two ways of cutting the same changes into flushes, under any two key equalities of the
      dictionary in memory that the server's is at least as coarse as, leave the same tables. */
  lemma CutsDoNotMatter(views: seq<ViewSpec>, x: Semantics, y: Semantics, db: Db, history: seq<Change>,
                        a: seq<Cut>, b: seq<Cut>)
    requires x.Valid() && y.Valid() && y == x.(same := y.same)
    requires DistinctNames(views) && db.Db? && Holds(views, x, db.tables, history)
    requires CutChanges(a) == CutChanges(b) && ValidNext(views, history, CutChanges(a))
    requires CutsUsable(x, views, a) && CutsUsable(y, views, b)
    ensures var s, t := FlushCuts(views, x, db, a), FlushCuts(views, y, db, b);
            && s.Some? && t.Some? && s.value.Db? && t.value.Db?
            && forall v :: v in views ==>
                 v.name in s.value.tables && v.name in t.value.tables
                 && s.value.tables[v.name] == t.value.tables[v.name]
  {
    HoldsIgnoresSame(views, x, y, db.tables, history);
    CutsReachViews(views, x, db, history, a);
    CutsReachViews(views, y, db, history, b);
    HoldsIgnoresSame(views, x, y, FlushCuts(views, y, db, b).value.tables, history + CutChanges(b));
  }

  /** A history that deletes a row before it exists is where the cut shows: in one batch the two
      events cancel; in two, the cleanup forgets the first. */
  lemma InvalidHistoryShowsTheCut(sem: Semantics, view: ViewSpec, row: Row, column: Text)
    requires view.groupBy == [column] && view.aggregates == [CountAll(view.name)]
    requires row == map[column := Null] && sem.same([Null], [Null])
    ensures var both := ApplyEvents(sem, view, EMPTY, [Delete(row), Insert(row)]).0;
            var first, second := ApplyEvents(sem, view, EMPTY, [Delete(row)]).0,
              ApplyEvents(sem, view, EMPTY, [Insert(row)]).0;
            && ExecTable(sem, map[], ViewStatements(view, both)) == Some(map[])
            && ExecTable(sem, map[], ViewStatements(view, first)) == Some(map[])
            && ExecTable(sem, map[], ViewStatements(view, second)) == Some(map[sem.eq([Null]) := [1, 1]])
  {
    CountRow(sem, view, row, [], -1);
    CountRow(sem, view, row, [], 1);
    CountRow(sem, view, row, [Entry([Null], [-1, -1])], 1);
    OneGroupStatements(view, sem, [0, 0]);
    OneGroupStatements(view, sem, [-1, -1]);
    OneGroupStatements(view, sem, [1, 1]);
    FoldOne(sem, view, EMPTY, [Delete(row)]);
    FoldOne(sem, view, EMPTY, [Insert(row)]);
    FoldOne(sem, view, ViewBatch(false, [Entry([Null], [-1, -1])]), [Insert(row)]);
    assert [Delete(row), Insert(row)][1..] == [Insert(row)];
  }

  lemma CountingView(sem: Semantics, view: ViewSpec, row: Row, group: Vec, sign: int)
    requires |view.groupBy| == 1 && view.aggregates == [CountAll(view.name)] && |group| == 2
    ensures VecLength(view) == 2
    ensures NeededColumns(view) == view.groupBy
    ensures AddAggregates(sem, view.aggregates, group, 1, row, sign) == ([group[0], group[1] + sign], None)
  {
    var aggs := view.aggregates;
    assert aggs[1..] == [];
    assert Widths(aggs[1..]) == 0 && AggColumns(aggs[1..]) == [];
    assert AggColumns(aggs) == [];
    assert AggDeltas(sem, view.aggregates[0], row) == Ok([1]);
    assert AddDeltas(group, 1, view.aggregates[0], sign, [1]) == [group[0], group[1] + sign];
  }

  lemma CountRow(sem: Semantics, view: ViewSpec, row: Row, groups: Groups, sign: int)
    requires |view.groupBy| == 1 && view.aggregates == [CountAll(view.name)] && row == map[view.groupBy[0] := Null]
    requires sem.same([Null], [Null]) && (groups == [] || groups == [Entry([Null], [-1, -1])])
    ensures WellFormed(view, groups)
    ensures ApplyRow(sem, view, ViewBatch(false, groups), row, sign) ==
            (ViewBatch(false, [Entry([Null], if groups == [] then [sign, sign] else [sign - 1, sign - 1])]), None)
  {
    CountingView(sem, view, row, [0, 0], 0);
    assert MemKey(view, row) == [Null];
    assert Zeros(2) == [0, 0];
    var group := if groups == [] then [0, 0] else [-1, -1];
    assert Get(sem, groups, [Null], Zeros(2)) == group;
    assert group[0 := group[0] + sign] == [group[0] + sign, group[1]];
    CountingView(sem, view, row, [group[0] + sign, group[1]], sign);
    if groups != [] {
      assert groups[1..] == [];
    }
    var after := [group[0] + sign, group[1] + sign];
    assert Put(sem, groups, [Null], after) == [Entry([Null], after)];
  }

  lemma FoldOne(sem: Semantics, view: ViewSpec, batch: ViewBatch, events: seq<Event>)
    requires WellFormed(view, batch.groups) && |events| == 1 && ApplyEvent(sem, view, batch, events[0]).1 == None
    ensures ApplyEvents(sem, view, batch, events) == ApplyEvent(sem, view, batch, events[0])
  {
    FoldHead(sem, view, batch, events);
    FoldNone(sem, view, ApplyEvent(sem, view, batch, events[0]).0, events[1..]);
  }

  lemma FoldNone(sem: Semantics, view: ViewSpec, batch: ViewBatch, events: seq<Event>)
    requires WellFormed(view, batch.groups) && |events| == 0
    ensures ApplyEvents(sem, view, batch, events) == (batch, None)
  {
  }

  lemma FoldHead(sem: Semantics, view: ViewSpec, batch: ViewBatch, events: seq<Event>)
    requires WellFormed(view, batch.groups) && events != [] && ApplyEvent(sem, view, batch, events[0]).1 == None
    ensures ApplyEvents(sem, view, batch, events) ==
            ApplyEvents(sem, view, ApplyEvent(sem, view, batch, events[0]).0, events[1..])
  {
  }

  lemma OneGroupStatements(view: ViewSpec, sem: Semantics, delta: Vec)
    requires |view.groupBy| == 1 && |delta| == 2
    ensures ExecTable(sem, map[], ViewStatements(view, ViewBatch(false, [Entry([Null], delta)]))) ==
            Some(if delta[0] > 0 then map[sem.eq([Null]) := delta] else map[])
  {
    var batch := ViewBatch(false, [Entry([Null], delta)]);
    var upsert, cleanup := Upsert(view.name, [Null], delta), DeleteEmpty(view.name);
    assert batch.groups[1..] == [];
    assert UpsertsOf(view, batch.groups) == [upsert];
    assert ViewStatements(view, batch) == [upsert, cleanup];
    var t: Table := map[sem.eq([Null]) := delta];
    assert ExecOn(sem, map[], upsert) == Some(t);
    assert [upsert, cleanup][1..] == [cleanup] && [cleanup][1..] == [];
    assert ExecTable(sem, t, [cleanup]) == Some(WithoutEmpty(t));
    assert WithoutEmpty(t) == if delta[0] > 0 then t else map[];
  }

  // ---- backfill and stream agree -------------------------------------------------------------

  function Inserts(rows: seq<Row>): seq<Event> {
    seq(|rows|, i requires 0 <= i < |rows| => Insert(rows[i]))
  }

  lemma MultisetHead(start: multiset<Row>, rows: seq<Row>)
    requires rows != []
    ensures start + multiset{rows[0]} + multiset(rows[1..]) == start + multiset(rows)
  {
    assert rows == [rows[0]] + rows[1..];
  }

  lemma {:induction false} InsertsAddUp(start: multiset<Row>, rows: seq<Row>)
    ensures ValidEvents(start, Inserts(rows))
    ensures RowsAfterAll(start, Inserts(rows)) == start + multiset(rows)
    decreases |rows|
  {
    if rows == [] {
      assert multiset(rows) == multiset{};
    } else {
      assert Inserts(rows)[0] == Insert(rows[0]) && Inserts(rows)[1..] == Inserts(rows[1..]);
      InsertsAddUp(start + multiset{rows[0]}, rows[1..]);
      MultisetHead(start, rows);
    }
  }

  lemma TruncatedBatchForgets(view: ViewSpec, sem: Semantics, batch: ViewBatch, a: Table, b: Table)
    requires batch.truncated
    ensures ExecTable(sem, a, ViewStatements(view, batch)) == ExecTable(sem, b, ViewStatements(view, batch))
  {
    var cmds := ViewStatements(view, batch);
    assert cmds[0] == DeleteAll(view.name);
  }

  lemma {:induction false} StaysTruncated(sem: Semantics, view: ViewSpec, batch: ViewBatch, events: seq<Event>)
    requires WellFormed(view, batch.groups) && batch.truncated
    ensures ApplyEvents(sem, view, batch, events).0.truncated
    decreases |events|
  {
    if events != [] && ApplyEvent(sem, view, batch, events[0]).1 == None {
      StaysTruncated(sem, view, ApplyEvent(sem, view, batch, events[0]).0, events[1..]);
    }
  }

  /** TRUNCATE then the rows in any order, on any prior content, is what a backfill builds. */
  lemma BackfillAgreesWithStream(view: ViewSpec, sem: Semantics, prior: Table, rows: seq<Row>)
    requires sem.Valid() && forall i :: 0 <= i < |rows| ==> Usable(sem, view, rows[i])
    requires FitsEvents(sem, view, ApplyTruncate(view), Inserts(rows))
    ensures var batch := ApplyEvents(sem, view, EMPTY, [Truncate] + Inserts(rows)).0;
            ExecTable(sem, prior, ViewStatements(view, batch)) == Some(GroundTruth(view, sem, multiset(rows)))
  {
    var events := [Truncate] + Inserts(rows);
    assert events[1..] == Inserts(rows);
    var batch := ApplyEvents(sem, view, EMPTY, events).0;
    assert batch == ApplyEvents(sem, view, ApplyTruncate(view), Inserts(rows)).0;
    InsertsAccepted(sem, view, ApplyTruncate(view), rows);
    InsertsAddUp(multiset{}, rows);
    TruncateTracks(view, sem, multiset{});
    EventsTrack(view, sem, ApplyTruncate(view), multiset{}, multiset{}, Inserts(rows));
    assert multiset{} + multiset(rows) == multiset(rows);
    ViewIsMaintained(view, sem, batch, multiset{}, multiset(rows));
    StaysTruncated(sem, view, ApplyTruncate(view), Inserts(rows));
    TruncatedBatchForgets(view, sem, batch, prior, GroundTruth(view, sem, multiset{}));
  }

  lemma {:induction false} InsertsAccepted(sem: Semantics, view: ViewSpec, batch: ViewBatch, rows: seq<Row>)
    requires WellFormed(view, batch.groups)
    requires forall i :: 0 <= i < |rows| ==> Usable(sem, view, rows[i])
    ensures ApplyEvents(sem, view, batch, Inserts(rows)).1 == None
    decreases |rows|
  {
    if rows != [] {
      assert Inserts(rows)[1..] == Inserts(rows[1..]);
      EventAccepted(sem, view, batch, Insert(rows[0]));
      InsertsAccepted(sem, view, ApplyRow(sem, view, batch, rows[0], 1).0, rows[1..]);
    }
  }

  // ---- what the user reads -----------------------------------------------------------------------

  /** The alias column: a plain counter, or a generated column over __sum and __nn. */
  function Alias(agg: AggSpec, storage: Vec): Option<real>
    requires |storage| == Width(agg)
  {
    match agg
    case CountAll(_) => Some(storage[0] as real)
    case CountOf(_, _) => Some(storage[0] as real)
    case SumOf(_, _) => if storage[1] > 0 then Some(storage[0] as real) else None
    case AvgOf(_, _) => if storage[1] > 0 then Some(storage[0] as real / storage[1] as real) else None
  }

  ghost function SqlValue(sem: Semantics, agg: AggSpec, rows: multiset<Row>): Option<real> {
    match agg
    case CountAll(_) => Some(|rows| as real)
    case CountOf(column, _) => Some(SqlCount(rows, column) as real)
    case SumOf(column, _) => (match SqlSum(sem, rows, column) case None => None case Some(total) => Some(total as real))
    case AvgOf(column, _) => SqlAvg(sem, rows, column)
  }

  /** The storage of one aggregate, cut out of the storage of all. */
  ghost predicate SliceIs(sem: Semantics, aggs: seq<AggSpec>, rows: multiset<Row>, i: nat, part: Vec)
    requires i < |aggs|
  {
    |part| == Width(aggs[i]) && StorageOfAll(sem, aggs, rows)[Offset(aggs, i)..Offset(aggs, i) + |part|] == part
  }

  lemma FirstSlice(sem: Semantics, aggs: seq<AggSpec>, rows: multiset<Row>)
    requires aggs != []
    ensures SliceIs(sem, aggs, rows, 0, StorageOf(sem, aggs[0], rows))
  {
    HeadOfWhole(StorageOfAll(sem, aggs, rows), StorageOf(sem, aggs[0], rows), StorageOfAll(sem, aggs[1..], rows));
  }

  lemma LaterSlice(sem: Semantics, aggs: seq<AggSpec>, rows: multiset<Row>, i: nat, part: Vec)
    requires 0 < i < |aggs| && SliceIs(sem, aggs[1..], rows, i - 1, part)
    ensures SliceIs(sem, aggs, rows, i, part)
  {
    SliceStep(StorageOfAll(sem, aggs, rows), StorageOf(sem, aggs[0], rows), StorageOfAll(sem, aggs[1..], rows),
              Offset(aggs, i), Offset(aggs[1..], i - 1), part);
  }

  lemma {:induction false} StorageSlice(sem: Semantics, aggs: seq<AggSpec>, rows: multiset<Row>, i: nat)
    requires i < |aggs|
    ensures SliceIs(sem, aggs, rows, i, StorageOf(sem, aggs[i], rows))
    decreases i
  {
    if i == 0 {
      FirstSlice(sem, aggs, rows);
    } else {
      StorageSlice(sem, aggs[1..], rows, i - 1);
      LaterSlice(sem, aggs, rows, i, StorageOf(sem, aggs[i], rows));
    }
  }

  lemma SliceStep(whole: Vec, first: Vec, rest: Vec, at: nat, before: nat, part: Vec)
    requires whole == first + rest && at == |first| + before && before + |part| <= |rest|
    requires rest[before..before + |part|] == part
    ensures whole[at..at + |part|] == part
  {
    SliceOfWhole(whole, first, rest, before, before + |part|);
  }

  lemma HeadOfWhole(whole: Vec, a: Vec, b: Vec)
    requires whole == a + b
    ensures whole[0..|a|] == a
  {
  }

  lemma SliceOfWhole(whole: Vec, a: Vec, b: Vec, i: nat, j: nat)
    requires whole == a + b && i <= j <= |b|
    ensures whole[|a| + i..|a| + j] == b[i..j]
  {
  }

  /** In every group of a maintained target, each alias reads as the SQL aggregate of the group. */
  lemma AliasIsSqlAggregate(sem: Semantics, view: ViewSpec, rows: multiset<Row>, i: nat)
    requires i < |view.aggregates|
    ensures var at := 1 + Offset(view.aggregates, i);
            && at + Width(view.aggregates[i]) <= VecLength(view)
            && Alias(view.aggregates[i], TrueVec(sem, view, rows)[at..at + Width(view.aggregates[i])]) ==
               SqlValue(sem, view.aggregates[i], rows)
  {
    var aggs, at := view.aggregates, Offset(view.aggregates, i);
    var part := StorageOf(sem, aggs[i], rows);
    StorageSlice(sem, aggs, rows, i);
    SliceStep(TrueVec(sem, view, rows), [|rows|], StorageOfAll(sem, aggs, rows), 1 + at, at, part);
    AliasOfStorage(sem, aggs[i], rows);
  }

  lemma AliasOfStorage(sem: Semantics, agg: AggSpec, rows: multiset<Row>)
    ensures Alias(agg, StorageOf(sem, agg, rows)) == SqlValue(sem, agg, rows)
  {
  }

  // ---- cleanup loses nothing ------------------------------------------------------------------------

  /** Before the cleanup every group already shows its final vector; the rows it deletes are zero,
      and counters of non-NULL inputs lie between 0 and the number of rows. */
  lemma CleanupLosesNothing(view: ViewSpec, sem: Semantics, batch: ViewBatch, start: multiset<Row>,
                            rows: multiset<Row>, k: Key)
    requires Tracks(view, sem, batch, start, rows)
    requires forall c :: c in UpsertsOf(view, batch.groups) ==> !c.SetCheckpoint?
    ensures var base: Table := if batch.truncated then map[] else GroundTruth(view, sem, start);
            var summed := ExecTable(sem, base, UpsertsOf(view, batch.groups));
            && summed.Some?
            && (k in summed.value ==>
                  && summed.value[k] == TrueVec(sem, view, GroupOf(view, sem, rows, k))
                  && summed.value[k][0] >= 0
                  && (summed.value[k][0] == 0 ==> summed.value[k] == Zeros(VecLength(view))))
  {
    var n := VecLength(view);
    var base: Table := if batch.truncated then map[] else GroundTruth(view, sem, start);
    UpsertsReachTruth(view, sem, batch, start, rows);
    UpsertsAdd(view, sem, base, batch.groups);
    var summed := ExecTable(sem, base, UpsertsOf(view, batch.groups)).value;
    assert Lookup(summed, k, n) == Plus(Lookup(base, k, n), Total(view, sem, batch.groups, k));
    GroundTruthLookup(view, sem, rows, k);
    CountedIffRows(sem, view, GroupOf(view, sem, rows, k));
    NoRowsNoVec(sem, view);
  }

  lemma NonNullWithinRows(rows: multiset<Row>, column: Text)
    ensures 0 <= SqlCount(rows, column) <= |rows|
  {
    assert NonNull(rows, column) <= rows;
    assert rows == NonNull(rows, column) + (rows - NonNull(rows, column));
  }

  // ---- a refused row -------------------------------------------------------------------------------------

  /** The row counters of a batch, added up. */
  function Counters(view: ViewSpec, groups: Groups): int
    requires WellFormed(view, groups)
  {
    if groups == [] then 0 else groups[0].delta[0] + Counters(view, groups[1..])
  }

  lemma {:induction false} PutCounts(sem: Semantics, view: ViewSpec, groups: Groups, key: Key, delta: Vec)
    requires WellFormed(view, groups) && |delta| == VecLength(view) && |key| == |view.groupBy|
    ensures WellFormed(view, Put(sem, groups, key, delta))
    ensures |Get(sem, groups, key, Zeros(VecLength(view)))| == VecLength(view)
    ensures Counters(view, Put(sem, groups, key, delta)) ==
            Counters(view, groups) - Get(sem, groups, key, Zeros(VecLength(view)))[0] + delta[0]
  {
    GetHasLength(sem, view, groups, key);
    PutIsWellFormed(sem, view, groups, key, delta);
    var after := Put(sem, groups, key, delta);
    if groups == [] {
      assert after[1..] == [];
    } else if sem.same(groups[0].key, key) {
      assert after[1..] == groups[1..];
    } else {
      assert after[1..] == Put(sem, groups[1..], key, delta);
      PutCounts(sem, view, groups[1..], key, delta);
    }
  }

  lemma {:induction false} AddAggregatesKeepsPrefix(sem: Semantics, aggs: seq<AggSpec>, group: Vec, index: nat,
                                                    row: Row, sign: int, i: nat)
    requires index + Widths(aggs) == |group| && i < index
    ensures AddAggregates(sem, aggs, group, index, row, sign).0[i] == group[i]
    decreases |aggs|
  {
    if aggs != [] && AggDeltas(sem, aggs[0], row).Ok? {
      var deltas := AggDeltas(sem, aggs[0], row).value;
      AddAggregatesKeepsPrefix(sem, aggs[1..], AddDeltas(group, index, aggs[0], sign, deltas), index + |deltas|, row,
        sign, i);
    }
  }

  /** A batch is not safe under exceptions: a row with all its columns is counted even when one of
      its values is then refused.  Safety rests on building the whole batch before any command. */
  lemma RefusedRowIsCounted(sem: Semantics, view: ViewSpec, batch: ViewBatch, row: Row, sign: int)
    requires WellFormed(view, batch.groups) && HasColumns(NeededColumns(view), row)
    ensures Counters(view, ApplyRow(sem, view, batch, row, sign).0.groups) == Counters(view, batch.groups) + sign
  {
    var key := MemKey(view, row);
    GetHasLength(sem, view, batch.groups, key);
    var group := Get(sem, batch.groups, key, Zeros(VecLength(view)));
    var bumped := group[0 := group[0] + sign];
    AddAggregatesKeepsPrefix(sem, view.aggregates, bumped, 1, row, sign, 0);
    PutCounts(sem, view, batch.groups, key, AddAggregates(sem, view.aggregates, bumped, 1, row, sign).0);
  }
}
