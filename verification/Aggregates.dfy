/**
  The delta batch of aggregates.py as functions: accumulation per group with the program's
  rounding arithmetic, the ordered commands of a flush, and the tables those commands act on.
*/
module Aggregates {
  import opened Prelude
  import opened Decimals
  import opened Views

  // ---- an insertion-ordered dictionary of group deltas -----------------------

  datatype Entry = Entry(key: Key, delta: Vec)
  type Groups = seq<Entry>

  function Get(sem: Semantics, groups: Groups, key: Key, absent: Vec): Vec {
    if groups == [] then absent
    else if sem.same(groups[0].key, key) then groups[0].delta
    else Get(sem, groups[1..], key, absent)
  }

  /** Overwrites the delta of the key in place, or appends an entry; an entry keeps its first key. */
  function Put(sem: Semantics, groups: Groups, key: Key, delta: Vec): Groups {
    if groups == [] then [Entry(key, delta)]
    else if sem.same(groups[0].key, key) then [Entry(groups[0].key, delta)] + groups[1..]
    else [groups[0]] + Put(sem, groups[1..], key, delta)
  }

  datatype ViewBatch = ViewBatch(truncated: bool, groups: Groups)

  const EMPTY := ViewBatch(false, [])

  // ---- folding one row into a batch -------------------------------------------

  /** Source columns read from every row event. */
  function NeededColumns(view: ViewSpec): seq<Text> {
    view.groupBy + AggColumns(view.aggregates)
  }

  function AggColumns(aggs: seq<AggSpec>): seq<Text> {
    if aggs == [] then []
    else (if aggs[0].CountAll? then [] else [aggs[0].column]) + AggColumns(aggs[1..])
  }

  /** Every needed column is present and none carries the unchanged-TOAST marker. */
  predicate HasColumns(columns: seq<Text>, row: Row) {
    forall i :: 0 <= i < |columns| ==> columns[i] in row && row[columns[i]] != Unchanged
  }

  /** A non-NULL aggregated value as a finite decimal. */
  function AsDecimal(sem: Semantics, v: Value): Result<int> {
    match sem.decimal(v)
    case Some(n) => Ok(n)
    case None => Err(WalfluxError)
  }

  /** Contribution of one row event to one aggregate, before sign; fails on an unusable value. */
  function AggDeltas(sem: Semantics, agg: AggSpec, row: Row): (r: Result<Vec>)
    ensures r.Ok? ==> r.value == Contribution(sem, agg, row)
    ensures r.Ok? <==> (agg.SumOf? || agg.AvgOf? ==>
                          Field(row, agg.column).Null? || sem.decimal(Field(row, agg.column)).Some?)
  {
    match agg
    case CountAll(_) => Ok([1])
    case CountOf(column, _) => Ok([if Field(row, column).Null? then 0 else 1])
    case SumOf(column, _) => SumDeltas(sem, Field(row, column))
    case AvgOf(column, _) => SumDeltas(sem, Field(row, column))
  }

  function SumDeltas(sem: Semantics, v: Value): Result<Vec> {
    if v.Null? then Ok([0, 0])
    else
      var n :- AsDecimal(sem, v);
      Ok([n, 1])
  }

  /** group[index] += sign * delta: decimal for a running total, integer for a counter. */
  function AddDelta(total: bool, current: int, sign: int, delta: int): int {
    if total then ContextAdd(current, ContextMul(sign, delta)) else current + sign * delta
  }

  predicate IsTotal(agg: AggSpec, position: nat) {
    (agg.SumOf? || agg.AvgOf?) && position == 0
  }

  function AddDeltas(group: Vec, index: nat, agg: AggSpec, sign: int, deltas: Vec): (g: Vec)
    requires index + |deltas| <= |group|
    ensures |g| == |group|
  {
    seq(|group|, i requires 0 <= i < |group| =>
      if index <= i < index + |deltas|
      then AddDelta(IsTotal(agg, i - index), group[i], sign, deltas[i - index])
      else group[i])
  }

  /** The loop over aggregates; it stops at the first unusable value, leaving what it did. */
  function AddAggregates(sem: Semantics, aggs: seq<AggSpec>, group: Vec, index: nat, row: Row,
                         sign: int): (r: (Vec, Option<Error>))
    requires index + Widths(aggs) == |group|
    ensures |r.0| == |group|
  {
    if aggs == [] then (group, None)
    else
      match AggDeltas(sem, aggs[0], row)
      case Err(e) => (group, Some(e))
      case Ok(deltas) =>
        AddAggregates(sem, aggs[1..], AddDeltas(group, index, aggs[0], sign, deltas), index + |deltas|, row, sign)
  }

  predicate WellFormed(view: ViewSpec, groups: Groups) {
    forall i :: 0 <= i < |groups| ==>
      |groups[i].key| == |view.groupBy| && |groups[i].delta| == VecLength(view)
  }

  lemma {:induction false} GetHasLength(sem: Semantics, view: ViewSpec, groups: Groups, key: Key)
    requires WellFormed(view, groups)
    ensures |Get(sem, groups, key, Zeros(VecLength(view)))| == VecLength(view)
  {
    if groups != [] && !sem.same(groups[0].key, key) {
      GetHasLength(sem, view, groups[1..], key);
    }
  }

  lemma {:induction false} PutIsWellFormed(sem: Semantics, view: ViewSpec, groups: Groups, key: Key, delta: Vec)
    requires WellFormed(view, groups) && |key| == |view.groupBy| && |delta| == VecLength(view)
    ensures WellFormed(view, Put(sem, groups, key, delta))
  {
    if groups != [] && !sem.same(groups[0].key, key) {
      PutIsWellFormed(sem, view, groups[1..], key, delta);
    }
  }

  /** The batch after _apply, and the error it raised if any.  The row counter is bumped
      before a value can be refused, so a failed call leaves a changed batch. */
  function ApplyRow(sem: Semantics, view: ViewSpec, batch: ViewBatch, row: Row,
                    sign: int): (r: (ViewBatch, Option<Error>))
    requires WellFormed(view, batch.groups)
    ensures WellFormed(view, r.0.groups)
    ensures r.0.truncated == batch.truncated
  {
    if !HasColumns(NeededColumns(view), row) then (batch, Some(SchemaDriftError))
    else
      var key := MemKey(view, row);
      GetHasLength(sem, view, batch.groups, key);
      var group := Get(sem, batch.groups, key, Zeros(VecLength(view)));
      var (after, error) := AddAggregates(sem, view.aggregates, group[0 := group[0] + sign], 1, row, sign);
      PutIsWellFormed(sem, view, batch.groups, key, after);
      (batch.(groups := Put(sem, batch.groups, key, after)), error)
  }

  /** Discards the deltas so far; a global view gets a zero delta to re-create its one row. */
  function ApplyTruncate(view: ViewSpec): (b: ViewBatch)
    ensures WellFormed(view, b.groups)
  {
    ViewBatch(true, if view.groupBy == [] then [Entry([], Zeros(VecLength(view)))] else [])
  }

  // ---- events ------------------------------------------------------------------

  /** A row-level event on a table. */
  datatype Event = Insert(row: Row) | Update(before: Row, after: Row) | Delete(row: Row) | Truncate

  function ApplyEvent(sem: Semantics, view: ViewSpec, batch: ViewBatch, e: Event): (r: (ViewBatch, Option<Error>))
    requires WellFormed(view, batch.groups)
    ensures WellFormed(view, r.0.groups)
  {
    match e
    case Insert(row) => ApplyRow(sem, view, batch, row, 1)
    case Delete(row) => ApplyRow(sem, view, batch, row, -1)
    case Update(before, after) =>
      var (middle, error) := ApplyRow(sem, view, batch, before, -1);
      if error.Some? then (middle, error) else ApplyRow(sem, view, middle, after, 1)
    case Truncate => (ApplyTruncate(view), None)
  }

  /** An event already resolved to a view. */
  datatype Op = Op(view: Text, event: Event)

  /** The state of a DeltaBatch object: one ViewBatch for each configured view. */
  type BatchState = map<Text, ViewBatch>

  function ViewNames(views: seq<ViewSpec>): set<Text> {
    set v | v in views :: v.name
  }

  predicate DistinctNames(views: seq<ViewSpec>) {
    forall i, j :: 0 <= i < j < |views| ==> views[i].name != views[j].name
  }

  predicate BatchOf(views: seq<ViewSpec>, b: BatchState) {
    && b.Keys == ViewNames(views)
    && forall v :: v in views ==> v.name in b && WellFormed(v, b[v.name].groups)
  }

  function EmptyBatch(views: seq<ViewSpec>): (b: BatchState)
    ensures BatchOf(views, b)
  {
    map name | name in ViewNames(views) :: EMPTY
  }

  function FindView(views: seq<ViewSpec>, name: Text): (v: Option<ViewSpec>)
    ensures v.Some? ==> v.value in views && v.value.name == name
    ensures v.None? ==> forall w :: w in views ==> w.name != name
  {
    if views == [] then None
    else if views[0].name == name then Some(views[0])
    else FindView(views[1..], name)
  }

  function ApplyOp(sem: Semantics, views: seq<ViewSpec>, b: BatchState, op: Op): (r: (BatchState, Option<Error>))
    requires DistinctNames(views) && BatchOf(views, b)
    ensures BatchOf(views, r.0)
  {
    match FindView(views, op.view)
    case None => (b, Some(WalfluxError))
    case Some(v) =>
      var (vb, error) := ApplyEvent(sem, v, b[v.name], op.event);
      (b[v.name := vb], error)
  }

  /** Folding the buffered operations of a flush; the first error ends it. */
  function ApplyOps(sem: Semantics, views: seq<ViewSpec>, b: BatchState, ops: seq<Op>): (r: (BatchState, Option<Error>))
    requires DistinctNames(views) && BatchOf(views, b)
    ensures BatchOf(views, r.0)
    decreases |ops|
  {
    if ops == [] then (b, None)
    else
      var (next, error) := ApplyOp(sem, views, b, ops[0]);
      if error.Some? then (next, error) else ApplyOps(sem, views, next, ops[1..])
  }

  // ---- commands ------------------------------------------------------------------

  datatype Command =
    | DeleteAll(view: Text)
    | Upsert(view: Text, key: Key, delta: Vec)
    | DeleteEmpty(view: Text)          // DELETE ... WHERE __walflux_rows <= 0
    | SetCheckpoint(lsn: nat)

  function Deletes(views: seq<ViewSpec>, b: BatchState): seq<Command>
    requires forall v :: v in views ==> v.name in b
  {
    if views == [] then []
    else
      (if b[views[0].name].truncated then [DeleteAll(views[0].name)] else []) + Deletes(views[1..], b)
  }

  function UpsertsOf(view: ViewSpec, groups: Groups): seq<Command> {
    if groups == [] then []
    else [Upsert(view.name, TargetKey(view, groups[0].key), groups[0].delta)] + UpsertsOf(view, groups[1..])
  }

  function Upserts(views: seq<ViewSpec>, b: BatchState): seq<Command>
    requires forall v :: v in views ==> v.name in b
  {
    if views == [] then [] else UpsertsOf(views[0], b[views[0].name].groups) + Upserts(views[1..], b)
  }

  predicate NeedsCleanup(view: ViewSpec, vb: ViewBatch) {
    view.groupBy != [] && (vb.truncated || vb.groups != [])
  }

  function Cleanups(views: seq<ViewSpec>, b: BatchState): seq<Command>
    requires forall v :: v in views ==> v.name in b
  {
    if views == [] then []
    else
      (if NeedsCleanup(views[0], b[views[0].name]) then [DeleteEmpty(views[0].name)] else [])
      + Cleanups(views[1..], b)
  }

  function Statements(views: seq<ViewSpec>, b: BatchState): seq<Command>
    requires forall v :: v in views ==> v.name in b
  {
    Deletes(views, b) + Upserts(views, b) + Cleanups(views, b)
  }

  // ---- what the commands do to the target database ---------------------------------

  /** The target database: no walflux schema yet, or its tables and the checkpoint row. */
  datatype Db = NoSchema | Db(tables: map<Text, Table>, checkpoint: Option<nat>)

  /** INSERT ... ON CONFLICT DO UPDATE SET c = c + EXCLUDED.c, on a NULLS NOT DISTINCT index. */
  function UpsertInto(sem: Semantics, t: Table, key: Key, delta: Vec): Option<Table> {
    var k := sem.eq(key);
    if k !in t then Some(t[k := delta])
    else if |t[k]| == |delta| then Some(t[k := Plus(t[k], delta)])
    else None
  }

  predicate Counted(v: Vec) { |v| > 0 && v[0] > 0 }

  function WithoutEmpty(t: Table): Table {
    map k | k in t && Counted(t[k]) :: t[k]
  }

  /** The effect of one command on the table of its view; None is a database error. */
  function ExecOn(sem: Semantics, t: Table, cmd: Command): Option<Table>
    requires !cmd.SetCheckpoint?
  {
    match cmd
    case DeleteAll(_) => Some(map[])
    case Upsert(_, key, delta) => UpsertInto(sem, t, key, delta)
    case DeleteEmpty(_) => Some(WithoutEmpty(t))
  }

  function Exec(sem: Semantics, db: Db, cmd: Command): Option<Db> {
    if db.NoSchema? then None
    else if cmd.SetCheckpoint? then Some(db.(checkpoint := Some(cmd.lsn)))
    else if cmd.view !in db.tables then None
    else
      match ExecOn(sem, db.tables[cmd.view], cmd)
      case None => None
      case Some(t) => Some(db.(tables := db.tables[cmd.view := t]))
  }

  function ExecAll(sem: Semantics, db: Db, cmds: seq<Command>): Option<Db>
    decreases |cmds|
  {
    if cmds == [] then Some(db)
    else
      match Exec(sem, db, cmds[0])
      case None => None
      case Some(next) => ExecAll(sem, next, cmds[1..])
  }
}
