/**
  Rows, view specifications, and what a target table must hold: the SQL meaning of
  SELECT keys, count(*), aggregates FROM source GROUP BY keys, over a multiset of rows.
*/
module Views {
  import opened Prelude

  /** A converted column value.  Num(n) is n units of the common decimal scale. */
  datatype Value =
    | Null
    | Unchanged              // the marker of an unchanged TOAST column
    | Bool(b: bool)
    | Num(n: int)
    | NonFinite(text: Text)  // numeric NaN, Infinity or -Infinity
    | Float(repr: Text)
    | Txt(text: Text)

  type Row = map<Text, Value>

  datatype TableId = TableId(schema: Text, name: Text)

  datatype AggSpec =
    | CountAll(alias: Text)
    | CountOf(column: Text, alias: Text)
    | SumOf(column: Text, alias: Text)
    | AvgOf(column: Text, alias: Text)

  datatype ViewSpec = ViewSpec(name: Text, source: TableId, groupBy: seq<Text>, aggregates: seq<AggSpec>)

  type Key = seq<Value>
  type Vec = seq<int>

  /** A target table: one vector of __walflux_rows and storage columns for each key. */
  type Table = map<Key, Vec>

  /** What the model does not fix.  `eq`: two keys are equal to the server iff their classes are.
      `same`: two keys are one key of a dictionary in memory; not even reflexive, as NaN is not.
      `decimal`: the finite decimal that the program makes of a non-NULL value, if it can. */
  datatype Semantics = Semantics(eq: Key -> Key, same: (Key, Key) -> bool, decimal: Value -> Option<int>) {
    /** The dictionary never merges keys that the server tells apart; numerics are what they are. */
    ghost predicate Valid() {
      && (forall a, b :: same(a, b) ==> eq(a) == eq(b))
      && (forall n :: decimal(Num(n)) == Some(n))
      && (forall text :: decimal(NonFinite(text)) == None)
    }
  }

  function Field(row: Row, column: Text): Value {
    if column in row then row[column] else Null
  }

  /** The key of a row in memory; a global view has the empty key. */
  function MemKey(view: ViewSpec, row: Row): Key {
    seq(|view.groupBy|, i requires 0 <= i < |view.groupBy| => Field(row, view.groupBy[i]))
  }

  /** The key columns as written to the target; a global view has the constant key true. */
  function TargetKey(view: ViewSpec, key: Key): Key {
    if view.groupBy == [] then [Bool(true)] + key else key
  }

  function ClassOf(view: ViewSpec, sem: Semantics, row: Row): Key {
    sem.eq(TargetKey(view, MemKey(view, row)))
  }

  // ---- vectors -------------------------------------------------------------

  function Zeros(n: nat): Vec { seq(n, i requires 0 <= i < n => 0) }

  function Plus(a: Vec, b: Vec): (c: Vec)
    requires |a| == |b|
    ensures |c| == |a|
  {
    seq(|a|, i requires 0 <= i < |a| => a[i] + b[i])
  }

  function Scale(sign: int, a: Vec): (c: Vec)
    ensures |c| == |a|
  {
    seq(|a|, i requires 0 <= i < |a| => sign * a[i])
  }

  function Width(agg: AggSpec): nat {
    if agg.CountAll? || agg.CountOf? then 1 else 2
  }

  function Widths(aggs: seq<AggSpec>): nat {
    if aggs == [] then 0 else Width(aggs[0]) + Widths(aggs[1..])
  }

  /** Where the storage columns of aggregate i begin, counted from the first storage column. */
  function Offset(aggs: seq<AggSpec>, i: nat): (at: nat)
    requires i < |aggs|
    ensures at + Width(aggs[i]) <= Widths(aggs)
    decreases i
  {
    if i == 0 then 0 else Width(aggs[0]) + Offset(aggs[1..], i - 1)
  }

  function VecLength(view: ViewSpec): nat { 1 + Widths(view.aggregates) }

  // ---- SQL aggregates over a multiset of rows --------------------------------

  ghost function Pick(rows: multiset<Row>): (r: Row)
    requires rows != multiset{}
    ensures r in rows
  {
    var r :| r in rows;
    r
  }

  ghost function Filter(rows: multiset<Row>, keep: Row -> bool): (kept: multiset<Row>)
    ensures forall r :: kept[r] == if keep(r) then rows[r] else 0
    decreases |rows|
  {
    if rows == multiset{} then rows
    else
      var r := Pick(rows);
      (if keep(r) then multiset{r} else multiset{}) + Filter(rows - multiset{r}, keep)
  }

  /** What a value adds to a sum. */
  function Amount(sem: Semantics, v: Value): int {
    if v.Null? then 0 else match sem.decimal(v) case None => 0 case Some(n) => n
  }

  ghost function ColumnSum(sem: Semantics, rows: multiset<Row>, column: Text): int
    decreases |rows|
  {
    if rows == multiset{} then 0
    else
      var r := Pick(rows);
      Amount(sem, Field(r, column)) + ColumnSum(sem, rows - multiset{r}, column)
  }

  ghost function NonNull(rows: multiset<Row>, column: Text): multiset<Row> {
    Filter(rows, r => !Field(r, column).Null?)
  }

  /** count(column) */
  ghost function SqlCount(rows: multiset<Row>, column: Text): nat {
    |NonNull(rows, column)|
  }

  /** sum(column): NULL over no non-NULL input. */
  ghost function SqlSum(sem: Semantics, rows: multiset<Row>, column: Text): Option<int> {
    if SqlCount(rows, column) == 0 then None else Some(ColumnSum(sem, NonNull(rows, column), column))
  }

  /** avg(column), as an exact quotient. */
  ghost function SqlAvg(sem: Semantics, rows: multiset<Row>, column: Text): Option<real> {
    match SqlSum(sem, rows, column)
    case None => None
    case Some(total) => Some(total as real / SqlCount(rows, column) as real)
  }

  /** The storage columns that the backfill selects for one aggregate. */
  ghost function StorageOf(sem: Semantics, agg: AggSpec, rows: multiset<Row>): (v: Vec)
    ensures |v| == Width(agg)
  {
    match agg
    case CountAll(_) => [|rows|]
    case CountOf(column, _) => [SqlCount(rows, column)]
    case SumOf(column, _) => SumStorage(sem, rows, column)
    case AvgOf(column, _) => SumStorage(sem, rows, column)
  }

  /** coalesce(sum(column), 0), count(column) */
  ghost function SumStorage(sem: Semantics, rows: multiset<Row>, column: Text): (v: Vec)
    ensures |v| == 2
  {
    var total := match SqlSum(sem, rows, column) case None => 0 case Some(t) => t;
    [total, SqlCount(rows, column)]
  }

  ghost function StorageOfAll(sem: Semantics, aggs: seq<AggSpec>, rows: multiset<Row>): (v: Vec)
    ensures |v| == Widths(aggs)
  {
    if aggs == [] then [] else StorageOf(sem, aggs[0], rows) + StorageOfAll(sem, aggs[1..], rows)
  }

  ghost function TrueVec(sem: Semantics, view: ViewSpec, rows: multiset<Row>): (v: Vec)
    ensures |v| == VecLength(view)
  {
    [|rows|] + StorageOfAll(sem, view.aggregates, rows)
  }

  ghost function GroupOf(view: ViewSpec, sem: Semantics, rows: multiset<Row>, k: Key): multiset<Row> {
    Filter(rows, r => ClassOf(view, sem, r) == k)
  }

  /** What the target of a view must hold when its source holds these rows. */
  ghost function GroundTruth(view: ViewSpec, sem: Semantics, rows: multiset<Row>): Table {
    if view.groupBy == [] then
      map[sem.eq([Bool(true)]) := TrueVec(sem, view, rows)]
    else
      map k | k in (set r | r in rows :: ClassOf(view, sem, r)) :: TrueVec(sem, view, GroupOf(view, sem, rows, k))
  }

  // ---- one more row ----------------------------------------------------------

  /** The contribution of one row to one aggregate's storage columns. */
  function Contribution(sem: Semantics, agg: AggSpec, row: Row): (v: Vec)
    ensures |v| == Width(agg)
  {
    match agg
    case CountAll(_) => [1]
    case CountOf(column, _) => [if Field(row, column).Null? then 0 else 1]
    case SumOf(column, _) => SumContribution(sem, column, row)
    case AvgOf(column, _) => SumContribution(sem, column, row)
  }

  function SumContribution(sem: Semantics, column: Text, row: Row): (v: Vec)
    ensures |v| == 2
  {
    [Amount(sem, Field(row, column)), if Field(row, column).Null? then 0 else 1]
  }

  function Contributions(sem: Semantics, aggs: seq<AggSpec>, row: Row): (v: Vec)
    ensures |v| == Widths(aggs)
  {
    if aggs == [] then [] else Contribution(sem, aggs[0], row) + Contributions(sem, aggs[1..], row)
  }

  function RowVec(sem: Semantics, view: ViewSpec, row: Row): (v: Vec)
    ensures |v| == VecLength(view)
  {
    [1] + Contributions(sem, view.aggregates, row)
  }

  lemma {:induction false} SumWithout(sem: Semantics, rows: multiset<Row>, r: Row, column: Text)
    requires r in rows
    ensures ColumnSum(sem, rows, column) == Amount(sem, Field(r, column)) + ColumnSum(sem, rows - multiset{r}, column)
    decreases |rows|
  {
    var p := Pick(rows);
    if p != r {
      SumWithout(sem, rows - multiset{p}, r, column);
      SumWithout(sem, rows - multiset{r}, p, column);
      assert rows - multiset{p} - multiset{r} == rows - multiset{r} - multiset{p};
    }
  }

  lemma NonNullGrows(rows: multiset<Row>, r: Row, c: Text)
    ensures NonNull(rows + multiset{r}, c) ==
            NonNull(rows, c) + (if Field(r, c).Null? then multiset{} else multiset{r})
  {
  }

  lemma TotalAndCountGrow(sem: Semantics, rows: multiset<Row>, r: Row, c: Text)
    ensures SqlCount(rows + multiset{r}, c) == SqlCount(rows, c) + if Field(r, c).Null? then 0 else 1
    ensures ColumnSum(sem, NonNull(rows + multiset{r}, c), c) ==
            ColumnSum(sem, NonNull(rows, c), c) + Amount(sem, Field(r, c))
  {
    var before, after := NonNull(rows, c), NonNull(rows + multiset{r}, c);
    NonNullGrows(rows, r, c);
    if Field(r, c).Null? {
      assert after == before;
    } else {
      SumWithout(sem, after, r, c);
      assert after - multiset{r} == before;
    }
  }

  lemma SumStorageGrows(sem: Semantics, rows: multiset<Row>, r: Row, c: Text)
    ensures SumStorage(sem, rows + multiset{r}, c) == Plus(SumStorage(sem, rows, c), SumContribution(sem, c, r))
  {
    TotalOf(sem, rows, c);
    TotalOf(sem, rows + multiset{r}, c);
    TotalAndCountGrow(sem, rows, r, c);
    PairGrows(SumStorage(sem, rows, c), SumContribution(sem, c, r), SumStorage(sem, rows + multiset{r}, c));
  }

  lemma PairGrows(before: Vec, added: Vec, after: Vec)
    requires |before| == |added| == |after| == 2
    requires after[0] == before[0] + added[0] && after[1] == before[1] + added[1]
    ensures after == Plus(before, added)
  {
  }

  lemma TotalOf(sem: Semantics, rows: multiset<Row>, c: Text)
    ensures SumStorage(sem, rows, c) == [ColumnSum(sem, NonNull(rows, c), c), SqlCount(rows, c)]
  {
  }

  lemma CountAllGrows(sem: Semantics, alias: Text, rows: multiset<Row>, r: Row)
    ensures StorageOf(sem, CountAll(alias), rows + multiset{r}) ==
            Plus(StorageOf(sem, CountAll(alias), rows), Contribution(sem, CountAll(alias), r))
  {
    SinglesAdd(|rows|, 1);
  }

  lemma CountOfGrows(sem: Semantics, c: Text, alias: Text, rows: multiset<Row>, r: Row)
    ensures StorageOf(sem, CountOf(c, alias), rows + multiset{r}) ==
            Plus(StorageOf(sem, CountOf(c, alias), rows), Contribution(sem, CountOf(c, alias), r))
  {
    CountGrows(rows, r, c);
    SinglesAdd(SqlCount(rows, c), if Field(r, c).Null? then 0 else 1);
  }

  lemma CountGrows(rows: multiset<Row>, r: Row, c: Text)
    ensures SqlCount(rows + multiset{r}, c) == SqlCount(rows, c) + if Field(r, c).Null? then 0 else 1
  {
    NonNullGrows(rows, r, c);
  }

  lemma ContributionIsAdded(sem: Semantics, agg: AggSpec, rows: multiset<Row>, r: Row)
    ensures StorageOf(sem, agg, rows + multiset{r}) == Plus(StorageOf(sem, agg, rows), Contribution(sem, agg, r))
  {
    match agg
    case CountAll(alias) => CountAllGrows(sem, alias, rows, r);
    case CountOf(c, alias) => CountOfGrows(sem, c, alias, rows, r);
    case SumOf(c, _) => SumStorageGrows(sem, rows, r, c);
    case AvgOf(c, _) => SumStorageGrows(sem, rows, r, c);
  }

  lemma SinglesAdd(a: int, b: int)
    ensures Plus([a], [b]) == [a + b]
  {
  }

  lemma PlusOfParts(a: Vec, b: Vec, c: Vec, d: Vec)
    requires |a| == |b| && |c| == |d|
    ensures Plus(a + c, b + d) == Plus(a, b) + Plus(c, d)
  {
  }

  lemma {:induction false} ContributionsAreAdded(sem: Semantics, aggs: seq<AggSpec>, rows: multiset<Row>, r: Row)
    ensures StorageOfAll(sem, aggs, rows + multiset{r}) ==
            Plus(StorageOfAll(sem, aggs, rows), Contributions(sem, aggs, r))
  {
    if aggs != [] {
      ContributionIsAdded(sem, aggs[0], rows, r);
      ContributionsAreAdded(sem, aggs[1..], rows, r);
      PlusOfParts(StorageOf(sem, aggs[0], rows), Contribution(sem, aggs[0], r),
                  StorageOfAll(sem, aggs[1..], rows), Contributions(sem, aggs[1..], r));
    }
  }

  /** Adding a row to a group adds its contribution to the group's vector. */
  lemma RowIsAdded(sem: Semantics, view: ViewSpec, rows: multiset<Row>, r: Row)
    ensures TrueVec(sem, view, rows + multiset{r}) == Plus(TrueVec(sem, view, rows), RowVec(sem, view, r))
  {
    ContributionsAreAdded(sem, view.aggregates, rows, r);
    SinglesAdd(|rows|, 1);
    PlusOfParts([|rows|], [1], StorageOfAll(sem, view.aggregates, rows), Contributions(sem, view.aggregates, r));
  }

  lemma {:induction false} NoRowsNoStorage(sem: Semantics, aggs: seq<AggSpec>)
    ensures StorageOfAll(sem, aggs, multiset{}) == Zeros(Widths(aggs))
  {
    if aggs != [] {
      NoRowsNoStorage(sem, aggs[1..]);
    }
  }

  lemma NoRowsNoVec(sem: Semantics, view: ViewSpec)
    ensures TrueVec(sem, view, multiset{}) == Zeros(VecLength(view))
  {
    NoRowsNoStorage(sem, view.aggregates);
  }

  /** One more row and what SQL says of a column, from no rows on: a NULL changes nothing, a number counts
      once and is added. */
  lemma OneMoreValue(sem: Semantics, rows: multiset<Row>, r: Row, column: Text)
    requires sem.Valid() && column in r
    ensures SqlCount(multiset{}, column) == 0 && SqlSum(sem, multiset{}, column) == None
    ensures r[column] == Null ==>
              && SqlCount(rows + multiset{r}, column) == SqlCount(rows, column)
              && SqlSum(sem, rows + multiset{r}, column) == SqlSum(sem, rows, column)
    ensures r[column].Num? ==>
              && SqlCount(rows + multiset{r}, column) == SqlCount(rows, column) + 1
              && SqlSum(sem, rows + multiset{r}, column) ==
                 Some(r[column].n + match SqlSum(sem, rows, column) case None => 0 case Some(t) => t)
  {
    TotalAndCountGrow(sem, rows, r, column);
    TotalOf(sem, rows, column);
  }
}
