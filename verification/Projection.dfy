/**
  A view reads only the columns it needs.  Rows are compared on those alone: what else a source row
  has, or comes to have between its insert and its delete, is of no account.
*/
module Projection {
  import opened Prelude
  import opened Views
  import opened Aggregates
  import opened Maintenance
  import opened Targets

  /** The part of a row that a view reads. */
  function Project(view: ViewSpec, row: Row): Row {
    map c | c in row && c in NeededColumns(view) :: row[c]
  }

  function Observed(view: ViewSpec, e: Event): Event {
    match e
    case Insert(row) => Insert(Project(view, row))
    case Delete(row) => Delete(Project(view, row))
    case Update(before, after) => Update(Project(view, before), Project(view, after))
    case Truncate => Truncate
  }

  function ObservedAll(view: ViewSpec, events: seq<Event>): (r: seq<Event>)
    ensures |r| == |events|
  {
    if events == [] then [] else [Observed(view, events[0])] + ObservedAll(view, events[1..])
  }

  lemma {:induction false} ObservedAppend(view: ViewSpec, a: seq<Event>, b: seq<Event>)
    ensures ObservedAll(view, a + b) == ObservedAll(view, a) + ObservedAll(view, b)
  {
    if a == [] {
      assert a + b == b;
    } else {
      assert (a + b)[0] == a[0] && (a + b)[1..] == a[1..] + b;
      ObservedAppend(view, a[1..], b);
      Associate([Observed(view, a[0])], ObservedAll(view, a[1..]), ObservedAll(view, b));
    }
  }

  // ---- a batch cannot tell -----------------------------------------------------------------

  lemma {:induction false} AggregatedIsNeeded(aggs: seq<AggSpec>, i: nat)
    requires i < |aggs| && !aggs[i].CountAll?
    ensures aggs[i].column in AggColumns(aggs)
  {
    if i > 0 {
      AggregatedIsNeeded(aggs[1..], i - 1);
    }
  }

  lemma NeededFields(view: ViewSpec, row: Row)
    ensures forall c :: c in NeededColumns(view) ==> Field(Project(view, row), c) == Field(row, c)
    ensures MemKey(view, Project(view, row)) == MemKey(view, row)
    ensures HasColumns(NeededColumns(view), Project(view, row)) <==> HasColumns(NeededColumns(view), row)
  {
    var columns, part := NeededColumns(view), Project(view, row);
    forall i | 0 <= i < |view.groupBy| ensures Field(part, view.groupBy[i]) == Field(row, view.groupBy[i]) {
      assert columns[i] == view.groupBy[i];
    }
    assert forall i :: 0 <= i < |columns| ==> (columns[i] in part <==> columns[i] in row);
  }

  /** The two rows agree on the columns of these aggregates. */
  ghost predicate Agree(aggs: seq<AggSpec>, a: Row, b: Row) {
    forall i :: 0 <= i < |aggs| && !aggs[i].CountAll? ==> Field(a, aggs[i].column) == Field(b, aggs[i].column)
  }

  lemma ProjectionAgrees(view: ViewSpec, row: Row)
    ensures Agree(view.aggregates, Project(view, row), row)
  {
    NeededFields(view, row);
    var aggs := view.aggregates;
    forall i | 0 <= i < |aggs| && !aggs[i].CountAll?
      ensures Field(Project(view, row), aggs[i].column) == Field(row, aggs[i].column)
    {
      AggregatedIsNeeded(aggs, i);
    }
  }

  lemma AgreeTail(aggs: seq<AggSpec>, a: Row, b: Row)
    requires aggs != [] && Agree(aggs, a, b)
    ensures Agree(aggs[1..], a, b)
  {
  }

  lemma {:induction false} SameAggregates(sem: Semantics, aggs: seq<AggSpec>, group: Vec, index: nat, a: Row, b: Row,
                                          sign: int)
    requires index + Widths(aggs) == |group| && Agree(aggs, a, b)
    ensures AddAggregates(sem, aggs, group, index, a, sign) == AddAggregates(sem, aggs, group, index, b, sign)
    decreases |aggs|
  {
    if aggs != [] {
      AgreeTail(aggs, a, b);
      assert AggDeltas(sem, aggs[0], a) == AggDeltas(sem, aggs[0], b);
      if AggDeltas(sem, aggs[0], a).Ok? {
        var d := AggDeltas(sem, aggs[0], a).value;
        SameAggregates(sem, aggs[1..], AddDeltas(group, index, aggs[0], sign, d), index + |d|, a, b, sign);
      }
    }
  }

  lemma {:induction false} SameContributions(sem: Semantics, aggs: seq<AggSpec>, a: Row, b: Row)
    requires Agree(aggs, a, b)
    ensures Contributions(sem, aggs, a) == Contributions(sem, aggs, b)
  {
    if aggs != [] {
      AgreeTail(aggs, a, b);
      SameContributions(sem, aggs[1..], a, b);
    }
  }

  lemma SameRowVec(sem: Semantics, view: ViewSpec, row: Row)
    ensures RowVec(sem, view, Project(view, row)) == RowVec(sem, view, row)
  {
    ProjectionAgrees(view, row);
    SameContributions(sem, view.aggregates, Project(view, row), row);
  }

  lemma SameApplied(sem: Semantics, view: ViewSpec, batch: ViewBatch, row: Row, sign: int)
    requires WellFormed(view, batch.groups)
    ensures ApplyRow(sem, view, batch, Project(view, row), sign) == ApplyRow(sem, view, batch, row, sign)
    ensures FitsRow(sem, view, batch.groups, Project(view, row), sign) <==> FitsRow(sem, view, batch.groups, row, sign)
  {
    NeededFields(view, row);
    ProjectionAgrees(view, row);
    SameRowVec(sem, view, row);
    GetHasLength(sem, view, batch.groups, MemKey(view, row));
    var group := Get(sem, batch.groups, MemKey(view, row), Zeros(VecLength(view)));
    SameAggregates(sem, view.aggregates, group[0 := group[0] + sign], 1, Project(view, row), row, sign);
  }

  lemma SameEvent(sem: Semantics, view: ViewSpec, batch: ViewBatch, e: Event)
    requires WellFormed(view, batch.groups)
    ensures ApplyEvent(sem, view, batch, Observed(view, e)) == ApplyEvent(sem, view, batch, e)
    ensures FitsEvent(sem, view, batch, Observed(view, e)) <==> FitsEvent(sem, view, batch, e)
  {
    match e
    case Insert(row) => SameApplied(sem, view, batch, row, 1);
    case Delete(row) => SameApplied(sem, view, batch, row, -1);
    case Update(before, after) =>
      SameApplied(sem, view, batch, before, -1);
      SameApplied(sem, view, ApplyRow(sem, view, batch, before, -1).0, after, 1);
    case Truncate =>
  }

  lemma {:induction false} SameEvents(sem: Semantics, view: ViewSpec, batch: ViewBatch, events: seq<Event>)
    requires WellFormed(view, batch.groups)
    ensures ApplyEvents(sem, view, batch, ObservedAll(view, events)) == ApplyEvents(sem, view, batch, events)
    ensures FitsEvents(sem, view, batch, ObservedAll(view, events)) <==> FitsEvents(sem, view, batch, events)
    decreases |events|
  {
    if events != [] {
      var seen := ObservedAll(view, events);
      assert seen[0] == Observed(view, events[0]) && seen[1..] == ObservedAll(view, events[1..]);
      SameEvent(sem, view, batch, events[0]);
      SameEvents(sem, view, ApplyEvent(sem, view, batch, events[0]).0, events[1..]);
    }
  }

  // ---- nor can the server's query ------------------------------------------------------------

  /** All rows of a source, as a view reads them. */
  ghost function Projected(view: ViewSpec, rows: multiset<Row>): multiset<Row>
    decreases |rows|
  {
    if rows == multiset{} then multiset{}
    else
      var r := Pick(rows);
      multiset{Project(view, r)} + Projected(view, rows - multiset{r})
  }

  lemma {:induction false} ProjectedWithout(view: ViewSpec, rows: multiset<Row>, r: Row)
    requires r in rows
    ensures Projected(view, rows) == multiset{Project(view, r)} + Projected(view, rows - multiset{r})
    decreases |rows|
  {
    var p := Pick(rows);
    if p != r {
      ProjectedWithout(view, rows - multiset{p}, r);
      ProjectedWithout(view, rows - multiset{r}, p);
      var rest := rows - multiset{p} - multiset{r};
      assert rest == rows - multiset{r} - multiset{p};
      Swap(Project(view, p), Project(view, r), Projected(view, rest));
    }
  }

  lemma Swap(a: Row, b: Row, rest: multiset<Row>)
    ensures multiset{a} + (multiset{b} + rest) == multiset{b} + (multiset{a} + rest)
  {
  }

  lemma ProjectedWith(view: ViewSpec, rows: multiset<Row>, r: Row)
    ensures Projected(view, rows + multiset{r}) == Projected(view, rows) + multiset{Project(view, r)}
  {
    ProjectedWithout(view, rows + multiset{r}, r);
    assert rows + multiset{r} - multiset{r} == rows;
  }

  /** One row taken from the projection is one row taken from the source. */
  lemma ProjectedLess(view: ViewSpec, rows: multiset<Row>, r: Row)
    requires r in rows
    ensures Project(view, r) in Projected(view, rows)
    ensures Projected(view, rows - multiset{r}) == Projected(view, rows) - multiset{Project(view, r)}
  {
    ProjectedWithout(view, rows, r);
  }

  lemma ObservedEvent(view: ViewSpec, rows: multiset<Row>, e: Event)
    requires ValidEvent(rows, e)
    ensures ValidEvent(Projected(view, rows), Observed(view, e))
    ensures RowsAfter(Projected(view, rows), Observed(view, e)) == Projected(view, RowsAfter(rows, e))
  {
    match e
    case Insert(row) => ProjectedWith(view, rows, row);
    case Delete(row) => ProjectedLess(view, rows, row);
    case Update(before, after) =>
      ProjectedLess(view, rows, before);
      ProjectedWith(view, rows - multiset{before}, after);
    case Truncate =>
  }

  /** A history that is valid row by row is valid as any view reads it, and leaves what the view reads. */
  lemma {:induction false} ObservedHistory(view: ViewSpec, rows: multiset<Row>, events: seq<Event>)
    requires ValidEvents(rows, events)
    ensures ValidEvents(Projected(view, rows), ObservedAll(view, events))
    ensures RowsAfterAll(Projected(view, rows), ObservedAll(view, events)) ==
            Projected(view, RowsAfterAll(rows, events))
    decreases |events|
  {
    if events != [] {
      var seen := ObservedAll(view, events);
      assert seen[0] == Observed(view, events[0]) && seen[1..] == ObservedAll(view, events[1..]);
      ObservedEvent(view, rows, events[0]);
      ObservedHistory(view, RowsAfter(rows, events[0]), events[1..]);
    }
  }

  lemma {:induction false} SameGroup(view: ViewSpec, sem: Semantics, rows: multiset<Row>, k: Key)
    ensures GroupOf(view, sem, Projected(view, rows), k) == Projected(view, GroupOf(view, sem, rows, k))
    decreases |rows|
  {
    if rows != multiset{} {
      var r := Pick(rows);
      var rest := rows - multiset{r};
      assert rest + multiset{r} == rows;
      SameGroup(view, sem, rest, k);
      NeededFields(view, r);
      GroupGrows(view, sem, rest, r, k);
      GroupGrows(view, sem, Projected(view, rest), Project(view, r), k);
      ProjectedWith(view, rest, r);
      ProjectedWith(view, GroupOf(view, sem, rest, k), r);
    } else {
      assert GroupOf(view, sem, rows, k) == multiset{};
      assert GroupOf(view, sem, Projected(view, rows), k) == multiset{};
    }
  }

  lemma {:induction false} SameVec(sem: Semantics, view: ViewSpec, rows: multiset<Row>)
    ensures TrueVec(sem, view, Projected(view, rows)) == TrueVec(sem, view, rows)
    decreases |rows|
  {
    if rows != multiset{} {
      var r := Pick(rows);
      var rest := rows - multiset{r};
      assert rest + multiset{r} == rows;
      SameVec(sem, view, rest);
      SameRowVec(sem, view, r);
      ProjectedWith(view, rest, r);
      RowIsAdded(sem, view, rest, r);
      RowIsAdded(sem, view, Projected(view, rest), Project(view, r));
    }
  }

  /** What a target must hold is told from the projected rows. */
  lemma SameTruth(view: ViewSpec, sem: Semantics, rows: multiset<Row>)
    ensures GroundTruth(view, sem, Projected(view, rows)) == GroundTruth(view, sem, rows)
  {
    if view.groupBy == [] {
      SameVec(sem, view, rows);
    } else {
      var n := VecLength(view);
      var a, b := GroundTruth(view, sem, Projected(view, rows)), GroundTruth(view, sem, rows);
      forall k ensures Lookup(a, k, n) == Lookup(b, k, n) && (k in a <==> k in b) {
        GroundTruthLookup(view, sem, Projected(view, rows), k);
        GroundTruthLookup(view, sem, rows, k);
        SameGroup(view, sem, rows, k);
        SameVec(sem, view, GroupOf(view, sem, rows, k));
      }
      SameTable(a, b, n);
    }
  }
}
