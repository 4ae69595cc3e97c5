/**
  Incremental view maintenance: executing the commands of a batch on a target that equals its
  view leaves a target that equals its view after the batch's events.
*/
module Maintenance {
  import opened Prelude
  import opened Decimals
  import opened Views
  import opened Aggregates

  // ---- the source table -------------------------------------------------------

  /** The server only ships deletes and updates of rows that are there. */
  ghost predicate ValidEvent(rows: multiset<Row>, e: Event) {
    match e
    case Delete(row) => row in rows
    case Update(before, _) => before in rows
    case _ => true
  }

  function RowsAfter(rows: multiset<Row>, e: Event): multiset<Row> {
    match e
    case Insert(row) => rows + multiset{row}
    case Delete(row) => rows - multiset{row}
    case Update(before, after) => rows - multiset{before} + multiset{after}
    case Truncate => multiset{}
  }

  ghost predicate ValidEvents(rows: multiset<Row>, events: seq<Event>)
    decreases |events|
  {
    events == [] || (ValidEvent(rows, events[0]) && ValidEvents(RowsAfter(rows, events[0]), events[1..]))
  }

  function RowsAfterAll(rows: multiset<Row>, events: seq<Event>): multiset<Row>
    decreases |events|
  {
    if events == [] then rows else RowsAfterAll(RowsAfter(rows, events[0]), events[1..])
  }

  // ---- exactness of the decimal accumulation ---------------------------------------

  /** No sum formed while folding the row exceeds 10^28 units, so none is rounded. */
  ghost predicate FitsRow(sem: Semantics, view: ViewSpec, groups: Groups, row: Row, sign: int)
    requires WellFormed(view, groups)
  {
    GetHasLength(sem, view, groups, MemKey(view, row));
    var group := Get(sem, groups, MemKey(view, row), Zeros(VecLength(view)));
    FitsVec(group, RowVec(sem, view, row), sign)
  }

  ghost predicate FitsVec(group: Vec, c: Vec, sign: int)
    requires |group| == |c|
  {
    forall i :: 0 <= i < |c| ==> Abs(c[i]) <= LIMIT && Abs(group[i] + sign * c[i]) <= LIMIT
  }

  ghost predicate FitsEvent(sem: Semantics, view: ViewSpec, batch: ViewBatch, e: Event)
    requires WellFormed(view, batch.groups)
  {
    match e
    case Insert(row) => FitsRow(sem, view, batch.groups, row, 1)
    case Delete(row) => FitsRow(sem, view, batch.groups, row, -1)
    case Update(before, after) =>
      FitsRow(sem, view, batch.groups, before, -1) &&
      FitsRow(sem, view, ApplyRow(sem, view, batch, before, -1).0.groups, after, 1)
    case Truncate => true
  }

  ghost predicate FitsEvents(sem: Semantics, view: ViewSpec, batch: ViewBatch, events: seq<Event>)
    requires WellFormed(view, batch.groups)
    decreases |events|
  {
    events == [] ||
    (FitsEvent(sem, view, batch, events[0])
      && FitsEvents(sem, view, ApplyEvent(sem, view, batch, events[0]).0, events[1..]))
  }

  lemma AddDeltaIsExact(total: bool, current: int, sign: int, delta: int)
    requires sign == 1 || sign == -1
    requires Abs(delta) <= LIMIT && Abs(current + sign * delta) <= LIMIT
    ensures AddDelta(total, current, sign, delta) == current + sign * delta
  {
    ExactWithinLimit(sign * delta);
    ExactWithinLimit(current + sign * delta);
  }

  lemma AddDeltasIsExact(group: Vec, index: nat, agg: AggSpec, sign: int, d: Vec)
    requires index + |d| <= |group| && (sign == 1 || sign == -1)
    requires FitsVec(group[index..index + |d|], d, sign)
    ensures AddDeltas(group, index, agg, sign, d) ==
            group[..index] + Plus(group[index..index + |d|], Scale(sign, d)) + group[index + |d|..]
  {
    forall i | 0 <= i < |d|
      ensures AddDelta(IsTotal(agg, i), group[index + i], sign, d[i]) == group[index + i] + sign * d[i]
    {
      assert group[index..index + |d|][i] == group[index + i];
      AddDeltaIsExact(IsTotal(agg, i), group[index + i], sign, d[i]);
    }
  }

  lemma FitsParts(group: Vec, c: Vec, sign: int, w: nat)
    requires |group| == |c| && w <= |c| && FitsVec(group, c, sign)
    ensures FitsVec(group[..w], c[..w], sign) && FitsVec(group[w..], c[w..], sign)
  {
  }

  lemma SplitSum(group: Vec, c: Vec, sign: int, w: nat)
    requires |group| == |c| && w <= |c|
    ensures Plus(group, Scale(sign, c)) ==
            Plus(group[..w], Scale(sign, c[..w])) + Plus(group[w..], Scale(sign, c[w..]))
  {
  }

  /** One turn of the loop over aggregates: the head of the tail is summed, the rest untouched. */
  lemma OneAggregateIsExact(agg: AggSpec, group: Vec, index: nat, sign: int, d: Vec, rest: Vec)
    requires index + |d| + |rest| == |group| && (sign == 1 || sign == -1)
    requires FitsVec(group[index..], d + rest, sign)
    ensures var next := AddDeltas(group, index, agg, sign, d);
            && next[..index + |d|] == group[..index] + Plus(group[index..][..|d|], Scale(sign, d))
            && next[index + |d|..] == group[index..][|d|..]
            && FitsVec(next[index + |d|..], rest, sign)
            && Plus(group[index..], Scale(sign, d + rest)) ==
               Plus(group[index..][..|d|], Scale(sign, d)) + Plus(group[index..][|d|..], Scale(sign, rest))
  {
    var tail, w := group[index..], |d|;
    assert (d + rest)[..w] == d && (d + rest)[w..] == rest;
    assert tail[..w] == group[index..index + w] && tail[w..] == group[index + w..];
    FitsParts(tail, d + rest, sign, w);
    AddDeltasIsExact(group, index, agg, sign, d);
    Splice(group[..index], Plus(tail[..w], Scale(sign, d)), tail[w..], AddDeltas(group, index, agg, sign, d));
    SplitSum(tail, d + rest, sign, w);
  }

  lemma FirstAggregate(sem: Semantics, aggs: seq<AggSpec>, group: Vec, index: nat, row: Row, sign: int)
    requires aggs != [] && index + Widths(aggs) == |group| && (sign == 1 || sign == -1)
    requires AddAggregates(sem, aggs, group, index, row, sign).1 == None
    requires FitsVec(group[index..], Contributions(sem, aggs, row), sign)
    ensures var next := AddDeltas(group, index, aggs[0], sign, Contribution(sem, aggs[0], row));
            && AddAggregates(sem, aggs, group, index, row, sign) ==
               AddAggregates(sem, aggs[1..], next, index + Width(aggs[0]), row, sign)
            && FitsVec(next[index + Width(aggs[0])..], Contributions(sem, aggs[1..], row), sign)
  {
    var d, rest := Contribution(sem, aggs[0], row), Contributions(sem, aggs[1..], row);
    OneAggregateIsExact(aggs[0], group, index, sign, d, rest);
  }

  lemma OtherAggregates(sem: Semantics, aggs: seq<AggSpec>, group: Vec, index: nat, row: Row, sign: int, result: Vec)
    requires aggs != [] && index + Widths(aggs) == |group| && (sign == 1 || sign == -1)
    requires FitsVec(group[index..], Contributions(sem, aggs, row), sign)
    requires var next := AddDeltas(group, index, aggs[0], sign, Contribution(sem, aggs[0], row));
             var i := index + Width(aggs[0]);
             result == next[..i] + Plus(next[i..], Scale(sign, Contributions(sem, aggs[1..], row)))
    ensures result == group[..index] + Plus(group[index..], Scale(sign, Contributions(sem, aggs, row)))
  {
    var d, rest := Contribution(sem, aggs[0], row), Contributions(sem, aggs[1..], row);
    var next, tail := AddDeltas(group, index, aggs[0], sign, d), group[index..];
    OneAggregateIsExact(aggs[0], group, index, sign, d, rest);
    Regroup(group[..index], Plus(tail[..|d|], Scale(sign, d)), Plus(tail[|d|..], Scale(sign, rest)),
            next[..index + |d|], Plus(tail, Scale(sign, d + rest)));
  }

  lemma Regroup(a: Vec, p: Vec, q: Vec, head: Vec, whole: Vec)
    requires head == a + p && whole == p + q
    ensures head + q == a + whole
  {
    Associate(a, p, q);
  }

  lemma {:induction false} AddAggregatesIsExact(sem: Semantics, aggs: seq<AggSpec>, group: Vec, index: nat, row: Row,
                                                sign: int)
    requires index + Widths(aggs) == |group|
    requires sign == 1 || sign == -1
    requires AddAggregates(sem, aggs, group, index, row, sign).1 == None
    requires FitsVec(group[index..], Contributions(sem, aggs, row), sign)
    ensures AddAggregates(sem, aggs, group, index, row, sign).0 ==
            group[..index] + Plus(group[index..], Scale(sign, Contributions(sem, aggs, row)))
    decreases |aggs|
  {
    if aggs == [] {
      assert group[..index] == group;
    } else {
      FirstAggregate(sem, aggs, group, index, row, sign);
      var next := AddDeltas(group, index, aggs[0], sign, Contribution(sem, aggs[0], row));
      AddAggregatesIsExact(sem, aggs[1..], next, index + Width(aggs[0]), row, sign);
      OtherAggregates(sem, aggs, group, index, row, sign, AddAggregates(sem, aggs, group, index, row, sign).0);
    }
  }

  lemma Splice(a: Vec, b: Vec, c: Vec, whole: Vec)
    requires whole == a + b + c
    ensures whole[..|a| + |b|] == a + b && whole[|a| + |b|..] == c
  {
  }

  /** A row that is accepted and fits adds exactly its signed contribution to its group. */
  lemma ApplyRowIsExact(sem: Semantics, view: ViewSpec, batch: ViewBatch, row: Row, sign: int)
    requires WellFormed(view, batch.groups) && (sign == 1 || sign == -1)
    requires ApplyRow(sem, view, batch, row, sign).1 == None && FitsRow(sem, view, batch.groups, row, sign)
    ensures |Get(sem, batch.groups, MemKey(view, row), Zeros(VecLength(view)))| == VecLength(view)
    ensures ApplyRow(sem, view, batch, row, sign).0 ==
            batch.(groups := Put(sem, batch.groups, MemKey(view, row),
              Plus(Get(sem, batch.groups, MemKey(view, row), Zeros(VecLength(view))),
                Scale(sign, RowVec(sem, view, row)))))
  {
    GetHasLength(sem, view, batch.groups, MemKey(view, row));
    CounterThenAggregates(sem, view, Get(sem, batch.groups, MemKey(view, row), Zeros(VecLength(view))), row, sign);
  }

  lemma CounterThenAggregates(sem: Semantics, view: ViewSpec, group: Vec, row: Row, sign: int)
    requires |group| == VecLength(view) && (sign == 1 || sign == -1)
    requires AddAggregates(sem, view.aggregates, group[0 := group[0] + sign], 1, row, sign).1 == None
    requires FitsVec(group, RowVec(sem, view, row), sign)
    ensures AddAggregates(sem, view.aggregates, group[0 := group[0] + sign], 1, row, sign).0 ==
            Plus(group, Scale(sign, RowVec(sem, view, row)))
  {
    var c := RowVec(sem, view, row);
    var bumped := group[0 := group[0] + sign];
    assert c[1..] == Contributions(sem, view.aggregates, row) && bumped[1..] == group[1..];
    FitsParts(group, c, sign, 1);
    AddAggregatesIsExact(sem, view.aggregates, bumped, 1, row, sign);
    SplitSum(group, c, sign, 1);
    assert Plus(group[..1], Scale(sign, c[..1])) == bumped[..1];
  }

  // ---- totals per SQL group --------------------------------------------------------

  /** Sum of the deltas of all in-memory groups that the server sees as key k. */
  ghost function Total(view: ViewSpec, sem: Semantics, groups: Groups, k: Key): (v: Vec)
    requires WellFormed(view, groups)
    ensures |v| == VecLength(view)
  {
    if groups == [] then Zeros(VecLength(view))
    else if sem.eq(TargetKey(view, groups[0].key)) == k
    then Plus(groups[0].delta, Total(view, sem, groups[1..], k))
    else Total(view, sem, groups[1..], k)
  }

  ghost predicate Touched(view: ViewSpec, sem: Semantics, groups: Groups, k: Key) {
    groups != [] && (sem.eq(TargetKey(view, groups[0].key)) == k || Touched(view, sem, groups[1..], k))
  }

  lemma {:induction false} PutAddsToTotal(view: ViewSpec, sem: Semantics, groups: Groups, key: Key, d: Vec, k: Key)
    requires sem.Valid()
    requires WellFormed(view, groups) && |d| == VecLength(view) && |key| == |view.groupBy|
    ensures |Get(sem, groups, key, Zeros(VecLength(view)))| == VecLength(view)
    ensures var sum := Put(sem, groups, key, Plus(Get(sem, groups, key, Zeros(VecLength(view))), d));
            WellFormed(view, sum) &&
            Total(view, sem, sum, k) ==
            if sem.eq(TargetKey(view, key)) == k then Plus(Total(view, sem, groups, k), d)
            else Total(view, sem, groups, k)
  {
    GetHasLength(sem, view, groups, key);
    var sum := Put(sem, groups, key, Plus(Get(sem, groups, key, Zeros(VecLength(view))), d));
    PutIsWellFormed(sem, view, groups, key, Plus(Get(sem, groups, key, Zeros(VecLength(view))), d));
    if groups == [] {
      assert sum[1..] == [];
      assert Plus(Plus(Zeros(VecLength(view)), d), Zeros(VecLength(view))) == Plus(Zeros(VecLength(view)), d);
    } else if sem.same(groups[0].key, key) {
      assert sum[1..] == groups[1..];
      var rest := Total(view, sem, groups[1..], k);
      assert Plus(Plus(groups[0].delta, d), rest) == Plus(Plus(groups[0].delta, rest), d);
    } else {
      assert sum[1..] == Put(sem, groups[1..], key, Plus(Get(sem, groups[1..], key, Zeros(VecLength(view))), d));
      PutAddsToTotal(view, sem, groups[1..], key, d, k);
      var rest := Total(view, sem, groups[1..], k);
      assert Plus(groups[0].delta, Plus(rest, d)) == Plus(Plus(groups[0].delta, rest), d);
    }
  }

  // ---- the batch tracks the source --------------------------------------------------

  ghost function Start(batch: ViewBatch, rows: multiset<Row>): multiset<Row> {
    if batch.truncated then multiset{} else rows
  }

  /** Group k now = group k when the batch began (nothing, after a truncate) + its deltas. */
  ghost predicate Balanced(view: ViewSpec, sem: Semantics, batch: ViewBatch,
                           start: multiset<Row>, rows: multiset<Row>, k: Key)
    requires WellFormed(view, batch.groups)
  {
    TrueVec(sem, view, GroupOf(view, sem, rows, k)) ==
    Plus(TrueVec(sem, view, GroupOf(view, sem, Start(batch, start), k)), Total(view, sem, batch.groups, k))
  }

  ghost predicate Tracks(view: ViewSpec, sem: Semantics, batch: ViewBatch, start: multiset<Row>, rows: multiset<Row>) {
    && WellFormed(view, batch.groups)
    && (batch.truncated && view.groupBy == [] ==> batch.groups != [])
    && forall k :: Balanced(view, sem, batch, start, rows, k)
  }

  lemma EmptyBatchTracks(view: ViewSpec, sem: Semantics, rows: multiset<Row>)
    ensures Tracks(view, sem, EMPTY, rows, rows)
  {
    forall k ensures Balanced(view, sem, EMPTY, rows, rows, k) {
      var v := TrueVec(sem, view, GroupOf(view, sem, rows, k));
      assert Plus(v, Zeros(|v|)) == v;
    }
  }

  lemma TruncateTracks(view: ViewSpec, sem: Semantics, start: multiset<Row>)
    ensures Tracks(view, sem, ApplyTruncate(view), start, multiset{})
  {
    var batch := ApplyTruncate(view);
    var zeros := Zeros(VecLength(view));
    assert Plus(zeros, zeros) == zeros;
    forall k ensures Balanced(view, sem, batch, start, multiset{}, k) {
      assert GroupOf(view, sem, multiset{}, k) == multiset{};
      NoRowsNoVec(sem, view);
      if batch.groups != [] {
        assert batch.groups[1..] == [];
      }
    }
  }

  lemma GroupWithRow(view: ViewSpec, sem: Semantics, rows: multiset<Row>, row: Row, k: Key)
    ensures TrueVec(sem, view, GroupOf(view, sem, rows + multiset{row}, k)) ==
            if ClassOf(view, sem, row) == k
            then Plus(TrueVec(sem, view, GroupOf(view, sem, rows, k)), RowVec(sem, view, row))
            else TrueVec(sem, view, GroupOf(view, sem, rows, k))
  {
    GroupGrows(view, sem, rows, row, k);
    if ClassOf(view, sem, row) == k {
      RowIsAdded(sem, view, GroupOf(view, sem, rows, k), row);
    }
  }

  lemma GroupGrows(view: ViewSpec, sem: Semantics, rows: multiset<Row>, row: Row, k: Key)
    ensures GroupOf(view, sem, rows + multiset{row}, k) ==
            if ClassOf(view, sem, row) == k then GroupOf(view, sem, rows, k) + multiset{row}
            else GroupOf(view, sem, rows, k)
  {
  }

  lemma RowKeepsBalance(view: ViewSpec, sem: Semantics, batch: ViewBatch, start: multiset<Row>,
                        rows: multiset<Row>, row: Row, sign: int, k: Key)
    requires sem.Valid()
    requires WellFormed(view, batch.groups) && (sign == 1 || (sign == -1 && row in rows))
    requires ApplyRow(sem, view, batch, row, sign).1 == None && FitsRow(sem, view, batch.groups, row, sign)
    requires Balanced(view, sem, batch, start, rows, k)
    ensures Balanced(view, sem, ApplyRow(sem, view, batch, row, sign).0, start,
                     if sign == 1 then rows + multiset{row} else rows - multiset{row}, k)
  {
    var now := if sign == 1 then rows + multiset{row} else rows - multiset{row};
    var c := RowVec(sem, view, row);
    ApplyRowIsExact(sem, view, batch, row, sign);
    PutAddsToTotal(view, sem, batch.groups, MemKey(view, row), Scale(sign, c), k);
    if sign == 1 {
      GroupWithRow(view, sem, rows, row, k);
    } else {
      assert now + multiset{row} == rows;
      GroupWithRow(view, sem, now, row, k);
    }
    Cancel(TrueVec(sem, view, GroupOf(view, sem, Start(batch, start), k)), Total(view, sem, batch.groups, k),
           TrueVec(sem, view, GroupOf(view, sem, now, k)), c, sign);
  }

  lemma Cancel(base: Vec, total: Vec, now: Vec, c: Vec, sign: int)
    requires |base| == |total| == |now| == |c|
    ensures sign == 1 ==> Plus(Plus(base, total), c) == Plus(base, Plus(total, Scale(sign, c)))
    ensures sign == -1 && Plus(now, c) == Plus(base, total) ==> now == Plus(base, Plus(total, Scale(sign, c)))
  {
    if sign == -1 && Plus(now, c) == Plus(base, total) {
      forall i | 0 <= i < |now| ensures now[i] == base[i] + (total[i] + sign * c[i]) {
        assert Plus(now, c)[i] == Plus(base, total)[i];
      }
    }
  }

  lemma RowTracks(view: ViewSpec, sem: Semantics, batch: ViewBatch, start: multiset<Row>,
                  rows: multiset<Row>, row: Row, sign: int)
    requires sem.Valid()
    requires Tracks(view, sem, batch, start, rows) && (sign == 1 || (sign == -1 && row in rows))
    requires ApplyRow(sem, view, batch, row, sign).1 == None && FitsRow(sem, view, batch.groups, row, sign)
    ensures Tracks(view, sem, ApplyRow(sem, view, batch, row, sign).0, start,
                   if sign == 1 then rows + multiset{row} else rows - multiset{row})
  {
    ApplyRowIsExact(sem, view, batch, row, sign);
    var after := ApplyRow(sem, view, batch, row, sign).0;
    var now := if sign == 1 then rows + multiset{row} else rows - multiset{row};
    forall k ensures Balanced(view, sem, after, start, now, k) {
      RowKeepsBalance(view, sem, batch, start, rows, row, sign, k);
    }
  }

  lemma EventTracks(view: ViewSpec, sem: Semantics, batch: ViewBatch, start: multiset<Row>,
                    rows: multiset<Row>, e: Event)
    requires sem.Valid()
    requires Tracks(view, sem, batch, start, rows) && ValidEvent(rows, e)
    requires ApplyEvent(sem, view, batch, e).1 == None && FitsEvent(sem, view, batch, e)
    ensures Tracks(view, sem, ApplyEvent(sem, view, batch, e).0, start, RowsAfter(rows, e))
  {
    match e
    case Insert(row) => RowTracks(view, sem, batch, start, rows, row, 1);
    case Delete(row) => RowTracks(view, sem, batch, start, rows, row, -1);
    case Update(before, after) =>
      RowTracks(view, sem, batch, start, rows, before, -1);
      RowTracks(view, sem, ApplyRow(sem, view, batch, before, -1).0, start, rows - multiset{before}, after, 1);
    case Truncate => TruncateTracks(view, sem, start);
  }

  function ApplyEvents(sem: Semantics, view: ViewSpec, batch: ViewBatch,
                       events: seq<Event>): (r: (ViewBatch, Option<Error>))
    requires WellFormed(view, batch.groups)
    ensures WellFormed(view, r.0.groups)
    decreases |events|
  {
    if events == [] then (batch, None)
    else
      var (next, error) := ApplyEvent(sem, view, batch, events[0]);
      if error.Some? then (next, error) else ApplyEvents(sem, view, next, events[1..])
  }

  lemma {:induction false} EventsTrack(view: ViewSpec, sem: Semantics, batch: ViewBatch, start: multiset<Row>,
                                       rows: multiset<Row>, events: seq<Event>)
    requires sem.Valid()
    requires Tracks(view, sem, batch, start, rows) && ValidEvents(rows, events)
    requires ApplyEvents(sem, view, batch, events).1 == None && FitsEvents(sem, view, batch, events)
    ensures Tracks(view, sem, ApplyEvents(sem, view, batch, events).0, start, RowsAfterAll(rows, events))
    decreases |events|
  {
    if events != [] {
      EventTracks(view, sem, batch, start, rows, events[0]);
      EventsTrack(view, sem, ApplyEvent(sem, view, batch, events[0]).0, start, RowsAfter(rows, events[0]), events[1..]);
    }
  }
}
