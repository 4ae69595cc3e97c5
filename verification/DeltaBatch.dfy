/** The DeltaBatch object: the accumulator that a flush fills and turns into commands. */
module DeltaBatches {
  import opened Prelude
  import opened Views
  import opened Aggregates

  class DeltaBatch {
    const sem: Semantics
    const views: seq<ViewSpec>
    /** _deltas and membership in _truncated, by view name. */
    var state: BatchState

    ghost predicate Valid()
      reads this
    {
      DistinctNames(views) && BatchOf(views, state)
    }

    constructor (sem: Semantics, views: seq<ViewSpec>)
      requires DistinctNames(views)
      ensures Valid() && this.sem == sem && this.views == views && state == EmptyBatch(views)
    {
      this.sem, this.views := sem, views;
      this.state := EmptyBatch(views);
    }

    method ApplyInsert(view: Text, row: Row) returns (error: Option<Error>)
      requires Valid()
      modifies this
      ensures Valid() && (state, error) == ApplyOp(sem, views, old(state), Op(view, Insert(row)))
    {
      error := Apply(view, row, 1);
    }

    method ApplyDelete(view: Text, row: Row) returns (error: Option<Error>)
      requires Valid()
      modifies this
      ensures Valid() && (state, error) == ApplyOp(sem, views, old(state), Op(view, Delete(row)))
    {
      error := Apply(view, row, -1);
    }

    method ApplyUpdate(view: Text, before: Row, after: Row) returns (error: Option<Error>)
      requires Valid()
      modifies this
      ensures Valid() && (state, error) == ApplyOp(sem, views, old(state), Op(view, Update(before, after)))
    {
      error := Apply(view, before, -1);
      if error.None? {
        ghost var middle := state[view];
        error := Apply(view, after, 1);
        LastUpdateWins(old(state), view, middle, state[view]);
      }
    }

    method ApplyTruncate(view: Text) returns (error: Option<Error>)
      requires Valid()
      modifies this
      ensures Valid() && (state, error) == ApplyOp(sem, views, old(state), Op(view, Truncate))
    {
      var plan := FindView(views, view);
      if plan.None? {
        return Some(WalfluxError);
      }
      var seeds: Groups := [];
      if plan.value.groupBy == [] {
        seeds := [Entry([], Zeros(VecLength(plan.value)))];
      }
      Replacement(views, state, plan.value, ViewBatch(true, seeds));
      state := state[view := ViewBatch(true, seeds)];
      error := None;
    }

    /** _apply: checks the row, then adds its signed contribution to its group in place. */
    method Apply(view: Text, row: Row, sign: int) returns (error: Option<Error>)
      requires Valid()
      modifies this
      ensures Valid()
      ensures match FindView(views, view)
              case None => state == old(state) && error == Some(WalfluxError)
              case Some(v) =>
                var (vb, e) := ApplyRow(sem, v, old(state)[v.name], row, sign);
                state == old(state)[v.name := vb] && error == e
    {
      var plan := FindView(views, view);
      if plan.None? {
        return Some(WalfluxError);
      }
      var v := plan.value;
      var complete := ChecksColumns(NeededColumns(v), row);
      if !complete {
        SelfUpdate(state, view);
        return Some(SchemaDriftError);
      }
      var batch := state[view];
      var key := MemKey(v, row);
      GetHasLength(sem, v, batch.groups, key);
      var group := Get(sem, batch.groups, key, Zeros(VecLength(v)));
      var after;
      after, error := AddAll(sem, v, group[0 := group[0] + sign], row, sign);
      PutIsWellFormed(sem, v, batch.groups, key, after);
      Replacement(views, state, v, batch.(groups := Put(sem, batch.groups, key, after)));
      state := state[view := batch.(groups := Put(sem, batch.groups, key, after))];
    }

    /** statements: deletes of truncated views, then upserts, then the cleanups. */
    method Statements() returns (out: seq<Command>)
      requires Valid()
      ensures out == Aggregates.Statements(views, state)
    {
      var deletes := DeleteStatements();
      var upserts := UpsertStatements();
      var cleanups := CleanupStatements();
      out := deletes + upserts + cleanups;
    }

    method DeleteStatements() returns (out: seq<Command>)
      requires Valid()
      ensures out == Deletes(views, state)
    {
      out := [];
      for i := 0 to |views|
        invariant out + Deletes(views[i..], state) == Deletes(views, state)
      {
        NextDeletes(views, state, out, i);
        if state[views[i].name].truncated {
          out := out + [DeleteAll(views[i].name)];
        }
      }
    }

    method UpsertStatements() returns (out: seq<Command>)
      requires Valid()
      ensures out == Upserts(views, state)
    {
      out := [];
      for i := 0 to |views|
        invariant out + Upserts(views[i..], state) == Upserts(views, state)
      {
        Head(views, i);
        var one := UpsertsOfView(views[i], state[views[i].name].groups);
        Associate(out, one, Upserts(views[i + 1..], state));
        out := out + one;
      }
    }

    method CleanupStatements() returns (out: seq<Command>)
      requires Valid()
      ensures out == Cleanups(views, state)
    {
      out := [];
      for i := 0 to |views|
        invariant out + Cleanups(views[i..], state) == Cleanups(views, state)
      {
        NextCleanups(views, state, out, i);
        var batch := state[views[i].name];
        if views[i].groupBy != [] && (batch.truncated || batch.groups != []) {
          out := out + [DeleteEmpty(views[i].name)];
        }
      }
    }
  }

  method UpsertsOfView(view: ViewSpec, groups: Groups) returns (out: seq<Command>)
    ensures out == UpsertsOf(view, groups)
  {
    out := [];
    for j := 0 to |groups|
      invariant out + UpsertsOf(view, groups[j..]) == UpsertsOf(view, groups)
    {
      assert groups[j..][0] == groups[j] && groups[j..][1..] == groups[j + 1..];
      out := out + [Upsert(view.name, TargetKey(view, groups[j].key), groups[j].delta)];
    }
  }

  /** One turn of the loop over views appends the command of the view, if it has one. */
  lemma NextDeletes(views: seq<ViewSpec>, b: BatchState, out: seq<Command>, i: nat)
    requires i < |views| && forall v :: v in views ==> v.name in b
    ensures out + Deletes(views[i..], b) ==
            (if b[views[i].name].truncated then out + [DeleteAll(views[i].name)] else out) + Deletes(views[i + 1..], b)
  {
    Head(views, i);
    Associate(out, if b[views[i].name].truncated then [DeleteAll(views[i].name)] else [], Deletes(views[i + 1..], b));
    assert out + [] == out;
  }

  lemma NextCleanups(views: seq<ViewSpec>, b: BatchState, out: seq<Command>, i: nat)
    requires i < |views| && forall v :: v in views ==> v.name in b
    ensures out + Cleanups(views[i..], b) ==
            (if NeedsCleanup(views[i], b[views[i].name]) then out + [DeleteEmpty(views[i].name)] else out)
            + Cleanups(views[i + 1..], b)
  {
    Head(views, i);
    Associate(out, if NeedsCleanup(views[i], b[views[i].name]) then [DeleteEmpty(views[i].name)] else [],
              Cleanups(views[i + 1..], b));
    assert out + [] == out;
  }

  lemma Head(views: seq<ViewSpec>, i: nat)
    requires i < |views|
    ensures views[i..][0] == views[i] && views[i..][1..] == views[i + 1..]
  {
  }

  /** The check of every needed column, before anything is changed. */
  method ChecksColumns(needed: seq<Text>, row: Row) returns (complete: bool)
    ensures complete <==> HasColumns(needed, row)
  {
    for i := 0 to |needed|
      invariant forall j :: 0 <= j < i ==> needed[j] in row && row[needed[j]] != Unchanged
    {
      if needed[i] !in row || row[needed[i]] == Unchanged {
        return false;
      }
    }
    return true;
  }

  lemma SelfUpdate(b: BatchState, name: Text)
    requires name in b
    ensures b[name := b[name]] == b
  {
  }

  lemma LastUpdateWins(b: BatchState, name: Text, x: ViewBatch, y: ViewBatch)
    ensures b[name := x][name := y] == b[name := y]
  {
  }

  /** Replacing one view's part leaves a batch of the same views. */
  lemma Replacement(views: seq<ViewSpec>, b: BatchState, v: ViewSpec, vb: ViewBatch)
    requires DistinctNames(views) && BatchOf(views, b) && v in views && WellFormed(v, vb.groups)
    ensures BatchOf(views, b[v.name := vb])
  {
    forall w | w in views && w.name == v.name ensures w == v {
      var i :| 0 <= i < |views| && views[i] == v;
      var j :| 0 <= j < |views| && views[j] == w;
    }
  }

  /** The inner loop of _apply: the deltas of one aggregate, from its position of the vector. */
  method AddOne(start: Vec, first: nat, agg: AggSpec, sign: int, deltas: Vec) returns (group: Vec)
    requires first + |deltas| <= |start|
    ensures group == AddDeltas(start, first, agg, sign, deltas)
  {
    group := start;
    for j := 0 to |deltas|
      invariant |group| == |start|
      invariant forall k :: 0 <= k < |group| ==>
                  group[k] == if first <= k < first + j
                              then AddDelta(IsTotal(agg, k - first), start[k], sign, deltas[k - first])
                              else start[k]
    {
      group := group[first + j := AddDelta(IsTotal(agg, j), group[first + j], sign, deltas[j])];
    }
    assert group == AddDeltas(start, first, agg, sign, deltas);
  }

  /** The loop of _apply over aggregates, from position 1 of the vector. */
  method AddAll(sem: Semantics, v: ViewSpec, start: Vec, row: Row, sign: int) returns (group: Vec, error: Option<Error>)
    requires |start| == VecLength(v)
    ensures (group, error) == AddAggregates(sem, v.aggregates, start, 1, row, sign)
  {
    group, error := start, None;
    var index: nat := 1;
    for i := 0 to |v.aggregates|
      invariant index + Widths(v.aggregates[i..]) == |group|
      invariant AddAggregates(sem, v.aggregates[i..], group, index, row, sign) ==
                AddAggregates(sem, v.aggregates, start, 1, row, sign)
    {
      var agg := v.aggregates[i];
      assert v.aggregates[i..][0] == agg && v.aggregates[i..][1..] == v.aggregates[i + 1..];
      var deltas := AggDeltas(sem, agg, row);
      if deltas.Err? {
        return group, Some(deltas.error);
      }
      group := AddOne(group, index, agg, sign, deltas.value);
      index := index + |deltas.value|;
    }
  }
}
