/**
  From batches to tables: the commands of a flush, executed in order on targets that hold the
  views of a history, leave targets that hold the views of the longer history.
*/
module Targets {
  import opened Prelude
  import opened Views
  import opened Aggregates
  import opened Maintenance

  // ---- one table ---------------------------------------------------------------

  ghost function Lookup(t: Table, k: Key, n: nat): Vec {
    if k in t then t[k] else Zeros(n)
  }

  ghost predicate HasWidth(t: Table, n: nat) {
    forall k :: k in t ==> |t[k]| == n
  }

  /** The row counter of a group is positive exactly when the group has rows. */
  lemma CountedIffRows(sem: Semantics, view: ViewSpec, rows: multiset<Row>)
    ensures Counted(TrueVec(sem, view, rows)) <==> rows != multiset{}
  {
    if rows != multiset{} {
      assert Pick(rows) in rows;
    }
  }

  lemma GroupHasRow(view: ViewSpec, sem: Semantics, rows: multiset<Row>, k: Key)
    ensures GroupOf(view, sem, rows, k) != multiset{} <==> k in (set r | r in rows :: ClassOf(view, sem, r))
  {
    if GroupOf(view, sem, rows, k) != multiset{} {
      var r := Pick(GroupOf(view, sem, rows, k));
      assert r in rows && ClassOf(view, sem, r) == k;
    }
    if k in (set r | r in rows :: ClassOf(view, sem, r)) {
      var r :| r in rows && ClassOf(view, sem, r) == k;
      assert r in GroupOf(view, sem, rows, k);
    }
  }

  lemma GlobalGroup(view: ViewSpec, sem: Semantics, rows: multiset<Row>, k: Key)
    requires view.groupBy == []
    ensures GroupOf(view, sem, rows, k) == if k == sem.eq([Bool(true)]) then rows else multiset{}
  {
    assert forall r :: TargetKey(view, MemKey(view, r)) == [Bool(true)];
  }

  lemma GroundTruthLookup(view: ViewSpec, sem: Semantics, rows: multiset<Row>, k: Key)
    ensures Lookup(GroundTruth(view, sem, rows), k, VecLength(view)) == TrueVec(sem, view, GroupOf(view, sem, rows, k))
    ensures view.groupBy != [] ==>
              (k in GroundTruth(view, sem, rows) <==> Counted(TrueVec(sem, view, GroupOf(view, sem, rows, k))))
  {
    NoRowsNoVec(sem, view);
    if view.groupBy == [] {
      GlobalGroup(view, sem, rows, k);
    } else {
      GroupHasRow(view, sem, rows, k);
      CountedIffRows(sem, view, GroupOf(view, sem, rows, k));
    }
  }

  /** Commands of one view, run in order on its table. */
  function ExecTable(sem: Semantics, t: Table, cmds: seq<Command>): Option<Table>
    requires forall c :: c in cmds ==> !c.SetCheckpoint?
    decreases |cmds|
  {
    if cmds == [] then Some(t)
    else
      match ExecOn(sem, t, cmds[0])
      case None => None
      case Some(next) => ExecTable(sem, next, cmds[1..])
  }

  lemma {:induction false} ExecTableAppend(sem: Semantics, t: Table, a: seq<Command>, b: seq<Command>)
    requires forall c :: c in a + b ==> !c.SetCheckpoint?
    requires ExecTable(sem, t, a).Some?
    ensures ExecTable(sem, t, a + b) == ExecTable(sem, ExecTable(sem, t, a).value, b)
    decreases |a|
  {
    if a == [] {
      assert a + b == b;
    } else {
      assert (a + b)[0] == a[0] && (a + b)[1..] == a[1..] + b;
      ExecTableAppend(sem, ExecOn(sem, t, a[0]).value, a[1..], b);
    }
  }

  lemma {:induction false} UpsertsAreUpserts(view: ViewSpec, groups: Groups)
    ensures forall c :: c in UpsertsOf(view, groups) ==> c.Upsert? && c.view == view.name
  {
    if groups != [] {
      UpsertsAreUpserts(view, groups[1..]);
    }
  }

  /** Upserts add: whatever their order and however the in-memory keys split a SQL group. */
  lemma {:induction false} UpsertsAdd(view: ViewSpec, sem: Semantics, t: Table, groups: Groups)
    requires WellFormed(view, groups) && HasWidth(t, VecLength(view))
    requires forall c :: c in UpsertsOf(view, groups) ==> !c.SetCheckpoint?
    ensures ExecTable(sem, t, UpsertsOf(view, groups)).Some?
    ensures var t' := ExecTable(sem, t, UpsertsOf(view, groups)).value;
            && HasWidth(t', VecLength(view))
            && (forall k :: Lookup(t', k, VecLength(view)) ==
                  Plus(Lookup(t, k, VecLength(view)), Total(view, sem, groups, k)))
            && (forall k :: k in t' <==> k in t || Touched(view, sem, groups, k))
    decreases |groups|
  {
    var n := VecLength(view);
    if groups == [] {
      forall k ensures Plus(Lookup(t, k, n), Zeros(n)) == Lookup(t, k, n) {
      }
    } else {
      var cmds := UpsertsOf(view, groups);
      assert cmds[1..] == UpsertsOf(view, groups[1..]);
      assert forall c :: c in cmds[1..] ==> c in cmds;
      var next := UpsertInto(sem, t, TargetKey(view, groups[0].key), groups[0].delta).value;
      UpsertsAdd(view, sem, next, groups[1..]);
      var t' := ExecTable(sem, t, cmds).value;
      forall k ensures Lookup(t', k, n) == Plus(Lookup(t, k, n), Total(view, sem, groups, k)) {
        OneUpsertAdds(view, sem, t, groups, k);
      }
    }
  }

  lemma OneUpsertAdds(view: ViewSpec, sem: Semantics, t: Table, groups: Groups, k: Key)
    requires WellFormed(view, groups) && HasWidth(t, VecLength(view)) && groups != []
    ensures UpsertInto(sem, t, TargetKey(view, groups[0].key), groups[0].delta).Some?
    ensures var next := UpsertInto(sem, t, TargetKey(view, groups[0].key), groups[0].delta).value;
            && HasWidth(next, VecLength(view))
            && Plus(Lookup(next, k, VecLength(view)), Total(view, sem, groups[1..], k)) ==
               Plus(Lookup(t, k, VecLength(view)), Total(view, sem, groups, k))
  {
    var n := VecLength(view);
    var next := UpsertInto(sem, t, TargetKey(view, groups[0].key), groups[0].delta).value;
    if sem.eq(TargetKey(view, groups[0].key)) == k {
      assert Lookup(next, k, n) == Plus(Lookup(t, k, n), groups[0].delta);
      PlusAssociates(Lookup(t, k, n), groups[0].delta, Total(view, sem, groups[1..], k));
    }
  }

  lemma PlusAssociates(a: Vec, b: Vec, c: Vec)
    requires |a| == |b| == |c|
    ensures Plus(Plus(a, b), c) == Plus(a, Plus(b, c))
  {
  }

  /** The commands of a flush that concern one view. */
  function ViewStatements(view: ViewSpec, batch: ViewBatch): (cmds: seq<Command>)
    ensures forall c :: c in cmds ==> !c.SetCheckpoint? && c.view == view.name
  {
    UpsertsAreUpserts(view, batch.groups);
    (if batch.truncated then [DeleteAll(view.name)] else [])
    + UpsertsOf(view, batch.groups)
    + (if NeedsCleanup(view, batch) then [DeleteEmpty(view.name)] else [])
  }

  lemma GlobalTouch(view: ViewSpec, sem: Semantics, groups: Groups, k: Key)
    requires view.groupBy == [] && WellFormed(view, groups)
    ensures Touched(view, sem, groups, k) <==> groups != [] && k == sem.eq([Bool(true)])
  {
    if groups != [] {
      assert groups[0].key == [];
      assert TargetKey(view, groups[0].key) == [Bool(true)];
      GlobalTouch(view, sem, groups[1..], k);
    }
  }

  /** Lookup equality plus the right keys is table equality. */
  lemma SameTable(a: Table, b: Table, n: nat)
    requires forall k :: Lookup(a, k, n) == Lookup(b, k, n)
    requires forall k :: k in a <==> k in b
    ensures a == b
  {
    forall k | k in a ensures a[k] == b[k] {
      assert Lookup(a, k, n) == Lookup(b, k, n);
    }
  }

  lemma UpsertsReachTruth(view: ViewSpec, sem: Semantics, batch: ViewBatch, start: multiset<Row>, rows: multiset<Row>)
    requires Tracks(view, sem, batch, start, rows)
    ensures var base := if batch.truncated then map[] else GroundTruth(view, sem, start);
            forall k :: Plus(Lookup(base, k, VecLength(view)), Total(view, sem, batch.groups, k)) ==
                        Lookup(GroundTruth(view, sem, rows), k, VecLength(view))
  {
    var n := VecLength(view);
    var base := if batch.truncated then map[] else GroundTruth(view, sem, start);
    forall k
      ensures Plus(Lookup(base, k, n), Total(view, sem, batch.groups, k)) == Lookup(GroundTruth(view, sem, rows), k, n)
    {
      assert Balanced(view, sem, batch, start, rows, k);
      GroundTruthLookup(view, sem, rows, k);
      GroundTruthLookup(view, sem, start, k);
      assert GroupOf(view, sem, multiset{}, k) == multiset{};
      NoRowsNoVec(sem, view);
    }
  }

  /** The per-view theorem: the batch takes the view of `start` to the view of `rows`. */
  lemma ViewIsMaintained(view: ViewSpec, sem: Semantics, batch: ViewBatch, start: multiset<Row>, rows: multiset<Row>)
    requires Tracks(view, sem, batch, start, rows)
    ensures ExecTable(sem, GroundTruth(view, sem, start), ViewStatements(view, batch)) ==
            Some(GroundTruth(view, sem, rows))
  {
    var n := VecLength(view);
    var before, truth := GroundTruth(view, sem, start), GroundTruth(view, sem, rows);
    var base: Table := if batch.truncated then map[] else before;
    var deletes: seq<Command> := if batch.truncated then [DeleteAll(view.name)] else [];
    var upserts := UpsertsOf(view, batch.groups);
    var cleanup: seq<Command> := if NeedsCleanup(view, batch) then [DeleteEmpty(view.name)] else [];
    UpsertsAreUpserts(view, batch.groups);
    assert ExecTable(sem, before, deletes) == Some(base);
    ExecTableAppend(sem, before, deletes, upserts);
    UpsertsAdd(view, sem, base, batch.groups);
    var summed := ExecTable(sem, base, upserts).value;
    ExecTableAppend(sem, before, deletes + upserts, cleanup);
    UpsertsReachTruth(view, sem, batch, start, rows);
    assert forall k :: Lookup(summed, k, n) == Lookup(truth, k, n);
    CleanupReachesTruth(view, sem, batch, start, rows, summed);
  }

  lemma CleanupReachesTruth(view: ViewSpec, sem: Semantics, batch: ViewBatch, start: multiset<Row>,
                            rows: multiset<Row>, summed: Table)
    requires Tracks(view, sem, batch, start, rows)
    requires forall k :: Lookup(summed, k, VecLength(view)) == Lookup(GroundTruth(view, sem, rows), k, VecLength(view))
    requires forall k :: k in summed <==>
               (!batch.truncated && k in GroundTruth(view, sem, start)) || Touched(view, sem, batch.groups, k)
    ensures (if NeedsCleanup(view, batch) then WithoutEmpty(summed) else summed) == GroundTruth(view, sem, rows)
  {
    var n := VecLength(view);
    var truth := GroundTruth(view, sem, rows);
    if view.groupBy == [] {
      forall k ensures k in summed <==> k in truth {
        GlobalTouch(view, sem, batch.groups, k);
      }
      SameTable(summed, truth, n);
    } else if NeedsCleanup(view, batch) {
      var kept := WithoutEmpty(summed);
      forall k ensures (k in kept <==> k in truth) && Lookup(kept, k, n) == Lookup(truth, k, n) {
        GroundTruthLookup(view, sem, rows, k);
        assert Lookup(summed, k, n) == Lookup(truth, k, n);
        NoRowsNoVec(sem, view);
        CountedIffRows(sem, view, GroupOf(view, sem, rows, k));
      }
      SameTable(kept, truth, n);
    } else {
      forall k ensures k in summed <==> k in truth {
        GroundTruthLookup(view, sem, rows, k);
        GroundTruthLookup(view, sem, start, k);
        assert Balanced(view, sem, batch, start, rows, k);
        assert Lookup(summed, k, n) == Lookup(truth, k, n);
      }
      SameTable(summed, truth, n);
    }
  }

  // ---- the groups, told by columns ------------------------------------------------

  ghost predicate HasGroupColumns(view: ViewSpec, row: Row) {
    forall i :: 0 <= i < |view.groupBy| ==> view.groupBy[i] in row
  }

  /** The values of the group columns, in their order. */
  ghost function GroupValues(view: ViewSpec, row: Row): Key
    requires HasGroupColumns(view, row)
  {
    seq(|view.groupBy|, i requires 0 <= i < |view.groupBy| => row[view.groupBy[i]])
  }

  /** Two rows have the same value in every group column. */
  ghost predicate AgreeOnGroup(view: ViewSpec, a: Row, b: Row) {
    forall i :: 0 <= i < |view.groupBy| ==>
      view.groupBy[i] in a && view.groupBy[i] in b && a[view.groupBy[i]] == b[view.groupBy[i]]
  }

  /** The server takes no two keys for equal that are not the same values. */
  ghost predicate TellsKeysApart(sem: Semantics) {
    forall a, b :: sem.eq(a) == sem.eq(b) ==> a == b
  }

  /** The key of a row has one entry for each group column, in their order: the value of that column. */
  lemma KeyIsColumns(view: ViewSpec, row: Row)
    ensures |MemKey(view, row)| == |view.groupBy|
    ensures forall i :: 0 <= i < |view.groupBy| && view.groupBy[i] in row ==>
              MemKey(view, row)[i] == row[view.groupBy[i]]
    ensures HasGroupColumns(view, row) ==> MemKey(view, row) == GroupValues(view, row)
  {
    if HasGroupColumns(view, row) {
      assert forall i :: 0 <= i < |view.groupBy| ==> MemKey(view, row)[i] == GroupValues(view, row)[i];
    }
  }

  lemma SameValuesIff(view: ViewSpec, a: Row, b: Row)
    requires HasGroupColumns(view, a) && HasGroupColumns(view, b)
    ensures GroupValues(view, a) == GroupValues(view, b) <==> AgreeOnGroup(view, a, b)
  {
    if GroupValues(view, a) == GroupValues(view, b) {
      forall i | 0 <= i < |view.groupBy| ensures a[view.groupBy[i]] == b[view.groupBy[i]] {
        assert GroupValues(view, a)[i] == GroupValues(view, b)[i];
      }
    }
  }

  /** The rows that the server puts in one group with r. */
  ghost function WithRow(view: ViewSpec, sem: Semantics, rows: multiset<Row>, r: Row): multiset<Row>
    requires HasGroupColumns(view, r)
  {
    Filter(rows, q => HasGroupColumns(view, q) && sem.eq(GroupValues(view, q)) == sem.eq(GroupValues(view, r)))
  }

  lemma GroupIsWithRow(view: ViewSpec, sem: Semantics, rows: multiset<Row>, r: Row)
    requires view.groupBy != [] && HasGroupColumns(view, r) && forall q :: q in rows ==> HasGroupColumns(view, q)
    ensures GroupOf(view, sem, rows, sem.eq(GroupValues(view, r))) == WithRow(view, sem, rows, r)
  {
    var k := sem.eq(GroupValues(view, r));
    forall q | q in rows ensures ClassOf(view, sem, q) == sem.eq(GroupValues(view, q)) {
      KeyIsColumns(view, q);
    }
    forall q ensures GroupOf(view, sem, rows, k)[q] == WithRow(view, sem, rows, r)[q] {
    }
  }

  /** The entry of a row in the target of a grouped view is its group columns; it holds the aggregates of
      the rows that the server puts in one group with it, and counts them; there are no other entries. */
  lemma EntriesAreGroups(view: ViewSpec, sem: Semantics, rows: multiset<Row>, r: Row)
    requires view.groupBy != [] && r in rows && forall q :: q in rows ==> HasGroupColumns(view, q)
    ensures var t, k := GroundTruth(view, sem, rows), sem.eq(GroupValues(view, r));
            && k in t && t[k] == TrueVec(sem, view, WithRow(view, sem, rows, r))
            && t[k][0] == |WithRow(view, sem, rows, r)|
    ensures forall k :: k in GroundTruth(view, sem, rows) ==>
              exists q :: q in rows && HasGroupColumns(view, q) && k == sem.eq(GroupValues(view, q))
  {
    KeyIsColumns(view, r);
    GroupIsWithRow(view, sem, rows, r);
    forall k | k in GroundTruth(view, sem, rows)
      ensures exists q :: q in rows && HasGroupColumns(view, q) && k == sem.eq(GroupValues(view, q))
    {
      var q :| q in rows && ClassOf(view, sem, q) == k;
      KeyIsColumns(view, q);
    }
  }

  lemma SameKeyIff(view: ViewSpec, sem: Semantics, a: Row, b: Row)
    requires HasGroupColumns(view, a) && HasGroupColumns(view, b) && TellsKeysApart(sem)
    ensures sem.eq(GroupValues(view, a)) == sem.eq(GroupValues(view, b)) <==> AgreeOnGroup(view, a, b)
  {
    SameValuesIff(view, a, b);
  }

  lemma WithRowAgrees(view: ViewSpec, sem: Semantics, rows: multiset<Row>, r: Row)
    requires HasGroupColumns(view, r) && TellsKeysApart(sem)
    ensures WithRow(view, sem, rows, r) == Filter(rows, q => AgreeOnGroup(view, q, r))
  {
    var k := sem.eq(GroupValues(view, r));
    SameFilter(rows, q => HasGroupColumns(view, q) && sem.eq(GroupValues(view, q)) == k,
               q => AgreeOnGroup(view, q, r)) by {
      forall q ensures (HasGroupColumns(view, q) && sem.eq(GroupValues(view, q)) == k) == AgreeOnGroup(view, q, r) {
        if HasGroupColumns(view, q) {
          SameKeyIff(view, sem, q, r);
        }
      }
    }
  }

  lemma SameFilter(rows: multiset<Row>, p: Row -> bool, q: Row -> bool)
    requires forall r :: p(r) == q(r)
    ensures Filter(rows, p) == Filter(rows, q)
  {
    forall r ensures Filter(rows, p)[r] == Filter(rows, q)[r] {
    }
  }

  /** Where the server tells all different keys apart: two rows are counted in one entry if and only if
      they agree on every group column, and an entry counts the rows that agree. */
  lemma EntryIsAgreement(view: ViewSpec, sem: Semantics, rows: multiset<Row>, a: Row, b: Row)
    requires view.groupBy != [] && a in rows && b in rows && forall q :: q in rows ==> HasGroupColumns(view, q)
    requires TellsKeysApart(sem)
    ensures sem.eq(GroupValues(view, a)) in GroundTruth(view, sem, rows)
    ensures sem.eq(GroupValues(view, a)) == sem.eq(GroupValues(view, b)) <==> AgreeOnGroup(view, a, b)
    ensures GroundTruth(view, sem, rows)[sem.eq(GroupValues(view, a))][0] ==
            |Filter(rows, q => AgreeOnGroup(view, q, a))|
  {
    EntriesAreGroups(view, sem, rows, a);
    SameKeyIff(view, sem, a, b);
    WithRowAgrees(view, sem, rows, a);
  }

  /** A global view has one entry, over all rows. */
  lemma GlobalEntry(view: ViewSpec, sem: Semantics, rows: multiset<Row>)
    requires view.groupBy == []
    ensures GroundTruth(view, sem, rows).Keys == {sem.eq([Bool(true)])}
    ensures GroundTruth(view, sem, rows)[sem.eq([Bool(true)])][0] == |rows|
  {
  }
}
