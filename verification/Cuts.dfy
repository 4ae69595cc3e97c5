/**
  When the cut between two flushes shows.  Over valid histories it never does; over any events
  whatever, it does exactly where the cleanup after the first flush forgets something.
*/
module Cuts {
  import opened Prelude
  import opened Views
  import opened Aggregates
  import opened Maintenance
  import opened Targets
  import opened ViewResults

  /** Every row of the table counts source rows, as a cleanup leaves it. */
  ghost predicate Clean(t: Table) {
    forall k :: k in t ==> Counted(t[k])
  }

  /** What group k shows after the upserts of a flush and before its cleanup. */
  ghost function Shown(view: ViewSpec, sem: Semantics, batch: ViewBatch, t: Table, k: Key): (v: Vec)
    requires WellFormed(view, batch.groups) && HasWidth(t, VecLength(view))
    ensures |v| == VecLength(view)
  {
    var base: Table := if batch.truncated then map[] else t;
    Plus(Lookup(base, k, VecLength(view)), Total(view, sem, batch.groups, k))
  }

  /** A table that holds, for each key, its shown vector where that counts rows. */
  ghost predicate Keeps(view: ViewSpec, sem: Semantics, batch: ViewBatch, t: Table, u: Table)
    requires WellFormed(view, batch.groups) && HasWidth(t, VecLength(view))
  {
    && HasWidth(u, VecLength(view)) && Clean(u)
    && forall k :: (k in u <==> Counted(Shown(view, sem, batch, t, k))) &&
                   (k in u ==> u[k] == Shown(view, sem, batch, t, k))
  }

  lemma {:induction false} UntouchedTotal(view: ViewSpec, sem: Semantics, groups: Groups, k: Key)
    requires WellFormed(view, groups) && !Touched(view, sem, groups, k)
    ensures Total(view, sem, groups, k) == Zeros(VecLength(view))
  {
    if groups != [] {
      UntouchedTotal(view, sem, groups[1..], k);
    }
  }

  /** The commands of a flush, on any clean table of a grouped view, succeed and keep exactly the
      groups that show rows. */
  lemma FlushKeeps(view: ViewSpec, sem: Semantics, batch: ViewBatch, t: Table)
    requires view.groupBy != [] && WellFormed(view, batch.groups) && HasWidth(t, VecLength(view)) && Clean(t)
    ensures ExecTable(sem, t, ViewStatements(view, batch)).Some?
    ensures Keeps(view, sem, batch, t, ExecTable(sem, t, ViewStatements(view, batch)).value)
  {
    var n := VecLength(view);
    var base: Table := if batch.truncated then map[] else t;
    var deletes: seq<Command> := if batch.truncated then [DeleteAll(view.name)] else [];
    var upserts := UpsertsOf(view, batch.groups);
    var cleanup: seq<Command> := if NeedsCleanup(view, batch) then [DeleteEmpty(view.name)] else [];
    UpsertsAreUpserts(view, batch.groups);
    assert ExecTable(sem, t, deletes) == Some(base);
    ExecTableAppend(sem, t, deletes, upserts);
    UpsertsAdd(view, sem, base, batch.groups);
    var summed := ExecTable(sem, base, upserts).value;
    ExecTableAppend(sem, t, deletes + upserts, cleanup);
    CleanupKeeps(view, sem, batch, t, base, summed);
  }

  lemma CleanupKeeps(view: ViewSpec, sem: Semantics, batch: ViewBatch, t: Table, base: Table, summed: Table)
    requires view.groupBy != [] && WellFormed(view, batch.groups) && HasWidth(t, VecLength(view)) && Clean(t)
    requires base == if batch.truncated then map[] else t
    requires HasWidth(summed, VecLength(view))
    requires forall k :: Lookup(summed, k, VecLength(view)) ==
               Plus(Lookup(base, k, VecLength(view)), Total(view, sem, batch.groups, k))
    requires forall k :: k in summed <==> k in base || Touched(view, sem, batch.groups, k)
    ensures Keeps(view, sem, batch, t, if NeedsCleanup(view, batch) then WithoutEmpty(summed) else summed)
  {
    var n := VecLength(view);
    forall k
      ensures Lookup(summed, k, n) == Shown(view, sem, batch, t, k)
      ensures k !in summed ==> Shown(view, sem, batch, t, k) == Zeros(n)
    {
      if k !in summed {
        UntouchedTotal(view, sem, batch.groups, k);
      }
    }
    if !NeedsCleanup(view, batch) {
      forall k | k in summed ensures Counted(summed[k]) {
        UntouchedTotal(view, sem, batch.groups, k);
        assert summed[k] == Lookup(summed, k, n) == Plus(t[k], Zeros(n));
      }
    }
  }

  /** z is what x and then y come to in one batch. */
  ghost predicate Combines(view: ViewSpec, sem: Semantics, x: ViewBatch, y: ViewBatch, z: ViewBatch) {
    && WellFormed(view, x.groups) && WellFormed(view, y.groups) && WellFormed(view, z.groups)
    && z.truncated == (x.truncated || y.truncated)
    && forall k :: Total(view, sem, z.groups, k) ==
         if y.truncated then Total(view, sem, y.groups, k)
         else Plus(Total(view, sem, x.groups, k), Total(view, sem, y.groups, k))
  }

  lemma RowAddsToTotal(view: ViewSpec, sem: Semantics, batch: ViewBatch, row: Row, sign: int, k: Key)
    requires sem.Valid() && WellFormed(view, batch.groups) && (sign == 1 || sign == -1)
    requires ApplyRow(sem, view, batch, row, sign).1 == None && FitsRow(sem, view, batch.groups, row, sign)
    ensures Total(view, sem, ApplyRow(sem, view, batch, row, sign).0.groups, k) ==
            if ClassOf(view, sem, row) == k
            then Plus(Total(view, sem, batch.groups, k), Scale(sign, RowVec(sem, view, row)))
            else Total(view, sem, batch.groups, k)
  {
    ApplyRowIsExact(sem, view, batch, row, sign);
    PutAddsToTotal(view, sem, batch.groups, MemKey(view, row), Scale(sign, RowVec(sem, view, row)), k);
  }

  lemma RowCombines(view: ViewSpec, sem: Semantics, x: ViewBatch, y: ViewBatch, z: ViewBatch, row: Row, sign: int)
    requires sem.Valid() && Combines(view, sem, x, y, z) && Usable(sem, view, row) && (sign == 1 || sign == -1)
    requires FitsRow(sem, view, y.groups, row, sign) && FitsRow(sem, view, z.groups, row, sign)
    ensures Combines(view, sem, x, ApplyRow(sem, view, y, row, sign).0, ApplyRow(sem, view, z, row, sign).0)
  {
    RowAccepted(sem, view, y, row, sign);
    RowAccepted(sem, view, z, row, sign);
    var y', z' := ApplyRow(sem, view, y, row, sign).0, ApplyRow(sem, view, z, row, sign).0;
    forall k
      ensures Total(view, sem, z'.groups, k) ==
              if y'.truncated then Total(view, sem, y'.groups, k)
              else Plus(Total(view, sem, x.groups, k), Total(view, sem, y'.groups, k))
    {
      RowAddsToTotal(view, sem, y, row, sign, k);
      RowAddsToTotal(view, sem, z, row, sign, k);
      PlusAssociates(Total(view, sem, x.groups, k), Total(view, sem, y.groups, k), Scale(sign, RowVec(sem, view, row)));
    }
  }

  lemma EventCombines(view: ViewSpec, sem: Semantics, x: ViewBatch, y: ViewBatch, z: ViewBatch, e: Event)
    requires sem.Valid() && Combines(view, sem, x, y, z) && EventUsable(sem, view, e)
    requires FitsEvent(sem, view, y, e) && FitsEvent(sem, view, z, e)
    ensures Combines(view, sem, x, ApplyEvent(sem, view, y, e).0, ApplyEvent(sem, view, z, e).0)
  {
    match e
    case Insert(row) => RowCombines(view, sem, x, y, z, row, 1);
    case Delete(row) => RowCombines(view, sem, x, y, z, row, -1);
    case Update(before, after) =>
      RowAccepted(sem, view, y, before, -1);
      RowAccepted(sem, view, z, before, -1);
      RowCombines(view, sem, x, y, z, before, -1);
      RowCombines(view, sem, x, ApplyRow(sem, view, y, before, -1).0, ApplyRow(sem, view, z, before, -1).0, after, 1);
    case Truncate =>
  }

  /** Folding on from x is folding from nothing, combined with x. */
  lemma {:induction false} EventsCombine(view: ViewSpec, sem: Semantics, x: ViewBatch, y: ViewBatch, z: ViewBatch,
                                         events: seq<Event>)
    requires sem.Valid() && Combines(view, sem, x, y, z)
    requires forall i :: 0 <= i < |events| ==> EventUsable(sem, view, events[i])
    requires FitsEvents(sem, view, y, events) && FitsEvents(sem, view, z, events)
    ensures Combines(view, sem, x, ApplyEvents(sem, view, y, events).0, ApplyEvents(sem, view, z, events).0)
    decreases |events|
  {
    if events != [] {
      EventAccepted(sem, view, y, events[0]);
      EventAccepted(sem, view, z, events[0]);
      EventCombines(view, sem, x, y, z, events[0]);
      assert forall i :: 0 <= i < |events[1..]| ==> events[1..][i] == events[i + 1];
      EventsCombine(view, sem, x, ApplyEvent(sem, view, y, events[0]).0, ApplyEvent(sem, view, z, events[0]).0,
        events[1..]);
    }
  }

  lemma {:induction false} FoldAppend(view: ViewSpec, sem: Semantics, batch: ViewBatch, a: seq<Event>, b: seq<Event>)
    requires WellFormed(view, batch.groups)
    requires forall i :: 0 <= i < |a| ==> EventUsable(sem, view, a[i])
    ensures ApplyEvents(sem, view, batch, a + b) ==
            ApplyEvents(sem, view, ApplyEvents(sem, view, batch, a).0, b)
    ensures FitsEvents(sem, view, batch, a + b) <==>
            FitsEvents(sem, view, batch, a) && FitsEvents(sem, view, ApplyEvents(sem, view, batch, a).0, b)
    decreases |a|
  {
    if a == [] {
      assert a + b == b;
    } else {
      assert (a + b)[0] == a[0] && (a + b)[1..] == a[1..] + b;
      assert forall i :: 0 <= i < |a[1..]| ==> a[1..][i] == a[i + 1];
      EventAccepted(sem, view, batch, a[0]);
      FoldAppend(view, sem, ApplyEvent(sem, view, batch, a[0]).0, a[1..], b);
    }
  }

  /** The group is not forgotten by the first cleanup, or there is nothing to forget, or what the second
      batch brings does not show. */
  ghost predicate NotForgotten(shown: Vec, added: Vec)
    requires |shown| == |added|
  {
    Counted(shown) || shown == Zeros(|shown|) || !Counted(added)
  }

  /** One group under the two ways of flushing. */
  lemma GroupAgreesIff(shown: Vec, added: Vec)
    requires |shown| == |added| && |shown| > 0
    ensures var cut := Plus(if Counted(shown) then shown else Zeros(|shown|), added);
            var whole := Plus(shown, added);
            ((Counted(cut) <==> Counted(whole)) && (Counted(cut) ==> cut == whole)) <==> NotForgotten(shown, added)
  {
    var zeros := Zeros(|shown|);
    var cut := Plus(if Counted(shown) then shown else zeros, added);
    var whole := Plus(shown, added);
    if !Counted(shown) {
      assert cut == added;
      if shown != zeros {
        var i :| 0 <= i < |shown| && shown[i] != 0;
        assert whole[i] != cut[i];
      }
    }
  }

  /** Two batches and the batch they combine to leave the same table of a grouped view if and only if the
      second truncates it or no group is forgotten between them. */
  lemma CutShowsIff(view: ViewSpec, sem: Semantics, t: Table, x: ViewBatch, y: ViewBatch, z: ViewBatch)
    requires view.groupBy != [] && HasWidth(t, VecLength(view)) && Clean(t) && Combines(view, sem, x, y, z)
    ensures ExecTable(sem, t, ViewStatements(view, x)).Some?
    ensures ExecTable(sem, t, ViewStatements(view, z)) ==
            ExecTable(sem, ExecTable(sem, t, ViewStatements(view, x)).value, ViewStatements(view, y)) <==>
            y.truncated ||
            forall k :: NotForgotten(Shown(view, sem, x, t, k), Total(view, sem, y.groups, k))
  {
    FlushKeeps(view, sem, x, t);
    var mid := ExecTable(sem, t, ViewStatements(view, x)).value;
    FlushKeeps(view, sem, y, mid);
    FlushKeeps(view, sem, z, t);
    var cut := ExecTable(sem, mid, ViewStatements(view, y)).value;
    var whole := ExecTable(sem, t, ViewStatements(view, z)).value;
    forall k ensures SameAt(cut, whole, k) <==>
                     y.truncated || NotForgotten(Shown(view, sem, x, t, k), Total(view, sem, y.groups, k))
    {
      GroupOfCut(view, sem, t, x, y, z, mid, k);
      GroupAgreesIff(Shown(view, sem, x, t, k), Total(view, sem, y.groups, k));
    }
    SameIffSameAt(cut, whole);
  }

  ghost predicate SameAt(a: Table, b: Table, k: Key) {
    (k in a <==> k in b) && (k in a && k in b ==> a[k] == b[k])
  }

  lemma SameIffSameAt(a: Table, b: Table)
    ensures a == b <==> forall k :: SameAt(a, b, k)
  {
    if forall k :: SameAt(a, b, k) {
      assert forall k :: k in a ==> SameAt(a, b, k);
      assert forall k :: k in b ==> SameAt(a, b, k);
      assert a.Keys == b.Keys;
    }
  }

  /** What a group shows in the second flush and in the flush of the whole. */
  lemma GroupOfCut(view: ViewSpec, sem: Semantics, t: Table, x: ViewBatch, y: ViewBatch, z: ViewBatch, mid: Table,
                   k: Key)
    requires HasWidth(t, VecLength(view)) && Combines(view, sem, x, y, z) && Keeps(view, sem, x, t, mid)
    ensures var shown, added := Shown(view, sem, x, t, k), Total(view, sem, y.groups, k);
            if y.truncated then Shown(view, sem, y, mid, k) == Shown(view, sem, z, t, k)
            else
              && Shown(view, sem, y, mid, k) == Plus(if Counted(shown) then shown else Zeros(|shown|), added)
              && Shown(view, sem, z, t, k) == Plus(shown, added)
  {
    var n := VecLength(view);
    var base: Table := if x.truncated then map[] else t;
    PlusAssociates(Lookup(base, k, n), Total(view, sem, x.groups, k), Total(view, sem, y.groups, k));
  }

  lemma CombinesWithNothing(view: ViewSpec, sem: Semantics, x: ViewBatch)
    requires WellFormed(view, x.groups)
    ensures Combines(view, sem, x, EMPTY, x)
  {
    forall k ensures Plus(Total(view, sem, x.groups, k), Zeros(VecLength(view))) == Total(view, sem, x.groups, k) {
    }
  }

  lemma FoldsCombine(view: ViewSpec, sem: Semantics, a: seq<Event>, b: seq<Event>)
    requires sem.Valid()
    requires forall i :: 0 <= i < |a| ==> EventUsable(sem, view, a[i])
    requires forall i :: 0 <= i < |b| ==> EventUsable(sem, view, b[i])
    requires FitsEvents(sem, view, EMPTY, a + b) && FitsEvents(sem, view, EMPTY, b)
    ensures Combines(view, sem, ApplyEvents(sem, view, EMPTY, a).0, ApplyEvents(sem, view, EMPTY, b).0,
                     ApplyEvents(sem, view, EMPTY, a + b).0)
  {
    var x := ApplyEvents(sem, view, EMPTY, a).0;
    FoldAppend(view, sem, EMPTY, a, b);
    CombinesWithNothing(view, sem, x);
    EventsCombine(view, sem, x, EMPTY, x, b);
  }

  /** For any events whatever on a grouped view, valid or not: one flush of all of them and two flushes
      cut anywhere leave the same table if and only if a truncate follows the cut or no group whose
      counter the first flush leaves at or below zero is at once non-zero and shown again by the rest. */
  lemma CutMattersIff(view: ViewSpec, sem: Semantics, t: Table, a: seq<Event>, b: seq<Event>)
    requires sem.Valid() && view.groupBy != [] && HasWidth(t, VecLength(view)) && Clean(t)
    requires forall i :: 0 <= i < |a| ==> EventUsable(sem, view, a[i])
    requires forall i :: 0 <= i < |b| ==> EventUsable(sem, view, b[i])
    requires FitsEvents(sem, view, EMPTY, a + b) && FitsEvents(sem, view, EMPTY, b)
    ensures var x, y := ApplyEvents(sem, view, EMPTY, a).0, ApplyEvents(sem, view, EMPTY, b).0;
            var z := ApplyEvents(sem, view, EMPTY, a + b).0;
            var first := ExecTable(sem, t, ViewStatements(view, x));
            && first.Some?
            && (ExecTable(sem, t, ViewStatements(view, z)) == ExecTable(sem, first.value, ViewStatements(view, y)) <==>
                y.truncated ||
                forall k :: NotForgotten(Shown(view, sem, x, t, k), Total(view, sem, y.groups, k)))
  {
    FoldsCombine(view, sem, a, b);
    CutShowsIff(view, sem, t, ApplyEvents(sem, view, EMPTY, a).0, ApplyEvents(sem, view, EMPTY, b).0,
                ApplyEvents(sem, view, EMPTY, a + b).0);
  }
}
