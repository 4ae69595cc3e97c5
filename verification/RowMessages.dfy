/**
  From decoded messages to operations on views: relation tracking, decoding of row images and the
  replacement of unchanged-TOAST markers, as functions, and what they promise.
*/
module RowMessages {
  import opened Prelude
  import opened Protocol
  import opened Views
  import opened Aggregates
  import opened Flushes
  import opened ViewResults

  /** convert_value: the value of a text cell of a column of the given type. */
  type Convert = (Text, nat) -> Result<Value>

  /** _relations, and _view_rel_ids: the ids that ever resolved to a view. */
  datatype Relations = Relations(known: map<nat, Relation>, fed: set<nat>)

  const NO_RELATIONS := Relations(map[], {})

  function TableOf(rel: Relation): TableId { TableId(rel.schema, rel.name) }

  /** The views over a table, in configuration order. */
  function ViewsOf(views: seq<ViewSpec>, t: TableId): seq<ViewSpec> {
    if views == [] then []
    else (if views[0].source == t then [views[0]] else []) + ViewsOf(views[1..], t)
  }

  function Names(columns: seq<Column>): set<Text> {
    set c | c in columns :: c.name
  }

  predicate Provides(rel: Relation, view: ViewSpec) {
    forall i :: 0 <= i < |NeededColumns(view)| ==> NeededColumns(view)[i] in Names(rel.columns)
  }

  predicate ProvidesAll(rel: Relation, vs: seq<ViewSpec>) {
    forall i :: 0 <= i < |vs| ==> Provides(rel, vs[i])
  }

  /** _on_relation: the state after the message, and the error that halts the daemon if any. */
  function OnRelation(views: seq<ViewSpec>, rels: Relations, rel: Relation): (Relations, Option<Error>) {
    var known := rels.known[rel.relId := rel];
    var vs := ViewsOf(views, TableOf(rel));
    if vs == [] then
      (rels.(known := known), if rel.relId in rels.fed then Some(SchemaDriftError) else None)
    else
      (Relations(known, rels.fed + {rel.relId}), if ProvidesAll(rel, vs) then None else Some(SchemaDriftError))
  }

  // ---- rows -----------------------------------------------------------------------

  function CellValue(convert: Convert, cell: Cell, typeOid: nat): Result<Value> {
    match cell
    case NullCell => Ok(Null)
    case UnchangedCell => Ok(Unchanged)
    case TextCell(text) => convert(text, typeOid)
  }

  /** Adds the cells to the row one by one; a tuple of another length than the columns is refused. */
  function DecodeOnto(convert: Convert, row: Row, columns: seq<Column>, tuple: Tuple): Result<Row>
    decreases |columns|
  {
    if columns == [] && tuple == [] then Ok(row)
    else if columns == [] || tuple == [] then Err(RuntimeError)
    else
      var value :- CellValue(convert, tuple[0], columns[0].typeOid);
      DecodeOnto(convert, row[columns[0].name := value], columns[1..], tuple[1..])
  }

  function DecodeRow(convert: Convert, rel: Relation, tuple: Tuple): Result<Row> {
    DecodeOnto(convert, map[], rel.columns, tuple)
  }

  /** An unchanged column of the new image has the value of the old image. */
  function Substituted(before: Row, after: Row): Row {
    map name | name in after :: if after[name] == Unchanged then Field(before, name) else after[name]
  }

  function OpsFor(vs: seq<ViewSpec>, event: Event): (ops: seq<Op>)
    ensures |ops| == |vs|
  {
    seq(|vs|, i requires 0 <= i < |vs| => Op(vs[i].name, event))
  }

  function TruncateOps(views: seq<ViewSpec>, known: map<nat, Relation>, relIds: seq<nat>): seq<Op> {
    if relIds == [] then []
    else
      (if relIds[0] in known then OpsFor(ViewsOf(views, TableOf(known[relIds[0]])), Truncate) else [])
      + TruncateOps(views, known, relIds[1..])
  }

  predicate IsRowMessage(m: Message) {
    m.InsertMsg? || m.UpdateMsg? || m.DeleteMsg? || m.TruncateMsg?
  }

  /** The event of a row message on a relation that feeds a view. */
  function RowEvent(convert: Convert, rel: Relation, m: Message): Result<Event>
    requires IsRowMessage(m) && !m.TruncateMsg?
  {
    match m
    case InsertMsg(_, tuple) =>
      var row :- DecodeRow(convert, rel, tuple);
      Ok(Insert(row))
    case UpdateMsg(_, before, _, tuple) =>
      if before.None? then Err(SchemaDriftError)
      else
        var prior :- DecodeRow(convert, rel, before.value);
        var next :- DecodeRow(convert, rel, tuple);
        Ok(Update(prior, Substituted(prior, next)))
    case DeleteMsg(_, before, _) =>
      if before.None? then Err(SchemaDriftError)
      else
        var row :- DecodeRow(convert, rel, before.value);
        Ok(Delete(row))
  }

  /** _row_ops */
  function RowOps(views: seq<ViewSpec>, convert: Convert, known: map<nat, Relation>, m: Message): Result<seq<Op>>
    requires IsRowMessage(m)
  {
    if m.TruncateMsg? then Ok(TruncateOps(views, known, m.relIds))
    else if m.relId !in known then Err(ProtocolError)
    else
      var vs := ViewsOf(views, TableOf(known[m.relId]));
      if vs == [] then Ok([])
      else
        var event :- RowEvent(convert, known[m.relId], m);
        Ok(OpsFor(vs, event))
  }

  // ---- what the server says ----------------------------------------------------------

  /** The cell is how the server sends the value: NULL and an unchanged TOAST value by their kind, any
      other value as its text. */
  ghost predicate Sends(convert: Convert, cell: Cell, typeOid: nat, value: Value) {
    match cell
    case NullCell => value == Null
    case UnchangedCell => value == Unchanged
    case TextCell(text) => convert(text, typeOid) == Ok(value)
  }

  /** The tuple is the image of the row under these columns. */
  ghost predicate Image(convert: Convert, columns: seq<Column>, tuple: Tuple, row: Row) {
    && |tuple| == |columns| && row.Keys == Names(columns)
    && forall i :: 0 <= i < |columns| ==> Sends(convert, tuple[i], columns[i].typeOid, row[columns[i].name])
  }

  /** The same, but a column with the value of the old row may be sent as unchanged. */
  ghost predicate NewImage(convert: Convert, columns: seq<Column>, tuple: Tuple, before: Row, after: Row) {
    && |tuple| == |columns| && after.Keys == before.Keys == Names(columns)
    && forall i :: 0 <= i < |columns| ==>
         if tuple[i].UnchangedCell? then after[columns[i].name] == before[columns[i].name]
         else Sends(convert, tuple[i], columns[i].typeOid, after[columns[i].name])
  }

  /** A server's catalogue has no two columns of one name, and text cells are plain values. */
  ghost predicate Sound(convert: Convert, columns: seq<Column>) {
    && DistinctColumns(columns)
    && forall text, typeOid :: convert(text, typeOid) != Ok(Unchanged)
  }

  function TruncateChanges(known: map<nat, Relation>, relIds: seq<nat>): seq<Change> {
    if relIds == [] then []
    else
      (if relIds[0] in known
       then [Change(TableId(known[relIds[0]].schema, known[relIds[0]].name), Truncate)] else [])
      + TruncateChanges(known, relIds[1..])
  }

  /** Under the relations sent so far, the message stands for these source changes. */
  ghost predicate Carries(convert: Convert, known: map<nat, Relation>, m: Message, changes: seq<Change>)
    requires IsRowMessage(m)
  {
    if m.TruncateMsg? then changes == TruncateChanges(known, m.relIds)
    else
      && m.relId in known && |changes| == 1
      && var rel := known[m.relId];
      && Sound(convert, rel.columns)
      && changes[0].table.schema == rel.schema && changes[0].table.name == rel.name
      && match m
         case InsertMsg(_, tuple) =>
           changes[0].event.Insert? && Image(convert, rel.columns, tuple, changes[0].event.row)
         case UpdateMsg(_, before, _, tuple) =>
           changes[0].event.Update? && before.Some?
           && Image(convert, rel.columns, before.value, changes[0].event.before)
           && NewImage(convert, rel.columns, tuple, changes[0].event.before, changes[0].event.after)
         case DeleteMsg(_, before, _) =>
           changes[0].event.Delete? && before.Some?
           && Image(convert, rel.columns, before.value, changes[0].event.row)
  }

  // ---- update reconstruction -------------------------------------------------------------

  ghost predicate DistinctColumns(columns: seq<Column>) {
    forall i, j :: 0 <= i < j < |columns| ==> columns[i].name != columns[j].name
  }

  /** Each column of the row has the value of its cell. */
  ghost predicate Decoded(convert: Convert, columns: seq<Column>, tuple: Tuple, row: Row) {
    && |tuple| == |columns|
    && forall i :: 0 <= i < |columns| ==>
         columns[i].name in row && CellValue(convert, tuple[i], columns[i].typeOid) == Ok(row[columns[i].name])
  }

  ghost predicate KeepsOthers(before: Row, after: Row, columns: seq<Column>) {
    forall name :: name in before && name !in Names(columns) ==> name in after && after[name] == before[name]
  }

  lemma HeadColumn(columns: seq<Column>)
    requires columns != []
    ensures Names(columns) == {columns[0].name} + Names(columns[1..])
    ensures DistinctColumns(columns) ==> columns[0].name !in Names(columns[1..]) && DistinctColumns(columns[1..])
  {
    assert columns == [columns[0]] + columns[1..];
  }

  lemma DecodedGrows(convert: Convert, columns: seq<Column>, tuple: Tuple, row: Row)
    requires columns != [] && tuple != [] && Decoded(convert, columns[1..], tuple[1..], row)
    requires columns[0].name in row && CellValue(convert, tuple[0], columns[0].typeOid) == Ok(row[columns[0].name])
    ensures Decoded(convert, columns, tuple, row)
  {
    forall i | 0 <= i < |columns|
      ensures columns[i].name in row && CellValue(convert, tuple[i], columns[i].typeOid) == Ok(row[columns[i].name])
    {
      if i > 0 {
        assert columns[i] == columns[1..][i - 1] && tuple[i] == tuple[1..][i - 1];
      }
    }
  }

  ghost predicate CellsOk(convert: Convert, columns: seq<Column>, tuple: Tuple) {
    && |tuple| == |columns|
    && forall i :: 0 <= i < |columns| ==> CellValue(convert, tuple[i], columns[i].typeOid).Ok?
  }

  lemma CellsOkTail(convert: Convert, columns: seq<Column>, tuple: Tuple)
    requires columns != [] && CellsOk(convert, columns, tuple)
    ensures CellsOk(convert, columns[1..], tuple[1..])
  {
  }

  /** Decoding, column by column: the row so far keeps what it has, each column gets its cell. */
  lemma {:induction false} DecodesColumns(convert: Convert, row: Row, columns: seq<Column>, tuple: Tuple)
    requires DistinctColumns(columns) && CellsOk(convert, columns, tuple)
    ensures DecodeOnto(convert, row, columns, tuple).Ok?
    ensures var r := DecodeOnto(convert, row, columns, tuple).value;
            r.Keys == row.Keys + Names(columns) && Decoded(convert, columns, tuple, r) && KeepsOthers(row, r, columns)
    decreases |columns|
  {
    if columns != [] {
      var next := row[columns[0].name := CellValue(convert, tuple[0], columns[0].typeOid).value];
      CellsOkTail(convert, columns, tuple);
      HeadColumn(columns);
      DecodesColumns(convert, next, columns[1..], tuple[1..]);
      DecodedGrows(convert, columns, tuple, DecodeOnto(convert, row, columns, tuple).value);
    }
  }

  lemma ImageDecodes(convert: Convert, rel: Relation, tuple: Tuple, row: Row)
    requires Sound(convert, rel.columns) && Image(convert, rel.columns, tuple, row)
    ensures DecodeRow(convert, rel, tuple) == Ok(row)
  {
    DecodesColumns(convert, map[], rel.columns, tuple);
    SameRow(DecodeRow(convert, rel, tuple).value, row, rel.columns);
  }

  lemma SameRow(a: Row, b: Row, columns: seq<Column>)
    requires a.Keys == b.Keys == Names(columns)
    requires forall i :: 0 <= i < |columns| ==> a[columns[i].name] == b[columns[i].name]
    ensures a == b
  {
    forall name | name in a ensures a[name] == b[name] {
      var c :| c in columns && c.name == name;
      var i :| 0 <= i < |columns| && columns[i] == c;
    }
  }

  lemma NewCellsOk(convert: Convert, columns: seq<Column>, tuple: Tuple, before: Row, after: Row)
    requires NewImage(convert, columns, tuple, before, after)
    ensures CellsOk(convert, columns, tuple)
  {
  }

  /** Substitution gives each column its new value. */
  lemma SubstitutionRestores(convert: Convert, columns: seq<Column>, tuple: Tuple, before: Row, after: Row, next: Row,
                             i: nat)
    requires Sound(convert, columns) && NewImage(convert, columns, tuple, before, after)
    requires Decoded(convert, columns, tuple, next) && i < |columns|
    ensures Substituted(before, next)[columns[i].name] == after[columns[i].name]
  {
    var name := columns[i].name;
    assert columns[i] in columns && name in Names(columns);
    match tuple[i]
    case NullCell =>
    case UnchangedCell => assert next[name] == Unchanged;
    case TextCell(text) => assert convert(text, columns[i].typeOid) != Ok(Unchanged);
  }

  /** The new row is whole again after substitution. */
  lemma NewImageDecodes(convert: Convert, rel: Relation, tuple: Tuple, before: Row, after: Row)
    requires Sound(convert, rel.columns) && NewImage(convert, rel.columns, tuple, before, after)
    ensures DecodeRow(convert, rel, tuple).Ok?
    ensures Substituted(before, DecodeRow(convert, rel, tuple).value) == after
  {
    NewCellsOk(convert, rel.columns, tuple, before, after);
    DecodesColumns(convert, map[], rel.columns, tuple);
    var next := DecodeRow(convert, rel, tuple).value;
    forall i | 0 <= i < |rel.columns|
      ensures Substituted(before, next)[rel.columns[i].name] == after[rel.columns[i].name]
    {
      SubstitutionRestores(convert, rel.columns, tuple, before, after, next, i);
    }
    SameRow(Substituted(before, next), after, rel.columns);
  }

  lemma OneMoreOp(view: ViewSpec, vs: seq<ViewSpec>, t: TableId, e: Event)
    ensures OpsFor((if view.source == t then [view] else []) + vs, e) ==
            (if view.source == t then [Op(view.name, e)] else []) + OpsFor(vs, e)
  {
  }

  lemma {:induction false} OpsOfIsOpsFor(views: seq<ViewSpec>, t: TableId, e: Event)
    ensures OpsOf(views, Change(t, e)) == OpsFor(ViewsOf(views, t), e)
  {
    if views != [] {
      OpsOfIsOpsFor(views[1..], t, e);
      OneMoreOp(views[0], ViewsOf(views[1..], t), t, e);
    }
  }

  lemma OpsOfOneMore(views: seq<ViewSpec>, change: Change, rest: seq<Change>)
    ensures OpsOfAll(views, [change] + rest) == OpsOf(views, change) + OpsOfAll(views, rest)
  {
    assert ([change] + rest)[1..] == rest;
  }

  lemma {:induction false} TruncatesAreOps(views: seq<ViewSpec>, known: map<nat, Relation>, relIds: seq<nat>)
    ensures TruncateOps(views, known, relIds) == OpsOfAll(views, TruncateChanges(known, relIds))
  {
    if relIds != [] {
      TruncatesAreOps(views, known, relIds[1..]);
      if relIds[0] in known {
        var t := TableOf(known[relIds[0]]);
        OpsOfIsOpsFor(views, t, Truncate);
        OpsOfOneMore(views, Change(t, Truncate), TruncateChanges(known, relIds[1..]));
      } else {
        assert TruncateChanges(known, relIds) == TruncateChanges(known, relIds[1..]);
        assert TruncateOps(views, known, relIds) == TruncateOps(views, known, relIds[1..]);
      }
    }
  }

  /** A message that carries source changes is decoded into exactly the operations of those changes
      on every view: a column sent as unchanged is given back its old value. */
  lemma ChangesAreReconstructed(views: seq<ViewSpec>, convert: Convert, known: map<nat, Relation>, m: Message,
                                changes: seq<Change>)
    requires IsRowMessage(m) && Carries(convert, known, m, changes)
    ensures RowOps(views, convert, known, m) == Ok(OpsOfAll(views, changes))
  {
    if m.TruncateMsg? {
      TruncatesAreOps(views, known, m.relIds);
    } else {
      var rel := known[m.relId];
      EventIsReconstructed(convert, known, m, changes);
      OpsOfIsOpsFor(views, TableOf(rel), changes[0].event);
      assert changes == [Change(TableOf(rel), changes[0].event)] + [];
      OpsOfOneMore(views, changes[0], []);
      assert OpsOf(views, changes[0]) + [] == OpsOf(views, changes[0]);
    }
  }

  lemma EventIsReconstructed(convert: Convert, known: map<nat, Relation>, m: Message, changes: seq<Change>)
    requires IsRowMessage(m) && !m.TruncateMsg? && Carries(convert, known, m, changes)
    ensures RowEvent(convert, known[m.relId], m) == Ok(changes[0].event)
  {
    var rel, e := known[m.relId], changes[0].event;
    match m
    case InsertMsg(_, tuple) => ImageDecodes(convert, rel, tuple, e.row);
    case UpdateMsg(_, before, _, tuple) =>
      ImageDecodes(convert, rel, before.value, e.before);
      NewImageDecodes(convert, rel, tuple, e.before, e.after);
    case DeleteMsg(_, before, _) => ImageDecodes(convert, rel, before.value, e.row);
  }

  // ---- relations ---------------------------------------------------------------------------

  /** Every id that fed a view resolves to a table whose views find all their columns. */
  ghost predicate Resolved(views: seq<ViewSpec>, rels: Relations) {
    && (forall id :: id in rels.fed ==> id in rels.known && ViewsOf(views, TableOf(rels.known[id])) != [])
    && (forall id :: id in rels.known && ViewsOf(views, TableOf(rels.known[id])) != [] ==>
          id in rels.fed && ProvidesAll(rels.known[id], ViewsOf(views, TableOf(rels.known[id]))))
  }

  /** The relation state after messages, or the error at the first one that is refused. */
  function After(views: seq<ViewSpec>, convert: Convert, rels: Relations, msgs: seq<Message>): Result<Relations>
    decreases |msgs|
  {
    if msgs == [] then Ok(rels)
    else if msgs[0].RelationMsg? then
      var (next, error) := OnRelation(views, rels, msgs[0].rel);
      if error.Some? then Err(error.value) else After(views, convert, next, msgs[1..])
    else if IsRowMessage(msgs[0]) then
      var _ :- RowOps(views, convert, rels.known, msgs[0]);
      After(views, convert, rels, msgs[1..])
    else After(views, convert, rels, msgs[1..])
  }

  /** The view is over the table that the relation describes. */
  ghost predicate Over(view: ViewSpec, rel: Relation) {
    view.source.schema == rel.schema && view.source.name == rel.name
  }

  /** The relation has a column of that name. */
  ghost predicate HasColumn(rel: Relation, name: Text) {
    exists i :: 0 <= i < |rel.columns| && rel.columns[i].name == name
  }

  /** The relation has every group column of the view and every column that it aggregates. */
  ghost predicate Suffices(rel: Relation, view: ViewSpec) {
    && (forall i :: 0 <= i < |view.groupBy| ==> HasColumn(rel, view.groupBy[i]))
    && (forall i :: 0 <= i < |view.aggregates| && !view.aggregates[i].CountAll? ==>
          HasColumn(rel, view.aggregates[i].column))
  }

  lemma {:induction false} AggColumnsAre(aggs: seq<AggSpec>, name: Text)
    ensures name in AggColumns(aggs) <==> exists i :: 0 <= i < |aggs| && !aggs[i].CountAll? && aggs[i].column == name
  {
    if aggs != [] {
      AggColumnsAre(aggs[1..], name);
      if name in AggColumns(aggs[1..]) {
        var i :| 0 <= i < |aggs[1..]| && !aggs[1..][i].CountAll? && aggs[1..][i].column == name;
        assert !aggs[i + 1].CountAll? && aggs[i + 1].column == name;
      }
      if i :| 0 < i < |aggs| && !aggs[i].CountAll? && aggs[i].column == name {
        assert !aggs[1..][i - 1].CountAll? && aggs[1..][i - 1].column == name;
      }
    }
  }

  /** The columns that a view needs are its group columns and the columns that it aggregates. */
  lemma NeededColumnsAre(view: ViewSpec, name: Text)
    ensures name in NeededColumns(view) <==>
            || (exists i :: 0 <= i < |view.groupBy| && view.groupBy[i] == name)
            || (exists i :: 0 <= i < |view.aggregates| && !view.aggregates[i].CountAll?
                            && view.aggregates[i].column == name)
  {
    AggColumnsAre(view.aggregates, name);
  }

  lemma NamesAre(rel: Relation, name: Text)
    ensures name in Names(rel.columns) <==> HasColumn(rel, name)
  {
    if HasColumn(rel, name) {
      var i :| 0 <= i < |rel.columns| && rel.columns[i].name == name;
      assert rel.columns[i] in rel.columns;
    }
  }

  lemma ProvidesIff(rel: Relation, view: ViewSpec)
    ensures Provides(rel, view) <==> Suffices(rel, view)
  {
    var needed := NeededColumns(view);
    if Provides(rel, view) {
      forall name | name in needed ensures HasColumn(rel, name) {
        var i :| 0 <= i < |needed| && needed[i] == name;
        NamesAre(rel, name);
      }
      forall i | 0 <= i < |view.groupBy| ensures HasColumn(rel, view.groupBy[i]) {
        NeededColumnsAre(view, view.groupBy[i]);
      }
      forall i | 0 <= i < |view.aggregates| && !view.aggregates[i].CountAll?
        ensures HasColumn(rel, view.aggregates[i].column)
      {
        NeededColumnsAre(view, view.aggregates[i].column);
      }
    }
    if Suffices(rel, view) {
      forall i | 0 <= i < |needed| ensures needed[i] in Names(rel.columns) {
        NeededColumnsAre(view, needed[i]);
        NamesAre(rel, needed[i]);
      }
    }
  }

  /** Some view is over the table of the relation. */
  ghost predicate Feeds(views: seq<ViewSpec>, rel: Relation) { exists v :: v in views && Over(v, rel) }

  lemma FeedsIff(views: seq<ViewSpec>, rel: Relation)
    ensures Feeds(views, rel) <==> ViewsOf(views, TableOf(rel)) != []
  {
    var vs := ViewsOf(views, TableOf(rel));
    if Feeds(views, rel) {
      var v :| v in views && Over(v, rel);
      ViewsOfAre(views, TableOf(rel), v);
    } else if vs != [] {
      ViewsOfAre(views, TableOf(rel), vs[0]);
      assert false;
    }
  }

  /** A Relation message is refused if and only if a view over its table lacks a column, or there is no
      such view and its id fed one before; an accepted one is remembered, as feeding if it does. */
  lemma RelationRefusedIff(views: seq<ViewSpec>, rels: Relations, rel: Relation)
    ensures var (next, error) := OnRelation(views, rels, rel);
            && (error.Some? <==> (exists v :: v in views && Over(v, rel) && !Suffices(rel, v))
                                 || (!Feeds(views, rel) && rel.relId in rels.fed))
            && (error.Some? ==> error == Some(SchemaDriftError))
            && next.known == rels.known[rel.relId := rel]
            && next.fed == if Feeds(views, rel) then rels.fed + {rel.relId} else rels.fed
  {
    var vs := ViewsOf(views, TableOf(rel));
    FeedsIff(views, rel);
    if v :| v in views && Over(v, rel) && !Suffices(rel, v) {
      ViewsOfAre(views, TableOf(rel), v);
      ProvidesIff(rel, v);
      assert !ProvidesAll(rel, vs);
    }
    if i :| 0 <= i < |vs| && !Provides(rel, vs[i]) {
      ViewsOfAre(views, TableOf(rel), vs[i]);
      ProvidesIff(rel, vs[i]);
    }
  }

  /** Where the views over the table of a relation stand, in configuration order. */
  ghost predicate Places(views: seq<ViewSpec>, rel: Relation, at: seq<nat>) {
    && (forall i, j :: 0 <= i < j < |at| ==> at[i] < at[j])
    && (forall i :: 0 <= i < |at| ==> at[i] < |views| && Over(views[at[i]], rel))
    && (forall k :: 0 <= k < |views| && Over(views[k], rel) ==> k in at)
  }

  function OneOn(later: seq<nat>): (at: seq<nat>)
    ensures |at| == |later| && forall i :: 0 <= i < |later| ==> at[i] == later[i] + 1
  {
    seq(|later|, i requires 0 <= i < |later| => later[i] + 1)
  }

  /** The same places when one more view is in front, which is one of them or not. */
  function Behind(first: bool, later: seq<nat>): seq<nat> { (if first then [0] else []) + OneOn(later) }

  lemma PlacesGrow(views: seq<ViewSpec>, rel: Relation, later: seq<nat>, k: nat)
    requires views != [] && Places(views[1..], rel, later) && k < |views| && Over(views[k], rel)
    ensures k in Behind(Over(views[0], rel), later)
  {
    if k > 0 {
      assert views[1..][k - 1] == views[k];
      var i :| 0 <= i < |later| && later[i] == k - 1;
      assert OneOn(later)[i] == k;
    }
  }

  lemma BehindAscends(views: seq<ViewSpec>, rel: Relation, later: seq<nat>, i: nat)
    requires views != [] && Places(views[1..], rel, later) && i < |Behind(Over(views[0], rel), later)|
    ensures var at := Behind(Over(views[0], rel), later);
            at[i] < |views| && Over(views[at[i]], rel) && forall j :: i < j < |at| ==> at[i] < at[j]
  {
    var at := Behind(Over(views[0], rel), later);
    var o := if Over(views[0], rel) then 1 else 0;
    assert forall j :: o <= j < |at| ==> at[j] == later[j - o] + 1;
    if i >= o {
      assert views[1..][later[i - o]] == views[at[i]];
    }
  }

  lemma BehindPlaces(views: seq<ViewSpec>, rel: Relation, later: seq<nat>)
    requires views != [] && Places(views[1..], rel, later)
    ensures Places(views, rel, Behind(Over(views[0], rel), later))
  {
    var at := Behind(Over(views[0], rel), later);
    forall i | 0 <= i < |at|
      ensures at[i] < |views| && Over(views[at[i]], rel) && forall j :: i < j < |at| ==> at[i] < at[j]
    {
      BehindAscends(views, rel, later, i);
    }
    forall k | 0 <= k < |views| && Over(views[k], rel) ensures k in at {
      PlacesGrow(views, rel, later, k);
    }
  }

  /** The views found for a relation are those at the places. */
  ghost predicate Found(views: seq<ViewSpec>, rel: Relation, at: seq<nat>) {
    && |at| == |ViewsOf(views, TableOf(rel))|
    && forall i :: 0 <= i < |at| ==> at[i] < |views| && ViewsOf(views, TableOf(rel))[i] == views[at[i]]
  }

  lemma BehindFound(views: seq<ViewSpec>, rel: Relation, later: seq<nat>)
    requires views != [] && Found(views[1..], rel, later)
    ensures Found(views, rel, Behind(Over(views[0], rel), later))
  {
  }

  lemma {:induction false} ViewsOfPlaces(views: seq<ViewSpec>, rel: Relation) returns (at: seq<nat>)
    ensures Places(views, rel, at) && Found(views, rel, at)
  {
    if views == [] {
      at := [];
    } else {
      var later := ViewsOfPlaces(views[1..], rel);
      BehindPlaces(views, rel, later);
      BehindFound(views, rel, later);
      at := Behind(Over(views[0], rel), later);
    }
  }

  /** The operations of an accepted row message are those of the views over its table, one for each, in
      configuration order, all with the event of the message. */
  lemma RowOpsAre(views: seq<ViewSpec>, convert: Convert, known: map<nat, Relation>, m: Message)
    returns (at: seq<nat>)
    requires IsRowMessage(m) && !m.TruncateMsg? && m.relId in known
    ensures Places(views, known[m.relId], at)
    ensures var r := RowOps(views, convert, known, m);
            if at == [] then r == Ok([])
            else if RowEvent(convert, known[m.relId], m).Err? then r == Err(RowEvent(convert, known[m.relId], m).error)
            else
              && r.Ok? && |r.value| == |at|
              && forall i :: 0 <= i < |at| ==>
                   r.value[i] == Op(views[at[i]].name, RowEvent(convert, known[m.relId], m).value)
  {
    at := ViewsOfPlaces(views, known[m.relId]);
  }

  // ---- what is refused ----------------------------------------------------------------------

  /** One cell for each column, and every text can be converted. */
  ghost predicate Convertible(convert: Convert, columns: seq<Column>, tuple: Tuple) {
    && |tuple| == |columns|
    && forall i :: 0 <= i < |columns| && tuple[i].TextCell? ==> convert(tuple[i].text, columns[i].typeOid).Ok?
  }

  lemma ConvertibleHead(convert: Convert, columns: seq<Column>, tuple: Tuple)
    requires columns != [] && tuple != []
    ensures Convertible(convert, columns, tuple) <==>
            CellValue(convert, tuple[0], columns[0].typeOid).Ok? && Convertible(convert, columns[1..], tuple[1..])
  {
    if Convertible(convert, columns[1..], tuple[1..]) && CellValue(convert, tuple[0], columns[0].typeOid).Ok? {
      forall i | 0 <= i < |columns| && tuple[i].TextCell? ensures convert(tuple[i].text, columns[i].typeOid).Ok? {
        if i > 0 {
          assert tuple[1..][i - 1] == tuple[i] && columns[1..][i - 1] == columns[i];
        }
      }
    }
  }

  lemma {:induction false} DecodesIff(convert: Convert, row: Row, columns: seq<Column>, tuple: Tuple)
    ensures DecodeOnto(convert, row, columns, tuple).Ok? <==> Convertible(convert, columns, tuple)
    decreases |columns|
  {
    if columns != [] && tuple != [] {
      ConvertibleHead(convert, columns, tuple);
      if CellValue(convert, tuple[0], columns[0].typeOid).Ok? {
        var next := row[columns[0].name := CellValue(convert, tuple[0], columns[0].typeOid).value];
        DecodesIff(convert, next, columns[1..], tuple[1..]);
      }
    }
  }

  /** The message brings the row images that its kind needs, and they can be decoded. */
  ghost predicate Complete(convert: Convert, rel: Relation, m: Message)
    requires IsRowMessage(m)
  {
    match m
    case InsertMsg(_, tuple) => Convertible(convert, rel.columns, tuple)
    case UpdateMsg(_, before, _, tuple) =>
      && before.Some? && Convertible(convert, rel.columns, before.value)
      && Convertible(convert, rel.columns, tuple)
    case DeleteMsg(_, before, _) => before.Some? && Convertible(convert, rel.columns, before.value)
    case TruncateMsg(_, _) => true
  }

  lemma EventIff(convert: Convert, rel: Relation, m: Message)
    requires IsRowMessage(m) && !m.TruncateMsg?
    ensures RowEvent(convert, rel, m).Ok? <==> Complete(convert, rel, m)
    ensures (m.UpdateMsg? || m.DeleteMsg?) && m.before.None? ==> RowEvent(convert, rel, m) == Err(SchemaDriftError)
  {
    match m
    case InsertMsg(_, tuple) => DecodesIff(convert, map[], rel.columns, tuple);
    case UpdateMsg(_, before, _, tuple) =>
      if before.Some? {
        DecodesIff(convert, map[], rel.columns, before.value);
        DecodesIff(convert, map[], rel.columns, tuple);
      }
    case DeleteMsg(_, before, _) =>
      if before.Some? {
        DecodesIff(convert, map[], rel.columns, before.value);
      }
  }

  /** A row message is refused if and only if it names an unknown relation, or its relation feeds a view
      and it comes without the old row of an update or delete, or with an image that cannot be decoded. */
  lemma RowRefusedIff(views: seq<ViewSpec>, convert: Convert, known: map<nat, Relation>, m: Message)
    requires IsRowMessage(m)
    ensures RowOps(views, convert, known, m).Ok? <==>
            || m.TruncateMsg?
            || (m.relId in known && (Feeds(views, known[m.relId]) ==> Complete(convert, known[m.relId], m)))
    ensures !m.TruncateMsg? && m.relId !in known ==> RowOps(views, convert, known, m) == Err(ProtocolError)
    ensures (m.UpdateMsg? || m.DeleteMsg?) && m.before.None? && m.relId in known && Feeds(views, known[m.relId]) ==>
              RowOps(views, convert, known, m) == Err(SchemaDriftError)
  {
    if !m.TruncateMsg? && m.relId in known {
      var rel := known[m.relId];
      FeedsIff(views, rel);
      EventIff(convert, rel, m);
    }
  }

  /** The last definition of a relation among the messages. */
  function Latest(msgs: seq<Message>, id: nat): Option<Relation> {
    if msgs == [] then None
    else
      var later := Latest(msgs[1..], id);
      if later.Some? then later
      else if msgs[0].RelationMsg? && msgs[0].rel.relId == id then Some(msgs[0].rel)
      else None
  }

  lemma OneRelationKeeps(views: seq<ViewSpec>, rels: Relations, rel: Relation)
    requires Resolved(views, rels) && OnRelation(views, rels, rel).1 == None
    ensures Resolved(views, OnRelation(views, rels, rel).0)
  {
  }

  lemma {:induction false} AfterTracks(views: seq<ViewSpec>, convert: Convert, rels: Relations, msgs: seq<Message>)
    requires Resolved(views, rels) && After(views, convert, rels, msgs).Ok?
    ensures var r := After(views, convert, rels, msgs).value;
            && Resolved(views, r) && rels.fed <= r.fed
            && forall id :: (if id in r.known then Some(r.known[id]) else None) ==
                 match Latest(msgs, id)
                 case Some(rel) => Some(rel)
                 case None => if id in rels.known then Some(rels.known[id]) else None
    decreases |msgs|
  {
    if msgs != [] {
      if msgs[0].RelationMsg? {
        OneRelationKeeps(views, rels, msgs[0].rel);
        AfterTracks(views, convert, OnRelation(views, rels, msgs[0].rel).0, msgs[1..]);
      } else {
        AfterTracks(views, convert, rels, msgs[1..]);
      }
    }
  }

  /** Under every accepted message sequence each id stands for the latest definition of it, and an
      id that fed a view at any point still resolves to views that find all their columns. */
  lemma RelationsStayResolved(views: seq<ViewSpec>, convert: Convert, msgs: seq<Message>, id: nat, i: nat)
    requires After(views, convert, NO_RELATIONS, msgs).Ok?
    ensures var r := After(views, convert, NO_RELATIONS, msgs).value;
            && Resolved(views, r)
            && (if id in r.known then Some(r.known[id]) else None) == Latest(msgs, id)
    ensures i < |msgs| && msgs[i].RelationMsg? && ViewsOf(views, TableOf(msgs[i].rel)) != [] ==>
              msgs[i].rel.relId in After(views, convert, NO_RELATIONS, msgs).value.fed
  {
    AfterTracks(views, convert, NO_RELATIONS, msgs);
    if i < |msgs| && msgs[i].RelationMsg? && ViewsOf(views, TableOf(msgs[i].rel)) != [] {
      AfterFeeds(views, convert, NO_RELATIONS, msgs, i);
    }
  }

  lemma {:induction false} AfterFeeds(views: seq<ViewSpec>, convert: Convert, rels: Relations, msgs: seq<Message>,
                                      i: nat)
    requires Resolved(views, rels) && After(views, convert, rels, msgs).Ok?
    requires i < |msgs| && msgs[i].RelationMsg? && ViewsOf(views, TableOf(msgs[i].rel)) != []
    ensures msgs[i].rel.relId in After(views, convert, rels, msgs).value.fed
    decreases |msgs|
  {
    var next := if msgs[0].RelationMsg? then OnRelation(views, rels, msgs[0].rel).0 else rels;
    if msgs[0].RelationMsg? {
      OneRelationKeeps(views, rels, msgs[0].rel);
    }
    if i == 0 {
      AfterTracks(views, convert, next, msgs[1..]);
    } else {
      AfterFeeds(views, convert, next, msgs[1..], i - 1);
    }
  }

  // ---- rows that reach a batch -------------------------------------------------------------

  ghost predicate HasKeys(e: Event, columns: seq<Text>) {
    forall i :: 0 <= i < |columns| ==>
      match e
      case Insert(row) => columns[i] in row
      case Delete(row) => columns[i] in row
      case Update(before, after) => columns[i] in before && columns[i] in after
      case Truncate => true
  }

  lemma {:induction false} DecodedKeys(convert: Convert, row: Row, columns: seq<Column>, tuple: Tuple)
    requires DecodeOnto(convert, row, columns, tuple).Ok?
    ensures DecodeOnto(convert, row, columns, tuple).value.Keys == row.Keys + Names(columns)
    decreases |columns|
  {
    if columns != [] {
      var next := row[columns[0].name := CellValue(convert, tuple[0], columns[0].typeOid).value];
      DecodedKeys(convert, next, columns[1..], tuple[1..]);
      assert columns == [columns[0]] + columns[1..];
      assert Names(columns) == {columns[0].name} + Names(columns[1..]);
    }
  }

  lemma EventHasKeys(convert: Convert, rel: Relation, m: Message, view: ViewSpec)
    requires IsRowMessage(m) && !m.TruncateMsg? && RowEvent(convert, rel, m).Ok? && Provides(rel, view)
    ensures HasKeys(RowEvent(convert, rel, m).value, NeededColumns(view))
  {
    match m
    case InsertMsg(_, tuple) => DecodedKeys(convert, map[], rel.columns, tuple);
    case UpdateMsg(_, before, _, tuple) =>
      DecodedKeys(convert, map[], rel.columns, before.value);
      DecodedKeys(convert, map[], rel.columns, tuple);
    case DeleteMsg(_, before, _) => DecodedKeys(convert, map[], rel.columns, before.value);
  }

  lemma {:induction false} ViewsOfAre(views: seq<ViewSpec>, t: TableId, v: ViewSpec)
    ensures v in ViewsOf(views, t) <==> v in views && v.source == t
  {
    if views != [] {
      ViewsOfAre(views[1..], t, v);
      assert v in views <==> v == views[0] || v in views[1..];
    }
  }

  lemma {:induction false} TruncateOpsTruncate(views: seq<ViewSpec>, known: map<nat, Relation>, relIds: seq<nat>)
    ensures forall op :: op in TruncateOps(views, known, relIds) ==> op.event == Truncate
  {
    if relIds != [] {
      TruncateOpsTruncate(views, known, relIds[1..]);
    }
  }

  /** No row message of a daemon reaches a batch without a column that its view needs. */
  lemma NoColumnIsMissing(views: seq<ViewSpec>, convert: Convert, rels: Relations, m: Message, op: Op, v: ViewSpec)
    requires DistinctNames(views) && Resolved(views, rels) && IsRowMessage(m)
    requires RowOps(views, convert, rels.known, m).Ok? && op in RowOps(views, convert, rels.known, m).value
    requires v in views && v.name == op.view
    ensures HasKeys(op.event, NeededColumns(v))
  {
    if m.TruncateMsg? {
      TruncateOpsTruncate(views, rels.known, m.relIds);
    } else {
      var rel := rels.known[m.relId];
      var vs := ViewsOf(views, TableOf(rel));
      var i :| 0 <= i < |vs| && vs[i].name == op.view;
      ViewsOfAre(views, TableOf(rel), vs[i]);
      NameFindsView(views, v);
      NameFindsView(views, vs[i]);
      EventHasKeys(convert, rel, m, v);
    }
  }

  // ---- a surviving marker halts the flush --------------------------------------------------------

  /** A row is usable by a view if and only if it has every group column and every aggregated column,
      none of them the marker, and what is summed is NULL or a finite decimal. */
  lemma UsableIff(sem: Semantics, view: ViewSpec, row: Row)
    ensures Usable(sem, view, row) <==>
            && (forall i :: 0 <= i < |view.groupBy| ==> view.groupBy[i] in row && row[view.groupBy[i]] != Unchanged)
            && (forall i :: 0 <= i < |view.aggregates| && !view.aggregates[i].CountAll? ==>
                  var a := view.aggregates[i];
                  && a.column in row && row[a.column] != Unchanged
                  && (a.CountOf? || row[a.column] == Null || sem.decimal(row[a.column]).Some?))
  {
    NeededInRowIff(view, row);
    var needed := NeededColumns(view);
    assert HasColumns(needed, row) <==> forall name :: name in needed ==> name in row && row[name] != Unchanged;
  }

  lemma {:induction false} AddAggregatesError(sem: Semantics, aggs: seq<AggSpec>, group: Vec, index: nat, row: Row,
                                              sign: int)
    requires index + Widths(aggs) == |group|
    ensures AddAggregates(sem, aggs, group, index, row, sign).1 in {None, Some(WalfluxError)}
    decreases |aggs|
  {
    if aggs != [] && AggDeltas(sem, aggs[0], row).Ok? {
      var d := AggDeltas(sem, aggs[0], row).value;
      AddAggregatesError(sem, aggs[1..], AddDeltas(group, index, aggs[0], sign, d), index + |d|, row, sign);
    }
  }

  /** How a batch refuses a row: as drifted when a needed column is missing or came as unchanged, else with
      the general error when a value cannot be summed. */
  lemma RowErrorIs(sem: Semantics, view: ViewSpec, batch: ViewBatch, row: Row, sign: int)
    requires WellFormed(view, batch.groups)
    ensures ApplyRow(sem, view, batch, row, sign).1 ==
            if exists name :: name in NeededColumns(view) && (name !in row || row[name] == Unchanged)
            then Some(SchemaDriftError)
            else if !Usable(sem, view, row) then Some(WalfluxError)
            else None
  {
    RowAccepted(sem, view, batch, row, sign);
    var needed := NeededColumns(view);
    if HasColumns(needed, row) {
      GetHasLength(sem, view, batch.groups, MemKey(view, row));
      var group := Get(sem, batch.groups, MemKey(view, row), Zeros(VecLength(view)));
      AddAggregatesError(sem, view.aggregates, group[0 := group[0] + sign], 1, row, sign);
    }
  }

  lemma NeededInRowIff(view: ViewSpec, row: Row)
    ensures (forall name :: name in NeededColumns(view) ==> name in row && row[name] != Unchanged) <==>
            && (forall i :: 0 <= i < |view.groupBy| ==> view.groupBy[i] in row && row[view.groupBy[i]] != Unchanged)
            && (forall i :: 0 <= i < |view.aggregates| && !view.aggregates[i].CountAll? ==>
                  view.aggregates[i].column in row && row[view.aggregates[i].column] != Unchanged)
  {
    forall name ensures name in NeededColumns(view) <==>
                        || (exists i :: 0 <= i < |view.groupBy| && view.groupBy[i] == name)
                        || (exists i :: 0 <= i < |view.aggregates| && !view.aggregates[i].CountAll?
                                        && view.aggregates[i].column == name)
    {
      NeededColumnsAre(view, name);
    }
  }

  ghost predicate OpUsable(sem: Semantics, views: seq<ViewSpec>, op: Op) {
    exists v :: v in views && v.name == op.view && EventUsable(sem, v, op.event)
  }

  /** A batch takes all operations if and only if each of them is usable by its view. */
  lemma {:induction false} OpsAcceptedIff(sem: Semantics, views: seq<ViewSpec>, b: BatchState, ops: seq<Op>)
    requires DistinctNames(views) && BatchOf(views, b)
    ensures ApplyOps(sem, views, b, ops).1 == None <==> forall op :: op in ops ==> OpUsable(sem, views, op)
    decreases |ops|
  {
    if ops != [] {
      assert forall op :: op in ops <==> op == ops[0] || op in ops[1..];
      OneOpAcceptedIff(sem, views, b, ops[0]);
      if ApplyOp(sem, views, b, ops[0]).1 == None {
        OpsAcceptedIff(sem, views, ApplyOp(sem, views, b, ops[0]).0, ops[1..]);
      }
    }
  }

  lemma OneOpAcceptedIff(sem: Semantics, views: seq<ViewSpec>, b: BatchState, op: Op)
    requires DistinctNames(views) && BatchOf(views, b)
    ensures ApplyOp(sem, views, b, op).1 == None <==> OpUsable(sem, views, op)
  {
    match FindView(views, op.view)
    case None =>
    case Some(v) =>
      EventAccepted(sem, v, b[v.name], op.event);
      forall w | w in views && w.name == op.view ensures w == v {
        NameFindsView(views, w);
      }
  }
}
