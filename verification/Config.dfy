/**
  Validation of view definitions and the physical columns of target tables: which definitions are
  accepted, when the columns of a table have different names, and which value goes to which column.
*/
module Configs {
  import opened Prelude
  import opened Views

  /** Parsed YAML, as far as validation tells values apart. */
  datatype Raw = Absent | Str(text: Text) | Junk
  datatype RawList<T> = NoList | NotAList | Items(items: seq<T>)
  datatype RawAgg = NotAnAgg | RawAgg(fn: Raw, alias: Raw, column: Raw)
  datatype RawView = NotAView | RawView(name: Raw, source: Raw, groupBy: RawList<Raw>, aggregates: RawList<RawAgg>)

  const MAX_IDENT: nat := 63

  // ASCII text, byte by byte
  const ROWS: Text := [95, 95, 119, 97, 108, 102, 108, 117, 120, 95, 114, 111, 119, 115]  // __walflux_rows
  const ALL: Text := [95, 95, 119, 97, 108, 102, 108, 117, 120, 95, 97, 108, 108]        // __walflux_all
  const SUM: Text := [95, 95, 115, 117, 109]
  const NN: Text := [95, 95, 110, 110]
  const FN_COUNT: Text := [99, 111, 117, 110, 116]
  const FN_SUM: Text := [115, 117, 109]
  const FN_AVG: Text := [97, 118, 103]
  const PUBLIC: Text := [112, 117, 98, 108, 105, 99]

  predicate Lower(b: byte) { 97 <= b <= 122 || b == 95 }

  predicate LowerOrDigit(b: byte) { Lower(b) || 48 <= b <= 57 }

  predicate IsWord(t: Text) {
    t != [] && Lower(t[0]) && forall i :: 0 <= i < |t| ==> LowerOrDigit(t[i])
  }

  /** The identifier pattern; its end anchor also matches before one final newline. */
  predicate IsIdent(t: Text) {
    && |t| <= MAX_IDENT
    && (IsWord(t) || (t != [] && t[|t| - 1] == 10 && IsWord(t[..|t| - 1])))
  }

  predicate EndsWith(t: Text, suffix: Text) {
    |suffix| <= |t| && t[|t| - |suffix|..] == suffix
  }

  predicate Reserved(alias: Text) {
    alias == ROWS || EndsWith(alias, SUM) || EndsWith(alias, NN)
  }

  predicate IsIdentifier(raw: Raw) { raw.Str? && IsIdent(raw.text) }

  const DOT: byte := 46

  function ParseSource(raw: Raw): Result<TableId> {
    if !raw.Str? then Err(ConfigError)
    else
      var parts := Split(raw.text, DOT);
      var id := if |parts| == 1 then TableId(PUBLIC, parts[0])
                else if |parts| == 2 then TableId(parts[0], parts[1])
                else TableId([], []);
      if |parts| <= 2 && IsIdent(id.schema) && IsIdent(id.name) then Ok(id) else Err(ConfigError)
  }

  // ---- what is accepted ---------------------------------------------------------------

  predicate IsTotalFn(fn: Raw) { fn == Str(FN_SUM) || fn == Str(FN_AVG) }

  predicate IsFn(fn: Raw) { fn == Str(FN_COUNT) || IsTotalFn(fn) }

  /** The rules for one aggregate, but for the aliases of the others. */
  predicate AggAccepted(raw: RawAgg, groupBy: seq<Text>) {
    && raw.RawAgg? && IsFn(raw.fn) && IsIdentifier(raw.alias)
    && (IsTotalFn(raw.fn) ==> !raw.column.Absent?)
    && (raw.column.Absent? || IsIdentifier(raw.column))
    && raw.alias.text !in groupBy && !Reserved(raw.alias.text)
    && (IsTotalFn(raw.fn) ==> |raw.alias.text| + |SUM| <= MAX_IDENT)
  }

  function AggOf(raw: RawAgg): AggSpec
    requires raw.RawAgg? && raw.alias.Str? && (raw.column.Str? || (raw.column.Absent? && !IsTotalFn(raw.fn)))
  {
    if raw.column.Absent? then CountAll(raw.alias.text)
    else if raw.fn == Str(FN_SUM) then SumOf(raw.column.text, raw.alias.text)
    else if raw.fn == Str(FN_AVG) then AvgOf(raw.column.text, raw.alias.text)
    else CountOf(raw.column.text, raw.alias.text)
  }

  predicate AggsAccepted(raws: seq<RawAgg>, groupBy: seq<Text>) {
    && (forall i :: 0 <= i < |raws| ==> AggAccepted(raws[i], groupBy))
    && (forall i, j :: 0 <= i < j < |raws| ==> raws[i].alias != raws[j].alias)
  }

  predicate GroupByAccepted(raws: seq<Raw>) {
    && (forall i :: 0 <= i < |raws| ==> IsIdentifier(raws[i]) && raws[i].text != ROWS)
    && (forall i, j :: 0 <= i < j < |raws| ==> raws[i] != raws[j])
  }

  function Texts(raws: seq<Raw>): (ts: seq<Text>)
    requires forall i :: 0 <= i < |raws| ==> raws[i].Str?
    ensures |ts| == |raws| && forall i :: 0 <= i < |ts| ==> ts[i] == raws[i].text
  {
    seq(|raws|, i requires 0 <= i < |raws| => raws[i].text)
  }

  function GroupByItems(raw: RawView): seq<Raw>
    requires raw.RawView?
  {
    if raw.groupBy.Items? then raw.groupBy.items else []
  }

  predicate ViewAccepted(raw: RawView, seenNames: set<Text>) {
    && raw.RawView? && IsIdentifier(raw.name) && raw.name.text !in seenNames
    && ParseSource(raw.source).Ok?
    && !raw.groupBy.NotAList? && GroupByAccepted(GroupByItems(raw))
    && raw.aggregates.Items? && raw.aggregates.items != []
    && AggsAccepted(raw.aggregates.items, Texts(GroupByItems(raw)))
  }

  function ViewOf(raw: RawView): ViewSpec
    requires ViewAccepted(raw, {})
  {
    var raws := raw.aggregates.items;
    ViewSpec(raw.name.text, ParseSource(raw.source).value, Texts(GroupByItems(raw)),
             seq(|raws|, i requires 0 <= i < |raws| => AggOf(raws[i])))
  }

  // ---- the rules, spelled out -----------------------------------------------------------

  ghost predicate Letter(b: byte) { 'a' as int <= b <= 'z' as int || b == '_' as int }

  /** 1 to 63 letters, digits and underscores, the first no digit; one final newline is let through. */
  ghost predicate Identifier(t: Text) {
    && 1 <= |t| <= 63 && Letter(t[0])
    && forall i :: 1 <= i < |t| ==>
         Letter(t[i]) || '0' as int <= t[i] <= '9' as int || (i == |t| - 1 && t[i] == '\n' as int)
  }

  ghost predicate Ends(t: Text, suffix: Text) { exists head :: t == head + suffix }

  /** schema.name, or a name in the schema public. */
  ghost predicate LegalSource(text: Text, id: TableId) {
    && Identifier(id.schema) && Identifier(id.name)
    && (text == id.schema + ['.' as int] + id.name || (text == id.name && id.schema == Ascii("public")))
  }

  ghost predicate LegalAgg(raw: RawAgg, groupBy: seq<Text>) {
    && raw.RawAgg? && raw.alias.Str? && Identifier(raw.alias.text)
    && (raw.fn == Str(Ascii("count")) || raw.fn == Str(Ascii("sum")) || raw.fn == Str(Ascii("avg")))
    && (raw.column.Absent? ==> raw.fn == Str(Ascii("count")))
    && (!raw.column.Absent? ==> raw.column.Str? && Identifier(raw.column.text))
    && raw.alias.text !in groupBy && raw.alias.text != Ascii("__walflux_rows")
    && !Ends(raw.alias.text, Ascii("__sum")) && !Ends(raw.alias.text, Ascii("__nn"))
    && (raw.fn != Str(Ascii("count")) ==> |raw.alias.text| <= 58)
  }

  lemma Spelled()
    ensures ROWS == Ascii("__walflux_rows") && ALL == Ascii("__walflux_all")
    ensures SUM == Ascii("__sum") && NN == Ascii("__nn") && PUBLIC == Ascii("public")
    ensures FN_COUNT == Ascii("count") && FN_SUM == Ascii("sum") && FN_AVG == Ascii("avg")
  {
  }

  lemma IdentifierIff(t: Text)
    ensures IsIdent(t) <==> Identifier(t)
  {
    if Identifier(t) {
      if t[|t| - 1] == 10 {
        assert IsWord(t[..|t| - 1]);
      } else {
        assert IsWord(t);
      }
    }
    if IsIdent(t) && !IsWord(t) {
      assert forall i :: 0 <= i < |t| - 1 ==> t[..|t| - 1][i] == t[i];
    }
  }

  lemma EndsIff(t: Text, suffix: Text)
    ensures EndsWith(t, suffix) <==> Ends(t, suffix)
  {
    if EndsWith(t, suffix) {
      assert t == t[..|t| - |suffix|] + suffix;
    }
  }

  lemma NoDot(t: Text)
    requires IsIdent(t)
    ensures DOT !in t
  {
    if !IsWord(t) {
      assert t == t[..|t| - 1] + [10];
    }
  }

  /** A source text stands for exactly one table, or is refused. */
  lemma SourceIff(text: Text, id: TableId)
    ensures ParseSource(Str(text)) == Ok(id) <==> LegalSource(text, id)
  {
    Spelled();
    IdentifierIff(id.schema);
    IdentifierIff(id.name);
    if LegalSource(text, id) {
      NoDot(id.schema);
      NoDot(id.name);
      if text == id.name {
        SplitWithout(id.name, DOT);
      } else {
        SplitAt(id.schema, id.name, DOT);
      }
    }
    if ParseSource(Str(text)) == Ok(id) {
      SplitJoins(text, DOT);
    }
  }

  lemma AggIff(raw: RawAgg, groupBy: seq<Text>)
    ensures AggAccepted(raw, groupBy) <==> LegalAgg(raw, groupBy)
  {
    Spelled();
    if raw.RawAgg? && raw.alias.Str? {
      IdentifierIff(raw.alias.text);
      EndsIff(raw.alias.text, SUM);
      EndsIff(raw.alias.text, NN);
      if raw.column.Str? {
        IdentifierIff(raw.column.text);
      }
    }
  }

  /** What an accepted aggregate stands for. */
  lemma AggMeans(raw: RawAgg, groupBy: seq<Text>)
    requires AggAccepted(raw, groupBy)
    ensures var a := AggOf(raw);
            && Str(a.alias) == raw.alias
            && (a.CountAll? <==> raw.column.Absent?) && (!a.CountAll? ==> Str(a.column) == raw.column)
            && (a.SumOf? <==> raw.fn == Str(Ascii("sum"))) && (a.AvgOf? <==> raw.fn == Str(Ascii("avg")))
  {
    Spelled();
    assert FN_SUM[0] == 's' as int && FN_AVG[0] == 'a' as int;
  }

  ghost predicate LegalColumns(raws: seq<Raw>) {
    && (forall i :: 0 <= i < |raws| ==>
          raws[i].Str? && Identifier(raws[i].text) && raws[i].text != Ascii("__walflux_rows"))
    && (forall i, j :: 0 <= i < j < |raws| ==> raws[i] != raws[j])
  }

  ghost predicate LegalAggs(raws: seq<RawAgg>, groupBy: seq<Text>) {
    && raws != []
    && (forall i :: 0 <= i < |raws| ==> LegalAgg(raws[i], groupBy))
    && (forall i, j :: 0 <= i < j < |raws| ==> raws[i].alias != raws[j].alias)
  }

  ghost predicate LegalView(raw: RawView, seenNames: set<Text>) {
    && raw.RawView? && raw.name.Str? && Identifier(raw.name.text) && raw.name.text !in seenNames
    && raw.source.Str? && (exists id :: LegalSource(raw.source.text, id))
    && !raw.groupBy.NotAList? && LegalColumns(GroupByItems(raw))
    && raw.aggregates.Items? && LegalAggs(raw.aggregates.items, Texts(GroupByItems(raw)))
  }

  lemma ColumnsIff(raws: seq<Raw>)
    ensures GroupByAccepted(raws) <==> LegalColumns(raws)
  {
    Spelled();
    forall i | 0 <= i < |raws| && raws[i].Str? ensures IsIdent(raws[i].text) <==> Identifier(raws[i].text) {
      IdentifierIff(raws[i].text);
    }
  }

  lemma AggsIff(raws: seq<RawAgg>, groupBy: seq<Text>)
    ensures raws != [] && AggsAccepted(raws, groupBy) <==> LegalAggs(raws, groupBy)
  {
    forall i | 0 <= i < |raws| ensures AggAccepted(raws[i], groupBy) <==> LegalAgg(raws[i], groupBy) {
      AggIff(raws[i], groupBy);
    }
  }

  lemma SourceAcceptedIff(text: Text)
    ensures ParseSource(Str(text)).Ok? <==> exists id :: LegalSource(text, id)
    ensures ParseSource(Str(text)).Ok? ==> LegalSource(text, ParseSource(Str(text)).value)
  {
    if ParseSource(Str(text)).Ok? {
      SourceIff(text, ParseSource(Str(text)).value);
    }
    if id :| LegalSource(text, id) {
      SourceIff(text, id);
    }
  }

  /** A view definition is accepted if and only if it keeps the rules, and then it stands for what it
      says: its table, its group columns in their order, its aggregates one by one. */
  lemma ViewIff(raw: RawView, seenNames: set<Text>)
    ensures ViewAccepted(raw, seenNames) <==> LegalView(raw, seenNames)
    ensures ViewAccepted(raw, seenNames) ==>
              var view := ViewOf(raw);
              && view.name == raw.name.text && LegalSource(raw.source.text, view.source)
              && |view.groupBy| == |GroupByItems(raw)|
              && (forall i :: 0 <= i < |view.groupBy| ==> Str(view.groupBy[i]) == GroupByItems(raw)[i])
              && |view.aggregates| == |raw.aggregates.items|
              && forall i :: 0 <= i < |view.aggregates| ==>
                   var a, r := view.aggregates[i], raw.aggregates.items[i];
                   && Str(a.alias) == r.alias
                   && (a.CountAll? <==> r.column.Absent?) && (!a.CountAll? ==> Str(a.column) == r.column)
                   && (a.SumOf? <==> r.fn == Str(Ascii("sum"))) && (a.AvgOf? <==> r.fn == Str(Ascii("avg")))
  {
    if raw.RawView? && raw.name.Str? && raw.source.Str? {
      IdentifierIff(raw.name.text);
      SourceAcceptedIff(raw.source.text);
      ColumnsIff(GroupByItems(raw));
      if raw.aggregates.Items? && LegalColumns(GroupByItems(raw)) {
        AggsIff(raw.aggregates.items, Texts(GroupByItems(raw)));
      }
    }
    if ViewAccepted(raw, seenNames) {
      forall i | 0 <= i < |raw.aggregates.items|
        ensures var a, r := ViewOf(raw).aggregates[i], raw.aggregates.items[i];
                && Str(a.alias) == r.alias
                && (a.CountAll? <==> r.column.Absent?) && (!a.CountAll? ==> Str(a.column) == r.column)
                && (a.SumOf? <==> r.fn == Str(Ascii("sum"))) && (a.AvgOf? <==> r.fn == Str(Ascii("avg")))
      {
        AggMeans(raw.aggregates.items[i], Texts(GroupByItems(raw)));
      }
    }
  }

  // ---- the parser -----------------------------------------------------------------------

  /** One aggregate; its alias joins the aliases seen. */
  method ParseAggregate(raw: RawAgg, groupBy: seq<Text>, seenAliases: set<Text>)
    returns (r: Result<AggSpec>, seen: set<Text>)
    ensures r.Ok? <==> AggAccepted(raw, groupBy) && raw.alias.text !in seenAliases
    ensures r.Ok? ==> r.value == AggOf(raw) && seen == seenAliases + {raw.alias.text}
    ensures r.Err? ==> r.error == ConfigError
  {
    r, seen := Err(ConfigError), seenAliases;
    if raw.NotAnAgg? || !IsFn(raw.fn) || !IsIdentifier(raw.alias) {
      return;
    }
    var alias := raw.alias.text;
    if (IsTotalFn(raw.fn) && raw.column.Absent?) || (!raw.column.Absent? && !IsIdentifier(raw.column)) {
      return;
    }
    if alias in seenAliases || alias in groupBy || Reserved(alias) {
      return;
    }
    if IsTotalFn(raw.fn) && |alias| + |SUM| > MAX_IDENT {
      return;
    }
    seen := seen + {alias};
    r := Ok(AggOf(raw));
  }

  method ParseGroupBy(raws: seq<Raw>) returns (r: Result<seq<Text>>)
    ensures r.Ok? <==> GroupByAccepted(raws)
    ensures r.Ok? ==> r.value == Texts(raws)
    ensures r.Err? ==> r.error == ConfigError
  {
    var groupBy: seq<Text> := [];
    for i := 0 to |raws|
      invariant GroupByAccepted(raws[..i]) && groupBy == Texts(raws[..i])
    {
      assert raws[..i + 1] == raws[..i] + [raws[i]];
      if !IsIdentifier(raws[i]) || raws[i].text == ROWS {
        return Err(ConfigError);
      }
      if raws[i].text in groupBy {
        var j :| 0 <= j < i && groupBy[j] == raws[i].text;
        assert raws[j] == raws[i];
        return Err(ConfigError);
      }
      groupBy := groupBy + [raws[i].text];
    }
    assert raws[..|raws|] == raws;
    r := Ok(groupBy);
  }

  method ParseAggregates(raws: seq<RawAgg>, groupBy: seq<Text>) returns (r: Result<seq<AggSpec>>)
    ensures r.Ok? <==> AggsAccepted(raws, groupBy)
    ensures r.Ok? ==> |r.value| == |raws| && forall i :: 0 <= i < |raws| ==> r.value[i] == AggOf(raws[i])
    ensures r.Err? ==> r.error == ConfigError
  {
    var aggregates: seq<AggSpec> := [];
    var seen: set<Text> := {};
    for i := 0 to |raws|
      invariant AggsAccepted(raws[..i], groupBy) && |aggregates| == i
      invariant forall j :: 0 <= j < i ==> raws[j].RawAgg? && raws[j].alias.Str? && raws[j].alias.text in seen
      invariant forall a :: a in seen ==> exists j :: 0 <= j < i && raws[j].RawAgg? && raws[j].alias == Str(a)
      invariant forall j :: 0 <= j < i ==> AggAccepted(raws[j], groupBy) && aggregates[j] == AggOf(raws[j])
    {
      var one;
      ghost var before := seen;
      one, seen := ParseAggregate(raws[i], groupBy, seen);
      if one.Err? {
        if AggAccepted(raws[i], groupBy) {
          ghost var j :| 0 <= j < i && raws[j].RawAgg? && raws[j].alias == Str(raws[i].alias.text);
          assert raws[j].alias == raws[i].alias;
        }
        return Err(ConfigError);
      }
      aggregates := aggregates + [one.value];
      assert raws[..i + 1] == raws[..i] + [raws[i]];
    }
    assert raws[..|raws|] == raws;
    r := Ok(aggregates);
  }

  /** _parse_view accepts exactly the definitions that keep the rules, whatever the order of checks. */
  method ParseView(raw: RawView, seenNames: set<Text>) returns (r: Result<ViewSpec>, seen: set<Text>)
    ensures r.Ok? <==> ViewAccepted(raw, seenNames)
    ensures r.Ok? ==> r.value == ViewOf(raw) && seen == seenNames + {raw.name.text}
    ensures r.Err? ==> r.error == ConfigError
  {
    r, seen := Err(ConfigError), seenNames;
    if raw.NotAView? || !IsIdentifier(raw.name) || raw.name.text in seenNames {
      return;
    }
    seen := seen + {raw.name.text};
    var source := ParseSource(raw.source);
    if source.Err? || raw.groupBy.NotAList? {
      return;
    }
    var groupBy := ParseGroupBy(GroupByItems(raw));
    if groupBy.Err? || !raw.aggregates.Items? || raw.aggregates.items == [] {
      return;
    }
    var aggregates := ParseAggregates(raw.aggregates.items, groupBy.value);
    if aggregates.Err? {
      return;
    }
    r := Ok(ViewSpec(raw.name.text, source.value, groupBy.value, aggregates.value));
    assert aggregates.value == ViewOf(raw).aggregates;
  }

  // ---- physical columns ---------------------------------------------------------------------

  function KeyColumns(view: ViewSpec): seq<Text> {
    if view.groupBy == [] then [ALL] else view.groupBy
  }

  /** The storage columns of one aggregate. */
  function StorageNames(agg: AggSpec): (names: seq<Text>)
    ensures |names| == Width(agg)
  {
    match agg
    case CountAll(alias) => [alias]
    case CountOf(_, alias) => [alias]
    case SumOf(_, alias) => [alias + SUM, alias + NN]
    case AvgOf(_, alias) => [alias + SUM, alias + NN]
  }

  /** All its columns: a running total has a generated one too. */
  function ColumnNames(agg: AggSpec): seq<Text> {
    if agg.SumOf? || agg.AvgOf? then StorageNames(agg) + [agg.alias] else StorageNames(agg)
  }

  function StorageNamesOf(aggs: seq<AggSpec>): (names: seq<Text>)
    ensures |names| == Widths(aggs)
  {
    if aggs == [] then [] else StorageNames(aggs[0]) + StorageNamesOf(aggs[1..])
  }

  function ColumnNamesOf(aggs: seq<AggSpec>): seq<Text> {
    if aggs == [] then [] else ColumnNames(aggs[0]) + ColumnNamesOf(aggs[1..])
  }

  /** The columns of CREATE TABLE, in order. */
  function TableColumns(view: ViewSpec): seq<Text> {
    KeyColumns(view) + [ROWS] + ColumnNamesOf(view.aggregates)
  }

  lemma {:induction false} AggColumnIff(aggs: seq<AggSpec>, name: Text)
    ensures name in ColumnNamesOf(aggs) <==> exists i :: 0 <= i < |aggs| && OfAgg(aggs[i], name)
  {
    if aggs != [] {
      AggColumnIff(aggs[1..], name);
      Spelled();
      assert name in ColumnNames(aggs[0]) <==> OfAgg(aggs[0], name);
      if i :| 0 <= i < |aggs[1..]| && OfAgg(aggs[1..][i], name) {
        assert OfAgg(aggs[i + 1], name);
      }
      if i :| 0 < i < |aggs| && OfAgg(aggs[i], name) {
        assert OfAgg(aggs[1..][i - 1], name);
      }
    }
  }

  /** A count has its alias; a sum or average has a running total, a counter and the alias. */
  ghost predicate OfAgg(agg: AggSpec, name: Text) {
    || name == agg.alias
    || ((agg.SumOf? || agg.AvgOf?) && (name == agg.alias + Ascii("__sum") || name == agg.alias + Ascii("__nn")))
  }

  /** The columns of a target: its keys, the row counter, and those of its aggregates. */
  lemma TableColumnIff(view: ViewSpec, name: Text)
    ensures name in TableColumns(view) <==>
            || (if view.groupBy == [] then name == Ascii("__walflux_all") else name in view.groupBy)
            || name == Ascii("__walflux_rows")
            || exists i :: 0 <= i < |view.aggregates| && OfAgg(view.aggregates[i], name)
  {
    Spelled();
    AggColumnIff(view.aggregates, name);
  }

  predicate Distinct(names: seq<Text>) {
    forall i, j :: 0 <= i < j < |names| ==> names[i] != names[j]
  }

  lemma DistinctAppend(a: seq<Text>, b: seq<Text>)
    ensures Distinct(a + b) <==> Distinct(a) && Distinct(b) && forall x :: x in a ==> x !in b
  {
    if Distinct(a + b) {
      AppendApart(a, b);
    } else if Distinct(a) && Distinct(b) {
      var i, j :| 0 <= i < j < |a + b| && (a + b)[i] == (a + b)[j];
      assert i < |a| <= j;
      assert a[i] in a && b[j - |a|] in b;
    }
  }

  lemma AppendApart(a: seq<Text>, b: seq<Text>)
    requires Distinct(a + b)
    ensures Distinct(a) && Distinct(b) && forall x :: x in a ==> x !in b
  {
    assert forall i :: 0 <= i < |a| ==> (a + b)[i] == a[i];
    assert forall i :: 0 <= i < |b| ==> (a + b)[|a| + i] == b[i];
    forall i, j | 0 <= i < |a| && 0 <= j < |b| ensures a[i] != b[j] {
      assert (a + b)[i] != (a + b)[|a| + j];
    }
  }

  /** What validation says of an aggregate list and its keys. */
  ghost predicate NamespaceOk(view: ViewSpec) {
    && Distinct(view.groupBy) && ROWS !in view.groupBy
    && (forall i :: 0 <= i < |view.aggregates| ==>
          view.aggregates[i].alias !in view.groupBy && !Reserved(view.aggregates[i].alias))
    && forall i, j :: 0 <= i < j < |view.aggregates| ==> view.aggregates[i].alias != view.aggregates[j].alias
  }

  lemma AcceptedViewsAreOk(raw: RawView, seenNames: set<Text>)
    requires ViewAccepted(raw, seenNames)
    ensures NamespaceOk(ViewOf(raw))
  {
    var view, raws := ViewOf(raw), raw.aggregates.items;
    assert forall i :: 0 <= i < |raws| ==> view.aggregates[i].alias == raws[i].alias.text;
    assert forall i, j :: 0 <= i < j < |raws| ==> raws[i].alias != raws[j].alias;
  }

  /** A key column is not the storage column of an aggregate, nor the constant key an alias. */
  ghost predicate KeysApart(view: ViewSpec) {
    forall i :: 0 <= i < |view.aggregates| ==>
      forall name :: name in ColumnNames(view.aggregates[i]) ==> name !in KeyColumns(view)
  }

  lemma LastOfSum(a: Text, suffix: Text)
    requires suffix != []
    ensures (a + suffix)[|a + suffix| - 1] == suffix[|suffix| - 1]
    ensures EndsWith(a + suffix, suffix)
  {
  }

  lemma SameSuffix(a: Text, b: Text, suffix: Text)
    requires a + suffix == b + suffix
    ensures a == b
  {
    assert (a + suffix)[..|a|] == a && (b + suffix)[..|b|] == b;
  }

  lemma SuffixesTellApart(a: Text, b: Text)
    ensures a + SUM != b + NN
    ensures a != b ==> a + SUM != b + SUM && a + NN != b + NN
  {
    LastOfSum(a, SUM);
    LastOfSum(b, NN);
    if a + SUM == b + SUM {
      SameSuffix(a, b, SUM);
    }
    if a + NN == b + NN {
      SameSuffix(a, b, NN);
    }
  }

  lemma FixedNames()
    ensures ROWS != ALL
    ensures !EndsWith(ROWS, SUM) && !EndsWith(ROWS, NN) && !EndsWith(ALL, SUM) && !EndsWith(ALL, NN)
  {
    assert SUM[|SUM| - 1] == 'm' as int && NN[|NN| - 1] == 'n' as int;
    assert ROWS[|ROWS| - 1] == 's' as int && ALL[|ALL| - 1] == 'l' as int;
  }

  /** The names that an aggregate can have: its alias, or the alias with a storage suffix. */
  lemma NamesOfOne(agg: AggSpec, name: Text)
    requires name in ColumnNames(agg)
    ensures name == agg.alias || name == agg.alias + SUM || name == agg.alias + NN
    ensures name == agg.alias || EndsWith(name, SUM) || EndsWith(name, NN)
  {
    assert name == agg.alias || name == agg.alias + SUM || name == agg.alias + NN;
    LastOfSum(agg.alias, SUM);
    LastOfSum(agg.alias, NN);
  }

  lemma AliasIsNoStorage(alias: Text, other: Text)
    requires !Reserved(alias)
    ensures alias != other + SUM && alias != other + NN && alias != ROWS
  {
    LastOfSum(other, SUM);
    LastOfSum(other, NN);
  }

  lemma ThreeDiffer(names: seq<Text>)
    requires |names| == 3 && names[0] != names[1] && names[0] != names[2] && names[1] != names[2]
    ensures Distinct(names)
  {
  }

  lemma ColumnsOfOne(agg: AggSpec)
    requires !Reserved(agg.alias)
    ensures Distinct(ColumnNames(agg)) && ROWS !in ColumnNames(agg)
  {
    SuffixesTellApart(agg.alias, agg.alias);
    AliasIsNoStorage(agg.alias, agg.alias);
    if agg.SumOf? || agg.AvgOf? {
      assert ColumnNames(agg) == [agg.alias + SUM, agg.alias + NN, agg.alias];
      ThreeDiffer(ColumnNames(agg));
    }
    if ROWS in ColumnNames(agg) {
      FixedNames();
      NamesOfOne(agg, ROWS);
      assert false;
    }
  }

  lemma ColumnsOfTwo(a: AggSpec, b: AggSpec, name: Text)
    requires !Reserved(a.alias) && !Reserved(b.alias) && a.alias != b.alias
    requires name in ColumnNames(a)
    ensures name !in ColumnNames(b)
  {
    if name in ColumnNames(b) {
      NamesOfOne(a, name);
      NamesOfOne(b, name);
      NamesApart(a.alias, b.alias, name);
      assert false;
    }
  }

  lemma NamesApart(a: Text, b: Text, name: Text)
    requires !Reserved(a) && !Reserved(b) && a != b
    requires name == a || name == a + SUM || name == a + NN
    ensures name != b && name != b + SUM && name != b + NN
  {
    SuffixesTellApart(a, b);
    SuffixesTellApart(b, a);
    AliasIsNoStorage(a, b);
    AliasIsNoStorage(b, a);
  }

  lemma {:induction false} InSomeAggregate(aggs: seq<AggSpec>, name: Text)
    ensures name in ColumnNamesOf(aggs) <==> exists i :: 0 <= i < |aggs| && name in ColumnNames(aggs[i])
  {
    if aggs != [] {
      InSomeAggregate(aggs[1..], name);
      if i :| 0 <= i < |aggs[1..]| && name in ColumnNames(aggs[1..][i]) {
        assert name in ColumnNames(aggs[i + 1]);
      }
      if i :| 0 <= i < |aggs| && name in ColumnNames(aggs[i]) {
        assert i > 0 ==> aggs[i] == aggs[1..][i - 1];
      }
    }
  }

  lemma {:induction false} AggregateColumnsDiffer(aggs: seq<AggSpec>)
    requires forall i :: 0 <= i < |aggs| ==> !Reserved(aggs[i].alias)
    requires forall i, j :: 0 <= i < j < |aggs| ==> aggs[i].alias != aggs[j].alias
    ensures Distinct(ColumnNamesOf(aggs)) && ROWS !in ColumnNamesOf(aggs)
  {
    if aggs != [] {
      var rest := aggs[1..];
      assert forall i :: 0 <= i < |rest| ==> rest[i] == aggs[i + 1];
      AggregateColumnsDiffer(rest);
      ColumnsOfOne(aggs[0]);
      forall x | x in ColumnNames(aggs[0]) ensures x !in ColumnNamesOf(rest) {
        InSomeAggregate(rest, x);
        forall i | 0 <= i < |rest| ensures x !in ColumnNames(rest[i]) {
          ColumnsOfTwo(aggs[0], rest[i], x);
        }
      }
      DistinctAppend(ColumnNames(aggs[0]), ColumnNamesOf(rest));
    }
  }

  /** For every accepted view the columns of its table differ if and only if no key column is a
      column of an aggregate. */
  lemma ColumnsDifferIff(view: ViewSpec)
    requires NamespaceOk(view)
    ensures Distinct(TableColumns(view)) <==> KeysApart(view)
  {
    var keys, columns := KeyColumns(view), ColumnNamesOf(view.aggregates);
    AggregateColumnsDiffer(view.aggregates);
    FixedNames();
    DistinctAppend(keys + [ROWS], columns);
    DistinctAppend(keys, [ROWS]);
    assert Distinct(TableColumns(view)) <==> forall x :: x in keys ==> x !in columns;
    if KeysApart(view) {
      forall x | x in keys ensures x !in columns {
        InSomeAggregate(view.aggregates, x);
      }
    }
    if forall x :: x in keys ==> x !in columns {
      forall i, name | 0 <= i < |view.aggregates| && name in ColumnNames(view.aggregates[i]) ensures name !in keys {
        InSomeAggregate(view.aggregates, name);
      }
    }
  }

  /** The guard that validation lacks: group columns without a storage suffix, and no alias that is
      the constant key of a global view. */
  ghost predicate Guarded(view: ViewSpec) {
    && (forall i :: 0 <= i < |view.groupBy| ==> !EndsWith(view.groupBy[i], SUM) && !EndsWith(view.groupBy[i], NN))
    && (view.groupBy == [] ==> forall i :: 0 <= i < |view.aggregates| ==> view.aggregates[i].alias != ALL)
  }

  lemma GuardedKey(view: ViewSpec, key: Text, i: nat)
    requires NamespaceOk(view) && Guarded(view) && key in KeyColumns(view) && i < |view.aggregates|
    ensures !EndsWith(key, SUM) && !EndsWith(key, NN) && view.aggregates[i].alias != key
  {
    FixedNames();
  }

  lemma GuardedColumnsDiffer(view: ViewSpec)
    requires NamespaceOk(view) && Guarded(view)
    ensures Distinct(TableColumns(view))
  {
    assert KeysApart(view) by {
      forall i, name | 0 <= i < |view.aggregates| && name in ColumnNames(view.aggregates[i])
        ensures name !in KeyColumns(view)
      {
        NamesOfOne(view.aggregates[i], name);
        if name in KeyColumns(view) {
          GuardedKey(view, name, i);
          assert false;
        }
      }
    }
    ColumnsDifferIff(view);
  }

  const TOTAL: Text := [116, 111, 116, 97, 108]

  /** GROUP BY total__sum with a sum named total. */
  function Twice(name: Text): RawView {
    RawView(Str(name), Str([116]), Items([Str(TOTAL + SUM)]), Items([RawAgg(Str(FN_SUM), Str(TOTAL), Str([120]))]))
  }

  lemma TwiceIsAccepted(name: Text)
    requires IsIdent(name)
    ensures ViewAccepted(Twice(name), {})
  {
    OneLetterSource();
    TotalIsAccepted();
    var raw := Twice(name);
    assert Texts(GroupByItems(raw)) == [TOTAL + SUM];
    assert AggAccepted(raw.aggregates.items[0], [TOTAL + SUM]);
  }

  /** Validation accepts a view whose table would have one column twice. */
  lemma AcceptedViewWithOneNameTwice(name: Text)
    requires IsIdent(name)
    ensures ViewAccepted(Twice(name), {}) && !Distinct(TableColumns(ViewOf(Twice(name))))
  {
    TwiceIsAccepted(name);
    var view, key := ViewOf(Twice(name)), TOTAL + SUM;
    assert view.groupBy == [key] && view.aggregates == [SumOf([120], TOTAL)];
    assert ColumnNamesOf(view.aggregates[1..]) == [];
    assert ColumnNamesOf(view.aggregates) == [key, TOTAL + NN, TOTAL];
    var columns := TableColumns(view);
    assert columns == [key, ROWS, key, TOTAL + NN, TOTAL];
    assert columns[0] == columns[2];
  }

  lemma OneLetterSource()
    ensures ParseSource(Str([116])).Ok?
  {
    var t := [116];
    assert t == ['t' as int] && t[1..] == [];
    var none: seq<Text> := [[]];
    assert Split(t[1..], DOT) == none && none[1..] == [];
    assert [t[0]] + [] == t;
    assert Split(t, DOT) == [t] + [];
    assert IsIdent(PUBLIC);
    assert IsIdent(t);
  }

  lemma TotalIsAccepted()
    ensures IsIdent(TOTAL) && IsIdent([120]) && !Reserved(TOTAL)
    ensures GroupByAccepted([Str(TOTAL + SUM)])
    ensures TOTAL != TOTAL + SUM
    ensures IsTotalFn(Str(FN_SUM))
  {
    var alias, key := TOTAL, TOTAL + SUM;
    assert alias[4] == 'l' as int && SUM[4] == 'm' as int && NN[3] == 'n' as int;
    assert |key| == 10 && key[0] == 't' as int && key[9] == 'm' as int && |ROWS| == 14;
    assert forall i :: 0 <= i < |key| ==> LowerOrDigit(key[i]);
    assert IsIdent(key);
  }

  // ---- which value goes to which column --------------------------------------------------------

  /** The columns of the upsert and of the backfill. */
  function InsertColumns(view: ViewSpec): seq<Text> {
    KeyColumns(view) + [ROWS] + StorageNamesOf(view.aggregates)
  }

  lemma {:induction false} StorageNamesSlice(aggs: seq<AggSpec>, i: nat)
    requires i < |aggs|
    ensures StorageNamesOf(aggs)[Offset(aggs, i)..Offset(aggs, i) + Width(aggs[i])] == StorageNames(aggs[i])
    decreases i
  {
    if i == 0 {
      NamesHead(StorageNames(aggs[0]), StorageNamesOf(aggs[1..]));
    } else {
      StorageNamesSlice(aggs[1..], i - 1);
      var at := Offset(aggs[1..], i - 1);
      NamesSlice(StorageNames(aggs[0]), StorageNamesOf(aggs[1..]), at, at + Width(aggs[i]));
    }
  }

  lemma NamesHead(a: seq<Text>, b: seq<Text>)
    ensures (a + b)[0..|a|] == a
  {
  }

  lemma NamesSlice(a: seq<Text>, b: seq<Text>, i: nat, j: nat)
    requires i <= j <= |b|
    ensures (a + b)[|a| + i..|a| + j] == b[i..j]
  {
  }

  /** Keys and vector have one value for each column, and the positions that an aggregate's
      contribution adds to are the positions of its storage columns. */
  lemma ColumnsLineUp(view: ViewSpec, key: Key, delta: Vec, i: nat)
    requires |key| == |view.groupBy| && |delta| == VecLength(view) && i < |view.aggregates|
    ensures |TargetKey(view, key)| == |KeyColumns(view)|
    ensures |InsertColumns(view)| == |TargetKey(view, key)| + |delta|
    ensures InsertColumns(view)[|TargetKey(view, key)|] == Ascii("__walflux_rows")
    ensures InsertColumns(view)[..|TargetKey(view, key)|] ==
            if view.groupBy == [] then [Ascii("__walflux_all")] else view.groupBy
    ensures var at, agg := 1 + Offset(view.aggregates, i), view.aggregates[i];
            var from := |TargetKey(view, key)| + at;
            && at + Width(agg) <= |delta|
            && InsertColumns(view)[from..from + Width(agg)] ==
               if agg.CountAll? || agg.CountOf? then [agg.alias]
               else [agg.alias + Ascii("__sum"), agg.alias + Ascii("__nn")]
  {
    Spelled();
    StorageNamesSlice(view.aggregates, i);
    var at := Offset(view.aggregates, i);
    NamesSlice(KeyColumns(view) + [ROWS], StorageNamesOf(view.aggregates), at, at + Width(view.aggregates[i]));
  }
}
