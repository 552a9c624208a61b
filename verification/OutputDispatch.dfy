/** The output contract: which of its three edits applies, and that none applies twice. */
module OutputDispatch {
  import opened Prelude
  import opened Sql
  import opened OutputContract
  import opened ProjectionLimits
  import opened GroupRank
  import opened RankBinding
  import opened ClauseCritic

  /** "What is the average <metric> rounded to <decimals> decimals?" */
  datatype ScalarRequest = ScalarRequest(metric: set<string>, decimals: nat)

  /** What the question asks of the output; `requested` is None when it has no usable head. */
  datatype OutputRequest = OutputRequest(requested: Option<set<string>>, rank: Option<RankRequest>, scalar: Option<ScalarRequest>)

  /** Numeric columns of base tables that the metric names. */
  function Averageable(metric: set<string>, words: string -> set<string>, numeric: (string, string) -> bool): ColumnTest {
    (t: TableInfo, c: ColumnInfo) => t.kind == "table" && words(c.name) == metric && numeric(t.name, c.name)
  }

  /** `_scalar_average`. */
  function ScalarAverage(request: Option<ScalarRequest>, numeric: (string, string) -> bool, words: string -> set<string>,
                         q: Select, cat: Catalog): Option<Select> {
    if request.None? || FindsAgg(q) || |q.sources| > 1 || q.where.Some? || q.group != [] || q.having.Some? || q.order != [] || q.limit.Some?
    then None
    else
      var owners := ColumnsThat(cat.tables, Averageable(request.value.metric, words, numeric));
      if |owners| != 1 then None
      else
        var average := Call("round", [Agg("avg", Column(owners[0].0, owners[0].1)), IntLit(request.value.decimals)]);
        Some(Select([Item(average, "")], [Source(owners[0].0, "", false, None)], None, [], None, [], None, None, false, false))
  }

  predicate Projects(request: OutputRequest, words: string -> set<string>, q: Select, cat: Catalog) {
    request.requested.Some? && ProjectionFires(request.requested.value, words, q, cat.tables)
  }

  /** `compile_output_contract`: projection, else ranking, else scalar average; an edit that
      changes nothing is no edit. */
  function OutputEdit(request: OutputRequest, numeric: (string, string) -> bool, words: string -> set<string>, q: Select, cat: Catalog)
    : Option<(Code, Select)>
  {
    if !Simple(q) then None
    else
      var (code, repaired) :=
        if Projects(request, words, q, cat) then (RequestedProjection, Some(Edited(request.requested.value, words, q, cat.tables)))
        else if GroupCountRank(request.rank, words, q, cat).Some? then (RequestedRanking, GroupCountRank(request.rank, words, q, cat))
        else (RequestedScalar, ScalarAverage(request.scalar, numeric, words, q, cat));
      if repaired.None? || repaired.value == q then None else Some((code, repaired.value))
  }

  // ---------------------------------------------------------- the scalar average

  /** Column `j` of base table `i` is numeric and has just the words of the metric. */
  predicate AverageAt(tables: seq<TableInfo>, metric: set<string>, words: string -> set<string>, numeric: (string, string) -> bool, i: nat, j: nat) {
    && i < |tables| && j < |tables[i].columns| && tables[i].kind == "table"
    && words(tables[i].columns[j].name) == metric && numeric(tables[i].name, tables[i].columns[j].name)
  }

  /** SELECT ROUND(AVG(`table`.`column`), `decimals`) FROM `table`. */
  function AverageOf(table: string, column: string, decimals: nat): Select {
    Select([Item(Call("round", [Agg("avg", Column(table, column)), IntLit(decimals)]), "")], [Source(table, "", false, None)],
           None, [], None, [], None, None, false, false)
  }

  /** An average is asked for, the draft is a bare SELECT of one source without aggregate,
      and one column of the catalog alone is the metric. */
  ghost predicate AverageWarranted(request: Option<ScalarRequest>, numeric: (string, string) -> bool, words: string -> set<string>,
                                   q: Select, cat: Catalog, r: Select) {
    && request.Some? && |q.sources| <= 1 && !FindsAgg(q)
    && q == Select(q.items, q.sources, None, [], None, [], None, q.offset, q.distinct, q.nested)
    && exists i: nat, j: nat ::
         && AverageAt(cat.tables, request.value.metric, words, numeric, i, j)
         && r == AverageOf(cat.tables[i].name, cat.tables[i].columns[j].name, request.value.decimals)
         && forall k: nat, l: nat | AverageAt(cat.tables, request.value.metric, words, numeric, k, l) :: k == i && l == j
  }

  /** The scalar edit is the average of the one column that the metric names, and there is
      none otherwise. */
  lemma AveragesExactly(request: Option<ScalarRequest>, numeric: (string, string) -> bool, words: string -> set<string>,
                        q: Select, cat: Catalog, r: Select)
    ensures ScalarAverage(request, numeric, words, q, cat) == Some(r) <==> AverageWarranted(request, numeric, words, q, cat, r)
  {
    if request.Some? {
      var p := Averageable(request.value.metric, words, numeric);
      assert forall k: nat, l: nat ::
        AverageAt(cat.tables, request.value.metric, words, numeric, k, l) <==> PassesAt(cat.tables, p, k, l);
      var owners := ColumnsThat(cat.tables, p);
      if |owners| == 1 {
        var i, j := CatalogOne(cat.tables, p);
        assert AverageAt(cat.tables, request.value.metric, words, numeric, i, j);
      }
      if AverageWarranted(request, numeric, words, q, cat, r) {
        var i: nat, j: nat :| (
          && AverageAt(cat.tables, request.value.metric, words, numeric, i, j)
          && r == AverageOf(cat.tables[i].name, cat.tables[i].columns[j].name, request.value.decimals)
          && forall k: nat, l: nat | AverageAt(cat.tables, request.value.metric, words, numeric, k, l) :: k == i && l == j);
        CatalogOnly(cat.tables, p, i, j);
      }
    }
  }

  /** An edit is made only of an unnested SELECT without DISTINCT, OFFSET or `*`, and never
      one that changes nothing ... */
  lemma EditedPlainly(request: OutputRequest, numeric: (string, string) -> bool, words: string -> set<string>, q: Select, cat: Catalog)
    ensures OutputEdit(request, numeric, words, q, cat).Some? ==>
      && !q.nested && !q.distinct && q.offset == None && (forall i | 0 <= i < |q.items| :: q.items[i].value != AllColumns)
      && OutputEdit(request, numeric, words, q, cat).value.1 != q
  {
  }

  /** ... and one is made whenever the projection, the ranking or, failing both, the average
      would change the statement. */
  lemma EditedWhenever(request: OutputRequest, numeric: (string, string) -> bool, words: string -> set<string>, q: Select, cat: Catalog)
    requires OutputEdit(request, numeric, words, q, cat).None?
    requires !q.nested && !q.distinct && q.offset == None && forall i | 0 <= i < |q.items| :: q.items[i].value != AllColumns
    ensures request.requested.Some? && ProjectionFires(request.requested.value, words, q, cat.tables) ==>
      Edited(request.requested.value, words, q, cat.tables) == q
    ensures !Projects(request, words, q, cat) ==>
      if GroupCountRank(request.rank, words, q, cat).Some? then GroupCountRank(request.rank, words, q, cat) == Some(q)
      else ScalarAverage(request.scalar, numeric, words, q, cat) in {None, Some(q)}
  {
    assert Simple(q);
  }

  // ------------------------------------------------------------------ no edit twice

  lemma AllPicked<T>(s: seq<T>, mask: seq<bool>)
    requires |mask| == |s| && forall i | 0 <= i < |mask| :: mask[i]
    ensures Pick(s, Negate(mask)) == []
  {
    if s != [] {
      AllPicked(s[1..], mask[1..]);
      assert Negate(mask)[1..] == Negate(mask[1..]);
    }
  }

  /** The projection edit does not fire on what it has edited: every output left is bound. */
  lemma ProjectionSettles(requested: set<string>, words: string -> set<string>, q: Select, tables: seq<TableInfo>)
    requires ProjectionFires(requested, words, q, tables)
    ensures !ProjectionFires(requested, words, Edited(requested, words, q, tables), tables)
  {
    var r := Edited(requested, words, q, tables);
    ExpandKeepsItems(q, DroppedItems(requested, words, q, tables));
    assert r.items == Pick(q.items, EditMask(requested, words, q, tables)) && r.sources == q.sources;
    AllKept(requested, words, q, r, tables);
  }

  lemma AllKept(requested: set<string>, words: string -> set<string>, q: Select, r: Select, tables: seq<TableInfo>)
    requires r.sources == q.sources && r.items == Pick(q.items, EditMask(requested, words, q, tables))
    ensures DroppedItems(requested, words, r, tables) == []
  {
    var aliases, b := AliasMap(q.sources), EditBindings(requested, words, q, tables);
    KeptBound(q.items, aliases, b);
    AllPicked(r.items, KeepMask(r.items, aliases, b));
  }

  predicate OrderOrdinals(q: Select) { exists i | 0 <= i < |q.order| :: HasIntLit(q.order[i].key) }

  /** The guards on sources and outputs read only those, once there is a group. */
  lemma SameGuards(requested: set<string>, words: string -> set<string>, q: Select, r: Select, tables: seq<TableInfo>)
    requires r.items == q.items && r.sources == q.sources && r.group == q.group != []
    requires ProjectionFires(requested, words, r, tables) && !HasOrdinals(q)
    ensures ProjectionFires(requested, words, q, tables)
  {
    assert EditBindings(requested, words, r, tables) == EditBindings(requested, words, q, tables);
    assert SourcesLicensed(requested, words, q, tables);
    assert DroppedItems(requested, words, r, tables) == DroppedItems(requested, words, q, tables);
  }

  lemma RankKeeps(request: Option<RankRequest>, words: string -> set<string>, q: Select, cat: Catalog)
    requires GroupCountRank(request, words, q, cat).Some?
    ensures var r := GroupCountRank(request, words, q, cat).value;
      r.items == q.items && r.sources == q.sources && r.group == q.group != []
  {
  }

  /** A ranked statement lets the projection fire anew only where an ordinal in the
      replaced ORDER BY had kept it from firing. */
  lemma RankingUnblocks(request: OutputRequest, words: string -> set<string>, q: Select, cat: Catalog)
    requires GroupCountRank(request.rank, words, q, cat).Some? && !Projects(request, words, q, cat)
    requires Projects(request, words, GroupCountRank(request.rank, words, q, cat).value, cat)
    ensures OrderOrdinals(q)
  {
    var r := GroupCountRank(request.rank, words, q, cat).value;
    RankKeeps(request.rank, words, q, cat);
    assert !HasOrdinals(r) && r.group == q.group;
    if !HasOrdinals(q) { SameGuards(request.requested.value, words, q, r, cat.tables); }
  }

  /** The scalar average settles everything: one output, no group, an aggregate. */
  lemma ScalarSettles(request: OutputRequest, numeric: (string, string) -> bool, words: string -> set<string>, q: Select, cat: Catalog)
    requires ScalarAverage(request.scalar, numeric, words, q, cat).Some?
    ensures OutputEdit(request, numeric, words, ScalarAverage(request.scalar, numeric, words, q, cat).value, cat).None?
  {
    var r := ScalarAverage(request.scalar, numeric, words, q, cat).value;
    var args := r.items[0].value.args;
    assert HasAgg(args[0]);
    assert HasAgg(r.items[0].value);
    assert FindsAgg(r);
  }

  /** The first edit that applies, by its guards. */
  lemma EditApplied(request: OutputRequest, numeric: (string, string) -> bool, words: string -> set<string>, q: Select, cat: Catalog)
    requires OutputEdit(request, numeric, words, q, cat).Some?
    ensures var (code, r) := OutputEdit(request, numeric, words, q, cat).value;
      match code
      case RequestedProjection => Projects(request, words, q, cat) && r == Edited(request.requested.value, words, q, cat.tables)
      case RequestedRanking => !Projects(request, words, q, cat) && GroupCountRank(request.rank, words, q, cat) == Some(r)
      case _ => code.RequestedScalar? && ScalarAverage(request.scalar, numeric, words, q, cat) == Some(r)
  {
  }

  /** What is left for the contract of a planned statement: never the edit that planned it;
      after a scalar average nothing, and after a ranking nothing unless an ordinal in the
      draft's ORDER BY had blocked the projection. */
  predicate Settled(code: Code, q: Select, again: Option<(Code, Select)>) {
    && (again.Some? ==> again.value.0 != code)
    && (code.RequestedScalar? ==> again.None?)
    && (code.RequestedRanking? && !OrderOrdinals(q) ==> again.None?)
  }

  lemma ProjectedOnce(request: OutputRequest, numeric: (string, string) -> bool, words: string -> set<string>, q: Select, cat: Catalog)
    requires Projects(request, words, q, cat)
    ensures Settled(RequestedProjection, q, OutputEdit(request, numeric, words, Edited(request.requested.value, words, q, cat.tables), cat))
  {
    ProjectionSettles(request.requested.value, words, q, cat.tables);
  }

  /** A ranked statement that the projection does not shorten is left alone. */
  lemma RankedAgain(request: OutputRequest, numeric: (string, string) -> bool, words: string -> set<string>, r: Select, cat: Catalog)
    requires GroupCountRank(request.rank, words, r, cat) == Some(r)
    ensures var again := OutputEdit(request, numeric, words, r, cat);
      (again.Some? ==> again.value.0.RequestedProjection?) && (!Projects(request, words, r, cat) ==> again.None?)
  {
  }

  lemma RankedOnce(request: OutputRequest, numeric: (string, string) -> bool, words: string -> set<string>, q: Select, cat: Catalog, r: Select)
    requires !Projects(request, words, q, cat) && GroupCountRank(request.rank, words, q, cat) == Some(r)
    ensures Settled(RequestedRanking, q, OutputEdit(request, numeric, words, r, cat))
  {
    RankIdempotent(request.rank, words, q, cat);
    RankedAgain(request, numeric, words, r, cat);
    if Projects(request, words, r, cat) { RankingUnblocks(request, words, q, cat); }
  }

  /** No output edit applies twice: what re-compiling the contract of a planned statement
      can still find. */
  lemma OutputSettles(request: OutputRequest, numeric: (string, string) -> bool, words: string -> set<string>, q: Select, cat: Catalog)
    requires OutputEdit(request, numeric, words, q, cat).Some?
    ensures var (code, planned) := OutputEdit(request, numeric, words, q, cat).value;
      Settled(code, q, OutputEdit(request, numeric, words, planned, cat))
  {
    var edit := OutputEdit(request, numeric, words, q, cat).value;
    EditApplied(request, numeric, words, q, cat);
    match edit.0
    case RequestedProjection => ProjectedOnce(request, numeric, words, q, cat);
    case RequestedRanking => RankedOnce(request, numeric, words, q, cat, edit.1);
    case _ => ScalarSettles(request, numeric, words, q, cat);
  }
}
