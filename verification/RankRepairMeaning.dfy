/** What a rank repair answers, on every table content. */
module RankRepairMeaning {
  import opened Prelude
  import opened Orders
  import opened Sql
  import opened SqlFacts
  import opened OutputContract
  import opened ProjectionPlan
  import opened GroupRank
  import opened RankBinding
  import opened ClauseCritic
  import opened RepairContract

  ghost predicate DistinctTables(tables: seq<TableInfo>) {
    forall i, j | 0 <= i < j < |tables| :: tables[i].name != tables[j].name
  }

  // -------------------------------------------------------------- the metric key

  /** A bound metric is a column of the table it is bound to. */
  lemma {:induction false} MetricColumn(tables: seq<TableInfo>, qw: set<string>, words: string -> set<string>, o: Owned)
    requires BindMetric(tables, qw, words) == Some(o) && DistinctTables(tables)
    ensures o.1 in ColumnsOf(tables, o.0) && exists i :: 0 <= i < |tables| && tables[i].name == o.0
  {
    MetricIsOnly(tables, qw, words, o);
    var i: nat, j: nat :| MetricAt(tables, qw, words, i, j) && o == (tables[i].name, tables[i].columns[j].name);
    assert tables[i].columns[j] in tables[i].columns;
    ColumnsAt(tables, i);
  }

  lemma {:induction false} ColumnsAt(tables: seq<TableInfo>, i: nat)
    requires i < |tables| && DistinctTables(tables)
    ensures ColumnsOf(tables, tables[i].name) == ColumnNames(tables[i].columns)
  {
    if i > 0 { ColumnsAt(tables[1..], i - 1); }
  }

  lemma {:induction false} ProjectionsNamed(items: seq<Item>, n: string)
    ensures Projections(items, n) == [] ==> FirstNamed(items, n) == None
    ensures |Projections(items, n)| > 0 ==> FirstNamed(items, n).Some? && FirstNamed(items, n).value.value == Projections(items, n)[0]
  {
    if items != [] { ProjectionsNamed(items[1..], n); }
  }

  lemma OwnerIsName(e: Expr, q: Select, cat: Catalog, bound: Owned)
    requires |q.sources| == 1 && e.Column? && OwnerOf(e, q, cat.tables) == Some(bound)
    requires Elab(e, SourceScope(q, cat), true).Some?
    ensures Elab(e, SourceScope(q, cat), true) == Some(Src(q.sources[0].Name(), bound.1))
  {
    ColumnCore(e, q, cat, e.name);
  }

  /** An ORDER BY key that matches the metric means the metric column. */
  lemma MatchedCore(q: Select, cat: Catalog, outputs: seq<Core>, s: Scope, bound: Owned, aggOk: bool)
    requires Prepared(q, cat, outputs, s) && OrderMatches(q, Some(bound), cat.tables) && !AnyFold(outputs)
    requires ElabOrderKey(q.order[0].key, s, outputs, aggOk).Some?
    ensures ElabOrderKey(q.order[0].key, s, outputs, aggOk) == Some(Src(q.sources[0].Name(), bound.1))
  {
    var key := q.order[0].key;
    var src := SourceScope(q, cat);
    ProjectionsNamed(q.items, key.name);
    NamedCore(q.items, outputs, src, key.name);
    OneOwner(q, cat, key.table, key.name);
    if key.table == "" && |Projections(q.items, key.name)| == 1 {
      var i := FirstNamedIn(q.items, key.name);
      ElabEach(Values(q.items), src, outputs, i);
      OwnerIsName(q.items[i].value, q, cat, bound);
    } else if key.table == "" {
      assert FindAlias(s.aliases, key.name) == None;
    }
  }

  lemma NoFolds(q: Select, cat: Catalog)
    requires !FindsAgg(q) && Compile(q, cat).Some?
    ensures !AnyFold(Compile(q, cat).value.outputs)
  {
    forall i | 0 <= i < |q.items| ensures !HasAgg(Values(q.items)[i]) { assert !HasAgg(q.items[i].value); }
    NoAggsNoFolds(Values(q.items), SourceScope(q, cat));
  }

  lemma {:induction false} ElabOrderDirections(order: seq<Ordered>, after: seq<Ordered>, s: Scope, outputs: seq<Core>, aggOk: bool)
    requires ElabOrder(order, s, outputs, aggOk).Some? && |after| == |order|
    requires forall i | 0 <= i < |order| :: after[i].key == order[i].key
    ensures ElabOrder(after, s, outputs, aggOk).Some?
  {
    if order != [] { ElabOrderDirections(order[1..], after[1..], s, outputs, aggOk); }
  }

  lemma ElabOrderHead(order: seq<Ordered>, s: Scope, outputs: seq<Core>, aggOk: bool)
    requires order != [] && ElabOrder(order, s, outputs, aggOk).Some?
    ensures ElabOrderKey(order[0].key, s, outputs, aggOk).Some?
    ensures ElabOrder(order, s, outputs, aggOk).value[0] ==
      SortKey(ElabOrderKey(order[0].key, s, outputs, aggOk).value, order[0].desc, order[0].nullsFirst)
  {
  }

  /** The planned statement prepares, reads the same rows, and sorts by the metric first. */
  lemma PlannedPlan(question: Question, words: string -> set<string>, q: Select, cat: Catalog)
    requires ContractOf(question, words, q, cat).Some? && q.sources[0].Name() != ""
    requires Compile(q, cat).Some? && DistinctTables(cat.tables)
    ensures var c := ContractOf(question, words, q, cat).value;
            var p0 := Compile(q, cat).value;
            var p := Compile(c.planned, cat);
      && p.Some? && p.value == p0.(order := p.value.order, limit := Some(IntLit(question.rank.value.count)))
      && p.value.order != [] && c.planned.order != []
      && p.value.order[0] == SortKey(Src(q.sources[0].Name(), c.metric.1), c.planned.order[0].desc, c.planned.order[0].nullsFirst)
      && OnlyMetric(cat.tables, question.words, words, c.metric) && c.metric.0 == q.sources[0].table
  {
    MetricIsOnly(cat.tables, question.words, words, ContractOf(question, words, q, cat).value.metric);
    var c := ContractOf(question, words, q, cat).value;
    var r := c.planned;
    var outputs := Compile(q, cat).value.outputs;
    var s := Scope(q.sources, cat.tables, Aliases(q.items, outputs));
    NoFolds(q, cat);
    FoundBefore(question, words, q, cat);
    var codes := Contradictions(Assessment(question, words, q, cat));
    PlannedMatches(question, words, q, cat, codes);
    assert r.limit == Some(IntLit(question.rank.value.count));
    if q.order == [] {
      MetricColumn(cat.tables, question.words, words, c.metric);
      OneOwner(q, cat, q.sources[0].Name(), c.metric.1);
      assert ElabOrder(r.order[1..], s, outputs, false) == Some([]);
    } else {
      ElabOrderDirections(q.order, r.order, s, outputs, false);
    }
    ElabOrderHead(r.order, s, outputs, false);
    MatchedCore(r, cat, outputs, s, c.metric, false);
  }

  // ---------------------------------------------------------------- the answer

  /** The metric of a returned row; an absent cell is NULL. */
  function Metric(x: Context, source: string, column: string): Value
    requires |x| > 0
  {
    if (source, column) in x[0] then x[0][(source, column)] else Null
  }

  /** `a` is better than `b` in the asked direction, NULL being the smallest value. */
  predicate Better(a: Value, b: Value, descending: bool) { if descending then ValueLess(b, a) else ValueLess(a, b) }

  /** NULL is the smallest value in the planned order. */
  predicate NullsSmallest(k: Ordered) { k.nullsFirst == !k.desc }

  /** An order that was not touched must already put NULL where the smallest value goes. */
  lemma PlannedNulls(question: Question, words: string -> set<string>, q: Select, cat: Catalog)
    requires ContractOf(question, words, q, cat).Some? && q.sources[0].Name() != ""
    ensures var codes := Contradictions(Assessment(question, words, q, cat));
            var planned := ContractOf(question, words, q, cat).value.planned;
            planned.order != [] && (NullsSmallest(planned.order[0]) <==> (OrderAllowed(q, codes) || NullsSmallest(q.order[0])))
  {
    PlannedMatches(question, words, q, cat, Contradictions(Assessment(question, words, q, cat)));
  }

  /** The planned direction is the asked one, unless the order was kept and the languages disagree. */
  lemma PlannedDirection(question: Question, words: string -> set<string>, q: Select, cat: Catalog)
    requires ContractOf(question, words, q, cat).Some? && q.sources[0].Name() != ""
    ensures var codes := Contradictions(Assessment(question, words, q, cat));
            var planned := ContractOf(question, words, q, cat).value.planned;
            HasDirection(question) && planned.order != [] &&
            (planned.order[0].desc == AskedDirection(question) <==> (OrderAllowed(q, codes) || !Disagree(question)))
  {
    FoundBefore(question, words, q, cat);
    PlannedMatches(question, words, q, cat, Contradictions(Assessment(question, words, q, cat)));
  }

  /** `arranged` returns its best `k` rows by the metric and omits the others. */
  ghost predicate TopK(p: Plan, k: nat, source: string, column: string, descending: bool, population: seq<Row>, w: World, arranged: seq<Context>) {
    var m := if k < |population| then k else |population|;
    && multiset(arranged) == multiset(Singletons(population)) && |arranged| == |population|
    && Returned(p, arranged, w) == arranged[..m]
    && (forall i | 0 <= i < |arranged| :: |arranged[i]| == 1)
    && forall i, j | 0 <= i < m <= j < |arranged| ::
         !Better(Metric(arranged[j], source, column), Metric(arranged[i], source, column), descending)
  }

  /** Rows one by one, sorted first by a source column. */
  ghost predicate SortedPlan(p: Plan, k: nat, source: string, column: string, descending: bool) {
    && !p.grouped && !AnyFold(p.outputs) && p.having == None && p.limit == Some(IntLit(k)) && Plain(p)
    && p.order != [] && p.order[0] == SortKey(Src(source, column), descending, !descending)
  }

  lemma FirstKeyDecides(p: Plan, k: nat, source: string, column: string, descending: bool, x: Context, y: Context, w: World)
    requires SortedPlan(p, k, source, column, descending) && |x| == 1 && |y| == 1 && !Precedes(p, 0, y, x, w)
    ensures !Better(Metric(y, source, column), Metric(x, source, column), descending)
  {
    assert CoreValue(p, Src(source, column), x, w) == Metric(x, source, column);
    assert CoreValue(p, Src(source, column), y, w) == Metric(y, source, column);
    assert !Before(p.order[0], Metric(y, source, column), Metric(x, source, column));
  }

  /** Without groups and HAVING the arranged contexts are the source rows, one by one. */
  lemma RowByRow(p: Plan, k: nat, db: Database, w: World, arranged: seq<Context>)
    requires !p.grouped && !AnyFold(p.outputs) && p.having == None && p.limit == Some(IntLit(k)) && Plain(p)
    requires Arrangement(p, db, w, arranged)
    ensures var n := |SourceRows(p, db, w)|;
      && multiset(arranged) == multiset(Singletons(SourceRows(p, db, w))) && |arranged| == n
      && Returned(p, arranged, w) == arranged[..if k < n then k else n]
    ensures forall i | 0 <= i < |arranged| :: |arranged[i]| == 1
  {
    PlainArrangement(p, db, w, arranged);
    PlainReturned(p, arranged, w);
    HavingNone(p, Singletons(SourceRows(p, db, w)), w);
    SameSize(arranged, Singletons(SourceRows(p, db, w)));
    forall i | 0 <= i < |arranged| ensures |arranged[i]| == 1 { assert arranged[i] in arranged; }
  }

  lemma SortedTopK(p: Plan, k: nat, source: string, column: string, descending: bool, db: Database, w: World, arranged: seq<Context>)
    requires SortedPlan(p, k, source, column, descending) && Arrangement(p, db, w, arranged)
    ensures TopK(p, k, source, column, descending, SourceRows(p, db, w), w, arranged)
  {
    PlainArrangement(p, db, w, arranged);
    RowByRow(p, k, db, w, arranged);
    forall i, j | 0 <= i < j < |arranged|
      ensures !Better(Metric(arranged[j], source, column), Metric(arranged[i], source, column), descending)
    {
      FirstKeyDecides(p, k, source, column, descending, arranged[i], arranged[j], w);
    }
  }

  /** The order the planned statement sorts by is the asked one: the contract set it, or
      the kept key has the asked direction and puts NULL where the smallest value goes. */
  ghost predicate OrderAsked(question: Question, words: string -> set<string>, q: Select, cat: Catalog) {
    OrderAllowed(q, Contradictions(Assessment(question, words, q, cat))) || (!Disagree(question) && NullsSmallest(q.order[0]))
  }

  /** `answer` is an asked top k of the rows: the first rows of some arrangement of the
      population in which no omitted row beats a returned one. */
  ghost predicate IsTopK(p: Plan, k: nat, source: string, column: string, descending: bool, population: seq<Row>, w: World,
                         answer: seq<seq<Value>>) {
    exists arranged ::
      answer == Render(p, Returned(p, arranged, w), w) && TopK(p, k, source, column, descending, population, w, arranged)
  }

  /** The rank repair answers the asked top k when the order is the asked one: whatever
      the table holds and in whatever order SQLite breaks ties, the planned statement
      returns min(count, population) rows of the unchanged WHERE population, and no row
      it omits is better than a row it returns. */
  lemma RankRepairTopK(question: Question, words: string -> set<string>, q: Select, cat: Catalog, db: Database, w: World,
                       answer: seq<seq<Value>>)
    requires ContractOf(question, words, q, cat).Some? && q.sources[0].Name() != ""
    requires Compile(q, cat).Some? && DistinctTables(cat.tables) && OrderAsked(question, words, q, cat)
    ensures var c := ContractOf(question, words, q, cat).value;
            var p := Compile(c.planned, cat);
      && p.Some? && HasDirection(question)
      && OnlyMetric(cat.tables, question.words, words, c.metric) && c.metric.0 == q.sources[0].table
      && (exists a :: IsAnswer(p.value, db, w, a))
      && (IsAnswer(p.value, db, w, answer) ==>
            IsTopK(p.value, question.rank.value.count, q.sources[0].Name(), c.metric.1, AskedDirection(question),
                   SourceRows(Compile(q, cat).value, db, w), w, answer))
  {
    var c := ContractOf(question, words, q, cat).value;
    PlannedPlan(question, words, q, cat);
    PlannedNulls(question, words, q, cat);
    PlannedDirection(question, words, q, cat);
    NoFolds(q, cat);
    var p := Compile(c.planned, cat).value;
    AnswerExists(p, db, w);
    if IsAnswer(p, db, w, answer) {
      var arranged :| Arrangement(p, db, w, arranged) && answer == Render(p, Returned(p, arranged, w), w);
      SortedTopK(p, question.rank.value.count, q.sources[0].Name(), c.metric.1, AskedDirection(question), db, w, arranged);
    }
  }
}
