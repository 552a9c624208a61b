/** Statements on which the ranking edits miss what was asked. */
module RankExamples {
  import opened Prelude
  import opened Orders
  import opened Sql
  import opened SqlFacts
  import opened OutputContract
  import opened ProjectionExamples
  import opened GroupRank
  import opened RankBinding
  import opened ClauseCritic
  import opened RepairContract
  import opened RankRepairMeaning
  import opened GroupRankMeaning
  import opened GroupRankExact

  /** Top 1 by highest score. */
  const TOP_SCORE := Question(Some(English(true, 1)), [true], false, {"score"})

  /** SELECT t.name FROM t ORDER BY t.score DESC NULLS FIRST LIMIT `n`. */
  function NullsFirst(n: nat): Select {
    Select([Item(NAME, "")], [Source("t", "", false, None)], None, [], None,
           [Ordered(Column("t", "score"), true, true)], Some(IntLit(n)), None, false, false)
  }

  lemma ScoreBound()
    ensures BindMetric(CATALOG.tables, {"score"}, Words) == Some(("t", "score"))
  {
    var cs := CATALOG.tables[0].columns;
    assert Words(cs[0].name) == {"name"} && "name" !in {"score"};
    assert Words(cs[2].name) == {"team"} && "team" !in {"score"};
    SecondBound(CATALOG.tables, {"score"});
  }

  lemma SecondBound(tables: seq<TableInfo>, qw: set<string>)
    requires |tables| == 1 && |tables[0].columns| == 3 && tables[0].columns[1].name in qw
    requires tables[0].columns[0].name !in qw && tables[0].columns[2].name !in qw
    ensures BindMetric(tables, qw, Words) == Some((tables[0].name, tables[0].columns[1].name))
  {
    forall i: nat, j: nat | MetricAt(tables, qw, Words, i, j) ensures i == 0 && j == 1 {
      assert tables[i].columns[j].name in Words(tables[i].columns[j].name);
    }
    assert MetricAt(tables, qw, Words, 0, 1);
    MetricIsOnly(tables, qw, Words, (tables[0].name, tables[0].columns[1].name));
  }

  lemma ScoreMatches(n: nat)
    ensures OrderMatches(NullsFirst(n), Some(("t", "score")), CATALOG.tables)
  {
    var q := NullsFirst(n);
    assert q.sources[1..] == [];
    assert AliasMap(q.sources) == map["t" := "t"] + AliasMap(q.sources[1..]);
  }

  lemma NullsScope()
    ensures InScope(TOP_SCORE, NullsFirst(10)) && !FindsAgg(NullsFirst(10)) && NullsFirst(10).offset == None
    ensures HasDirection(TOP_SCORE) && CriticDirection(TOP_SCORE) == NullsFirst(10).order[0].desc
  {
  }

  lemma NullsCodes()
    ensures Contradictions(Assessment(TOP_SCORE, Words, NullsFirst(10), CATALOG)) == {RankLimit}
  {
    var q := NullsFirst(10);
    ScoreBound();
    ScoreMatches(10);
    NullsScope();
    CodesOpen();
    CodesOf(TOP_SCORE, Words, q, CATALOG, Contradiction);
    OrderCodes(TOP_SCORE, q, Some(("t", "score")), CATALOG.tables, Contradiction);
    LimitCodes(TOP_SCORE, q, Contradiction);
  }

  /** Only the limit is repaired: the direction is right, and the critic does not look at NULLS FIRST. */
  lemma NullsContract()
    ensures ContractOf(TOP_SCORE, Words, NullsFirst(10), CATALOG)
            == Some(Contract({RankLimit}, [LimitField], ("t", "score"), NullsFirst(1)))
  {
    NullsCodes();
    NullsPlanned();
  }

  lemma NullsPlanned()
    ensures PlanRepair(TOP_SCORE, Words, NullsFirst(10), CATALOG, {RankLimit})
            == Some(Contract({RankLimit}, [LimitField], ("t", "score"), NullsFirst(1)))
  {
    var q := NullsFirst(10);
    ScoreBound();
    ScoreMatches(10);
    assert !FindsAgg(q);
    assert Allowed(q, {RankLimit}) == [LimitField];
  }

  lemma NullsPlan(n: nat)
    ensures Compile(NullsFirst(n), CATALOG)
            == Some(TinyPlan([], [Src("t", "name")], [SortKey(Src("t", "score"), true, true)]).(limit := Some(IntLit(n))))
  {
    var q := NullsFirst(n);
    var name := Src("t", "name");
    TinyOwners("t", "name");
    TinyOwners("t", "score");
    ElabOne(NAME, TinyScope([]));
    assert Values(q.items) == [NAME];
    assert !AnyFold([name]);
    OrderOne(q.order[0], TinyScope(Aliases(q.items, [name])), [name], false);
    TinyCompile(q, [name], [], [SortKey(Src("t", "score"), true, true)]);
  }

  lemma NullsPopulation(p: Plan, db: Database, w: World, x: Row, y: Row)
    requires p == TinyPlan([], [Src("t", "name")], [SortKey(Src("t", "score"), true, true)]).(limit := Some(IntLit(1)))
    requires SourceRows(p, db, w) == [x, y]
    ensures Population(p, db, w) == [[x], [y]]
  {
    assert !AnyFold(p.outputs);
    assert Singletons([x, y]) == [[x], [y]];
    HavingNone(p, [[x], [y]], w);
  }

  /** Two rows, one without a score: the planned statement returns that one. */
  lemma NullsFirstBeaten(p: Plan, db: Database, w: World, x: Row, y: Row, arranged: seq<Context>)
    requires p == TinyPlan([], [Src("t", "name")], [SortKey(Src("t", "score"), true, true)]).(limit := Some(IntLit(1)))
    requires SourceRows(p, db, w) == [x, y] && ("t", "score") !in x && ("t", "score") in y && y[("t", "score")] == Num(2.0)
    requires Arrangement(p, db, w, arranged)
    ensures !TopK(p, 1, "t", "score", true, SourceRows(p, db, w), w, arranged)
  {
    NullsPopulation(p, db, w, x, y);
    PlainArrangement(p, db, w, arranged);
    PlainReturned(p, arranged, w);
    TwoOrders([x], [y], arranged);
    assert CoreValue(p, Src("t", "score"), [x], w) == Null && CoreValue(p, Src("t", "score"), [y], w) == Num(2.0);
    assert Precedes(p, 0, [x], [y], w);
    assert arranged == [[x], [y]];
    assert Better(Metric(arranged[1], "t", "score"), Metric(arranged[0], "t", "score"), true);
  }

  /** The table: one row without a score, one with score 2. */
  lemma NullsTable(p: Plan, w: World) returns (db: Database, x: Row, y: Row)
    requires p.joins == [JoinPlan("t", "t", false, None)] && p.where == None
    ensures SourceRows(p, db, w) == [x, y] && ("t", "score") !in x && ("t", "score") in y && y[("t", "score")] == Num(2.0)
  {
    var unknown: Record := map["name" := Text("b")];
    var known: Record := map["score" := Num(2.0)];
    db := map["t" := [unknown, known]];
    x, y := Bind("t", unknown), Bind("t", known);
    SingleSourceRows(p, db, w);
    FilterNone(BindAll("t", [unknown, known]), w);
    BindCell("t", unknown, "score");
    BindCell("t", known, "score");
  }

  /** No order of the answer is a top 1. */
  ghost predicate NeverTop(p: Plan, db: Database, w: World) {
    forall arranged :: Arrangement(p, db, w, arranged) ==> !TopK(p, 1, "t", "score", true, SourceRows(p, db, w), w, arranged)
  }

  /** ORDER BY score DESC NULLS FIRST LIMIT 10, asked for the top 1: the contract
      sets LIMIT 1, and what is returned is a row without a score. */
  lemma NullsExample(w: World)
    ensures var c := ContractOf(TOP_SCORE, Words, NullsFirst(10), CATALOG);
            c.Some? && !Disagree(TOP_SCORE) && Compile(NullsFirst(10), CATALOG).Some? && Compile(c.value.planned, CATALOG).Some?
            && exists db :: NeverTop(Compile(c.value.planned, CATALOG).value, db, w)
  {
    NullsContract();
    NullsPlan(1);
    NullsPlan(10);
    var p := TinyPlan([], [Src("t", "name")], [SortKey(Src("t", "score"), true, true)]).(limit := Some(IntLit(1)));
    var db, x, y := NullsTable(p, w);
    forall arranged | Arrangement(p, db, w, arranged) ensures !TopK(p, 1, "t", "score", true, SourceRows(p, db, w), w, arranged) {
      NullsFirstBeaten(p, db, w, x, y, arranged);
    }
    assert NeverTop(p, db, w);
  }

  /** SELECT note AS created, COUNT(*) FROM orders GROUP BY created. */
  function NoteAsCreated(): Select {
    Select([Item(Column("", "note"), "created"), Item(Agg("count", Star), "")],
           [Source("orders", "", false, None)], None, [Column("", "created")], None, [], None, None, false, false)
  }

  const ORDERS := Catalog([TableInfo("orders", "table",
    [ColumnInfo("id", false, 1), ColumnInfo("created", true, 0), ColumnInfo("note", true, 0)], [])])

  function OrderWords(n: string): set<string> { if n == "orders" then {"order"} else {n} }

  /** Which note has the most orders?  Of equal ones the first note. */
  const MOST_ORDERS := Some(RankRequest(true, "order", {"note"}, false))

  lemma OrderColumns()
    ensures ColumnsOf(ORDERS.tables, "orders") == {"id", "created", "note"} == ColumnNames(ORDERS.tables[0].columns)
    ensures PrimaryKey(ORDERS.tables[0].columns) == ["id"]
  {
    var cs := ORDERS.tables[0].columns;
    assert cs[0] in cs && cs[1] in cs && cs[2] in cs;
    assert ColumnNames(cs) == {"id", "created", "note"};
    assert cs[1..][1..] == [cs[2]] && cs[1..][1..][1..] == [];
    assert PrimaryKey(cs[1..][1..]) == [] && PrimaryKey(cs[1..]) == [];
  }

  lemma NoteShape()
    ensures var q := NoteAsCreated();
      && CountOf(q, "id", ORDERS.tables[0].columns) == Some(Agg("count", Star))
      && CountOutputs(q.items, "created") == 1 && KeyOf(q) == Some(Column("", "note"))
  {
    var q := NoteAsCreated();
    var count := Agg("count", Star);
    assert AggsIn(q.items[1].value) == {count};
    assert forall a :: a in AggSet(q) <==> a == count by { assert count in AggsIn(q.items[1].value); }
    assert AggSet(q) == {count};
    assert q.items[1..] == [q.items[1]] && q.items[1..][1..] == [];
    assert CountOutputs(q.items[1..], "created") == 0;
  }

  /** The statement the edit plans. */
  function NoteRanked(): Select {
    NoteAsCreated().(order := [Ordered(Agg("count", Star), true, false), Ordered(Column("", "note"), false, true)], limit := Some(IntLit(1)))
  }

  lemma NoteLicensed()
    ensures GroupCountRank(MOST_ORDERS, OrderWords, NoteAsCreated(), ORDERS) == Some(NoteRanked())
    ensures KeyClash(NoteAsCreated(), ORDERS)
  {
    var q := NoteAsCreated();
    OrderColumns();
    NoteShape();
    assert TableNamed(ORDERS.tables, "orders") == Some(ORDERS.tables[0]);
    assert Simple(q);
  }

  const NOTE := Src("orders", "note")
  const ROWS := Fold("count", Const(Num(1.0)))

  lemma NoteNames(aliases: seq<Named>, aggOk: bool)
    ensures var s := Scope([Source("orders", "", false, None)], ORDERS.tables, aliases);
      && Elab(Column("", "note"), s, aggOk) == Some(NOTE) && Elab(Column("", "created"), s, aggOk) == Some(Src("orders", "created"))
      && Elab(Agg("count", Star), s, true) == Some(ROWS)
  {
    OrderColumns();
    var sources := [Source("orders", "", false, None)];
    assert sources[1..] == [];
    assert Owners(sources[1..], ORDERS.tables, "", "note") == [] && Owners(sources[1..], ORDERS.tables, "", "created") == [];
  }

  lemma NoteOrder(order: seq<Ordered>, s: Scope)
    requires order == NoteRanked().order && Elab(Agg("count", Star), s, true) == Some(ROWS)
    requires FindAlias(s.aliases, "note") == None && Elab(Column("", "note"), s, true) == Some(NOTE)
    ensures ElabOrder(order, s, [NOTE, ROWS], true) == Some([SortKey(ROWS, true, false), SortKey(NOTE, false, true)])
  {
    assert order[1..] == [order[1]];
    OrderOne(order[1], s, [NOTE, ROWS], true);
    assert [SortKey(ROWS, true, false)] + [SortKey(NOTE, false, true)] == [SortKey(ROWS, true, false), SortKey(NOTE, false, true)];
  }

  lemma NotePlan()
    ensures Compile(NoteRanked(), ORDERS).Some?
    ensures var p := Compile(NoteRanked(), ORDERS).value;
      && p.outputs == [NOTE, ROWS] && p.group == [Src("orders", "created")]
      && p.order == [SortKey(ROWS, true, false), SortKey(NOTE, false, true)] && p.where == None
  {
    var r := NoteRanked();
    var src := SourceScope(r, ORDERS);
    NoteNames([], true);
    assert Values(r.items) == [Column("", "note"), Agg("count", Star)];
    ElabTwo(Column("", "note"), Agg("count", Star), src);
    var s := Scope(r.sources, ORDERS.tables, Aliases(r.items, [NOTE, ROWS]));
    NoteNames(s.aliases, true);
    NoteNames(s.aliases, false);
    AliasTwo(r.items[0], r.items[1], NOTE, ROWS, "note");
    GroupOne(Column("", "created"), s, [NOTE, ROWS], Src("orders", "created"));
    NoteOrder(r.order, s);
    assert r.sources[1..] == [] && ElabSources(r.sources[1..], s) == Some([]);
  }

  function OrderRecord(id: real, created: string, note: string): Record {
    map["id" := Num(id), "created" := Text(created), "note" := Text(note)]
  }

  /** Created on "a" with note "z", and on "b" with note "y". */
  function OrdersDb(): Database { map["orders" := [OrderRecord(1.0, "a", "z"), OrderRecord(2.0, "b", "y")]] }

  function FirstOrder(): Row { Bind("orders", OrderRecord(1.0, "a", "z")) }
  function SecondOrder(): Row { Bind("orders", OrderRecord(2.0, "b", "y")) }

  predicate OrderCells(r: Row, created: string, note: string) {
    && ("orders", "created") in r && r[("orders", "created")] == Text(created)
    && ("orders", "note") in r && r[("orders", "note")] == Text(note)
  }

  lemma OrderRows(p: Plan, w: World)
    requires p.joins == [JoinPlan("orders", "orders", false, None)] && p.where == None
    ensures SourceRows(p, OrdersDb(), w) == [FirstOrder(), SecondOrder()]
    ensures OrderCells(FirstOrder(), "a", "z") && OrderCells(SecondOrder(), "b", "y")
  {
    SingleSourceRows(p, OrdersDb(), w);
    FilterNone(BindAll("orders", OrdersDb()["orders"]), w);
    assert BindAll("orders", OrdersDb()["orders"]) == [FirstOrder(), SecondOrder()];
    BindCell("orders", OrderRecord(1.0, "a", "z"), "created");
    BindCell("orders", OrderRecord(1.0, "a", "z"), "note");
    BindCell("orders", OrderRecord(2.0, "b", "y"), "created");
    BindCell("orders", OrderRecord(2.0, "b", "y"), "note");
  }

  lemma OrdersConform()
    ensures Conforms(OrdersDb(), ORDERS.tables)
  {
    var records := OrdersDb()["orders"];
    assert forall i | 0 <= i < |records| :: "id" in records[i] && records[i]["id"] != Null;
  }

  /** The planned statement as a plan. */
  lemma NoteCounted() returns (p: Plan)
    ensures Compile(NoteRanked(), ORDERS) == Some(p) && p.outputs == [NOTE, ROWS] && p.where == None
    ensures CountedPlan(p, Const(Num(1.0)), Src("orders", "created"), NOTE, true, false)
    ensures p.joins == [JoinPlan("orders", "orders", false, None)]
  {
    NoteLicensed();
    NotePlan();
    p := Compile(NoteRanked(), ORDERS).value;
    var arg, key, other := EditedRank(MOST_ORDERS, OrderWords, NoteAsCreated(), ORDERS, p);
  }

  lemma SecondReturned(p: Plan, w: World, t: Row, u: Row)
    requires CountedPlan(p, Const(Num(1.0)), Src("orders", "created"), NOTE, true, false) && p.outputs == [NOTE, ROWS]
    requires SourceRows(p, OrdersDb(), w) == [t, u] && OrderCells(t, "a", "z") && OrderCells(u, "b", "y")
    ensures IsAnswer(p, OrdersDb(), w, [[Text("y"), Num(1.0)]]) && !IsWinner(p, true, false, OrdersDb(), w, [[Text("y"), Num(1.0)]])
  {
    assert StringLess("a", "b") && !StringLess("z", "y");
    assert [t, u][0] == t;
    assert CountsAll(Const(Num(1.0)), [t, u], w) && CountsAll(Const(Num(1.0)), [u], w);
    WrongWinner(p, Const(Num(1.0)), Src("orders", "created"), NOTE, true, false, t, u, 0, OrdersDb(), w);
    OneRow(p, u, w);
    TwoOutputs(NOTE, ROWS, [u], u, w);
    CountIsSize(Const(Num(1.0)), [u], w);
    assert RenderRow(p, [u], w) == [Text("y"), Num(1.0)];
  }

  /** Two orders, two groups: grouped by the column `created`, the first creation date
      wins the tie, but the statement sorts by the note and returns the other row. */
  lemma KeyClashExample(w: World)
    ensures GroupCountRank(MOST_ORDERS, OrderWords, NoteAsCreated(), ORDERS) == Some(NoteRanked())
    ensures Compile(NoteRanked(), ORDERS).Some? && Conforms(OrdersDb(), ORDERS.tables)
    ensures var p := Compile(NoteRanked(), ORDERS).value;
      && IsAnswer(p, OrdersDb(), w, [[Text("y"), Num(1.0)]])
      && |p.group| == 1 && !IsWinner(p, true, false, OrdersDb(), w, [[Text("y"), Num(1.0)]])
  {
    NoteLicensed();
    OrdersConform();
    var p := NoteCounted();
    OrderRows(p, w);
    SecondReturned(p, w, FirstOrder(), SecondOrder());
  }
}
