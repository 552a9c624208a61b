/** Drafts whose licensed edit answers something else, one per failing family. */
module ProjectionExamples {
  import opened Prelude
  import opened Orders
  import opened Sql
  import opened SqlFacts
  import opened OutputContract
  import opened ProjectionPlan
  import opened ProjectionMeaning

  const CATALOG := Catalog([TableInfo("t", "table",
    [ColumnInfo("name", true, 0), ColumnInfo("score", true, 0), ColumnInfo("team", true, 0)], [])])

  const NAME := Column("t", "name")

  function Words(n: string): set<string> { {n} }

  /** SELECT t.name, `dropped` FROM t GROUP BY `group` ORDER BY `order`. */
  function Draft(kept: Item, dropped: Item, group: seq<Expr>, order: seq<Ordered>): Select {
    Select([kept, dropped], [Source("t", "", false, None)], None, group, None, order, None, None, false, false)
  }

  function Person(name: string, score: real): Record {
    map["name" := Text(name), "score" := Num(score), "team" := Text("x")]
  }

  /** MAX and the row it makes SQLite read bare columns from, for two rows with the maximum second. */
  function TinyWorld(): World {
    World((op, vs) => Null, (fn: string, vs: seq<Value>) => if |vs| > 0 then vs[|vs| - 1] else Null, v => v != Null, e => None,
          (fs: set<Core>, x: Context) => if fs == {} then 0 else 1)
  }

  lemma Columns()
    ensures ColumnsOf(CATALOG.tables, "t") == {"name", "score", "team"}
    ensures ColumnNames(CATALOG.tables[0].columns) == {"name", "score", "team"}
  {
    var cs := CATALOG.tables[0].columns;
    assert cs[0].name == "name" && cs[1].name == "score" && cs[2].name == "team";
    assert cs[0] in cs && cs[1] in cs && cs[2] in cs;
    assert ColumnNames(cs) == {"name", "score", "team"};
  }

  lemma OneValue<K, V>(k: K, v: V)
    ensures map[k := v].Values == {v}
  {
    assert k in map[k := v] && map[k := v][k] == v;
  }

  lemma PickTwo<T>(a: T, b: T, x: bool, y: bool)
    ensures Pick([a, b], [x, y]) == (if x then [a] else []) + (if y then [b] else [])
  {
    assert [a, b][1..] == [b] && [x, y][1..] == [y];
    assert Pick([b], [y]) == if y then [b] else [];
  }

  lemma CountTwo(a: Item, b: Item, n: string)
    ensures CountAlias([a, b], n) == (if a.alias == n then 1 else 0) + (if b.alias == n then 1 else 0)
  {
    assert [a, b][1..] == [b];
    assert CountAlias([b], n) == (if b.alias == n then 1 else 0) + CountAlias([b][1..], n);
  }

  lemma DraftBindings(q: Select)
    requires q.sources == [Source("t", "", false, None)]
    ensures AliasMap(q.sources) == map["t" := "t"]
    ensures EditBindings({"name"}, Words, q, CATALOG.tables) == map[("t", "name") := {"name"}]
  {
    Columns();
    assert AliasMap(q.sources) == map["t" := "t"];
    OneValue("t", "t");
    assert EditBindings({"name"}, Words, q, CATALOG.tables).Keys == {("t", "name")};
  }

  lemma DraftSources(q: Select)
    requires q.sources == [Source("t", "", false, None)] && |q.items| == 2 && (FindsAgg(q) ==> q.group != [])
    ensures SourcesLicensed({"name"}, Words, q, CATALOG.tables)
  {
    var b: Bindings := map[("t", "name") := {"name"}];
    DraftBindings(q);
    OneValue("t", "t");
    OneValue(("t", "name"), {"name"});
    assert CATALOG.tables[0].name == "t";
    assert "name" in Union(b.Values);
    assert Covered(b, {"name"}, Words, map["t" := "t"]);
  }

  lemma DraftMask(kept: Item, dropped: Item)
    requires kept.value == NAME && dropped.value != NAME && (dropped.value.Column? ==> dropped.value.name != "name")
    ensures KeepMask([kept, dropped], map["t" := "t"], map[("t", "name") := {"name"}]) == [true, false]
    ensures Matched([kept, dropped], map["t" := "t"], map[("t", "name") := {"name"}]) == {("t", "name")}
  {
    var aliases: map<string, string> := map["t" := "t"];
    var b: Bindings := map[("t", "name") := {"name"}];
    assert ItemBinding(kept, aliases, b) == Some(("t", "name"));
    assert IsBound(kept, aliases, b) && !IsBound(dropped, aliases, b);
    var items := [kept, dropped];
    assert items[0] == kept && items[1] == dropped;
    assert ItemBinding(items[0], aliases, b).value in Matched(items, aliases, b);
  }

  lemma DraftOutputs(kept: Item, dropped: Item)
    requires kept.value == NAME && dropped.value != NAME && (dropped.value.Column? ==> dropped.value.name != "name")
    ensures OutputsLicensed([kept, dropped], map["t" := "t"], map[("t", "name") := {"name"}])
  {
    DraftMask(kept, dropped);
    PickTwo(kept, dropped, true, false);
    PickTwo(kept, dropped, false, true);
    assert Negate([true, false]) == [false, true];
    var b: Bindings := map[("t", "name") := {"name"}];
    assert b.Keys == {("t", "name")};
  }

  lemma DraftAlias(kept: Item, dropped: Item)
    requires dropped.alias !in {"", kept.alias, "name", "score", "team"}
    ensures AllExpandable([dropped], [kept, dropped], CATALOG.tables)
  {
    Columns();
    CountTwo(kept, dropped, dropped.alias);
    assert !IsCatalogColumn(CATALOG.tables, dropped.alias);
  }

  lemma DraftEdit(kept: Item, dropped: Item, group: seq<Expr>, order: seq<Ordered>)
    requires kept.value == NAME && dropped.value != NAME && (dropped.value.Column? ==> dropped.value.name != "name")
    ensures var q := Draft(kept, dropped, group, order);
            EditMask({"name"}, Words, q, CATALOG.tables) == [true, false] && DroppedItems({"name"}, Words, q, CATALOG.tables) == [dropped]
  {
    DraftBindings(Draft(kept, dropped, group, order));
    DraftMask(kept, dropped);
    PickTwo(kept, dropped, false, true);
    assert Negate([true, false]) == [false, true];
  }

  lemma Assemble(requested: set<string>, words: string -> set<string>, q: Select, tables: seq<TableInfo>)
    requires Simple(q) && SourcesLicensed(requested, words, q, tables) && !HasOrdinals(q)
    requires OutputsLicensed(q.items, AliasMap(q.sources), EditBindings(requested, words, q, tables))
    requires AllExpandable(DroppedItems(requested, words, q, tables), q.items, tables)
    ensures Licensed(requested, words, q, tables)
  {
  }

  lemma DraftSimple(kept: Item, dropped: Item, group: seq<Expr>, order: seq<Ordered>)
    requires !kept.value.AllColumns? && !dropped.value.AllColumns?
    ensures Simple(Draft(kept, dropped, group, order))
  {
  }

  /** Every draft of this shape that keeps the name and drops an expandable alias is edited. */
  lemma DraftLicensed(kept: Item, dropped: Item, group: seq<Expr>, order: seq<Ordered>)
    requires kept.value == NAME && dropped.value != NAME && (dropped.value.Column? ==> dropped.value.name != "name")
    requires dropped.alias !in {"", kept.alias, "name", "score", "team"}
    requires !dropped.value.AllColumns? && (FindsAgg(Draft(kept, dropped, group, order)) ==> group != [])
    requires !HasOrdinals(Draft(kept, dropped, group, order))
    ensures Licensed({"name"}, Words, Draft(kept, dropped, group, order), CATALOG.tables)
  {
    var q := Draft(kept, dropped, group, order);
    DraftSources(q);
    DraftBindings(q);
    DraftOutputs(kept, dropped);
    DraftAlias(kept, dropped);
    DraftEdit(kept, dropped, group, order);
    DraftSimple(kept, dropped, group, order);
    Assemble({"name"}, Words, q, CATALOG.tables);
  }

  // ------------------------------------------------------------ the tiny table

  function Db(): Database { map["t" := [Person("b", 1.0), Person("a", 2.0)]] }
  function RowB(): Row { Bind("t", Person("b", 1.0)) }
  function RowA(): Row { Bind("t", Person("a", 2.0)) }

  function TinyPlan(group: seq<Core>, outputs: seq<Core>, order: seq<SortKey>): Plan {
    Plan([JoinPlan("t", "t", false, None)], None, group != [], group, None, false, outputs, order, None, None)
  }

  lemma TinyCells()
    ensures CellsOf(RowB(), "b", 1.0) && CellsOf(RowA(), "a", 2.0)
  {
    BindCell("t", Person("b", 1.0), "name");
    BindCell("t", Person("b", 1.0), "score");
    BindCell("t", Person("a", 2.0), "name");
    BindCell("t", Person("a", 2.0), "score");
    BindCell("t", Person("b", 1.0), "team");
    BindCell("t", Person("a", 2.0), "team");
  }

  predicate CellsOf(r: Row, name: string, score: real) {
    && ("t", "name") in r && r[("t", "name")] == Text(name)
    && ("t", "score") in r && r[("t", "score")] == Num(score)
    && ("t", "team") in r && r[("t", "team")] == Text("x")
  }

  lemma TinyRows(p: Plan)
    requires p.joins == [JoinPlan("t", "t", false, None)] && p.where == None
    ensures SourceRows(p, Db(), TinyWorld()) == [RowB(), RowA()]
  {
    SingleSourceRows(p, Db(), TinyWorld());
    FilterNone(BindAll("t", Db()["t"]), TinyWorld());
  }

  lemma TinyPopulation(p: Plan)
    requires p.joins == [JoinPlan("t", "t", false, None)] && p.where == None && p.having == None
    requires !p.grouped && !AnyFold(p.outputs)
    ensures Population(p, Db(), TinyWorld()) == [[RowB()], [RowA()]]
  {
    TinyRows(p);
    TwoSingletons(RowB(), RowA());
    assert RawContexts(p, Db(), TinyWorld()) == [[RowB()], [RowA()]];
    HavingNone(p, [[RowB()], [RowA()]], TinyWorld());
  }

  lemma TwoSingletons(x: Row, y: Row)
    ensures Singletons([x, y]) == [[x], [y]]
  {
  }

  lemma TwoOrders(x: Context, y: Context, arranged: seq<Context>)
    requires multiset(arranged) == multiset([x, y])
    ensures arranged == [x, y] || arranged == [y, x]
  {
    assert |arranged| == |multiset(arranged)| == |multiset([x, y])| == 2;
    assert arranged == [arranged[0], arranged[1]];
    assert multiset(arranged) == multiset{arranged[0], arranged[1]} && multiset([x, y]) == multiset{x, y};
    assert arranged[0] in multiset{x, y} && arranged[1] in multiset{x, y};
    assert x in multiset{arranged[0], arranged[1]} && y in multiset{arranged[0], arranged[1]};
  }

  const BY_NAME := [SortKey(Src("t", "name"), false, true)]

  lemma OneOutput(c: Core, group: Context, bare: Row, w: World)
    ensures EvalAll([c], group, bare, w) == [Eval(c, group, bare, w)]
  {
    assert [c][1..] == [];
  }

  lemma TwoOutputs(b: Core, c: Core, group: Context, bare: Row, w: World)
    ensures EvalAll([b, c], group, bare, w) == [Eval(b, group, bare, w), Eval(c, group, bare, w)]
  {
    assert [b, c][1..] == [c];
    OneOutput(c, group, bare, w);
  }

  ghost predicate TwoRows(p: Plan, db: Database, w: World, x: Row, y: Row) {
    && !p.grouped && !AnyFold(p.outputs) && p.limit == None && Plain(p)
    && Population(p, db, w) == [[x], [y]]
    && CellsOf(x, "b", 1.0) && CellsOf(y, "a", 2.0)
  }

  lemma NameSooner(p: Plan, x: Row, y: Row, w: World)
    requires CellsOf(x, "b", 1.0) && CellsOf(y, "a", 2.0) && p.order == BY_NAME
    ensures Precedes(p, 0, [y], [x], w)
  {
    assert StringLess("a", "b");
    assert Before(BY_NAME[0], Text("a"), Text("b"));
  }

  /** Ordered by name, the two names come out as a, b. */
  lemma ByNameAnswers(p: Plan, db: Database, w: World, x: Row, y: Row, answer: seq<seq<Value>>)
    requires TwoRows(p, db, w, x, y) && p.outputs == [Src("t", "name")] && p.order == BY_NAME && IsAnswer(p, db, w, answer)
    ensures answer == [[Text("a")], [Text("b")]]
  {
    var arranged :| Arrangement(p, db, w, arranged) && answer == Render(p, Returned(p, arranged, w), w);
    PlainArrangement(p, db, w, arranged);
    PlainReturned(p, arranged, w);
    TwoOrders([x], [y], arranged);
    NameSooner(p, x, y, w);
    assert arranged == [[y], [x]];
    OneOutput(Src("t", "name"), [x], x, w);
    OneOutput(Src("t", "name"), [y], y, w);
  }

  /** A draft whose order allows it returns the two rows as stored. */
  lemma DraftReturns(p: Plan, db: Database, w: World, x: Row, y: Row, c: Core)
    requires TwoRows(p, db, w, x, y) && p.outputs == [Src("t", "name"), c]
    requires !Precedes(p, 0, [y], [x], w)
    ensures IsAnswer(p, db, w, [[Text("b"), Eval(c, [x], x, w)], [Text("a"), Eval(c, [y], y, w)]])
  {
    var arranged := [[x], [y]];
    PlainArrangement(p, db, w, arranged);
    PlainReturned(p, arranged, w);
    assert Arrangement(p, db, w, arranged);
    TwoOutputs(Src("t", "name"), c, [x], x, w);
    TwoOutputs(Src("t", "name"), c, [y], y, w);
    assert Render(p, arranged, w) == [[Text("b"), Eval(c, [x], x, w)], [Text("a"), Eval(c, [y], y, w)]];
  }

  // ----------------------------------------------------------- preparing drafts

  function TinyScope(aliases: seq<Named>): Scope { Scope([Source("t", "", false, None)], CATALOG.tables, aliases) }

  lemma TinyOwners(t: string, n: string)
    requires t in {"", "t"}
    ensures n in {"name", "score", "team"} ==> Owners([Source("t", "", false, None)], CATALOG.tables, t, n) == [Source("t", "", false, None)]
    ensures n !in {"name", "score", "team"} ==> Owners([Source("t", "", false, None)], CATALOG.tables, t, n) == []
  {
    Columns();
    var sources := [Source("t", "", false, None)];
    assert sources[1..] == [];
    assert Owners(sources[1..], CATALOG.tables, t, n) == [];
  }

  /** The names after FROM, given the cores of the outputs and of the keys. */
  lemma TinyCompile(q: Select, outputs: seq<Core>, group: seq<Core>, order: seq<SortKey>)
    requires q.sources == [Source("t", "", false, None)] && q.where == None && q.having == None && !q.nested
    requires |q.items| == |outputs| && (q.group != [] <==> group != [])
    requires ElabAll(Values(q.items), TinyScope([]), true) == Some(outputs)
    requires ElabGroup(q.group, TinyScope(Aliases(q.items, outputs)), outputs) == Some(group)
    requires ElabOrder(q.order, TinyScope(Aliases(q.items, outputs)), outputs, q.group != [] || AnyFold(outputs)) == Some(order)
    ensures Compile(q, CATALOG) == Some(TinyPlan(group, outputs, order).(limit := q.limit, distinct := q.distinct, offset := q.offset))
  {
    var s := TinyScope(Aliases(q.items, outputs));
    assert q.sources[1..] == [];
    assert ElabSources(q.sources[1..], s) == Some([]);
    assert ElabOpt(q.sources[0].on, s, false) == Some(None);
    assert [JoinPlan("t", "t", false, None)] + [] == [JoinPlan("t", "t", false, None)];
  }

  lemma ElabOne(a: Expr, s: Scope)
    ensures ElabAll([a], s, true) == if Elab(a, s, true).None? then None else Some([Elab(a, s, true).value])
  {
    assert ElabAll([a][1..], s, true) == Some([]);
    if Elab(a, s, true).Some? { assert [Elab(a, s, true).value] + [] == [Elab(a, s, true).value]; }
  }

  lemma ElabTwo(a: Expr, b: Expr, s: Scope)
    ensures ElabAll([a, b], s, true) == if Elab(a, s, true).None? || Elab(b, s, true).None? then None
                                        else Some([Elab(a, s, true).value, Elab(b, s, true).value])
  {
    ElabOne(b, s);
    assert [a, b][1..] == [b];
    assert ElabAll([a, b][1..], s, true) == ElabAll([b], s, true);
    if Elab(a, s, true).Some? && Elab(b, s, true).Some? {
      assert [Elab(a, s, true).value] + [Elab(b, s, true).value] == [Elab(a, s, true).value, Elab(b, s, true).value];
    }
  }

  lemma OrderOne(k: Ordered, s: Scope, outputs: seq<Core>, aggOk: bool)
    requires ElabOrderKey(k.key, s, outputs, aggOk).Some?
    ensures ElabOrder([k], s, outputs, aggOk) == Some([SortKey(ElabOrderKey(k.key, s, outputs, aggOk).value, k.desc, k.nullsFirst)])
  {
    assert ElabOrder([k][1..], s, outputs, aggOk) == Some([]);
    var key := SortKey(ElabOrderKey(k.key, s, outputs, aggOk).value, k.desc, k.nullsFirst);
    assert [key] + [] == [key];
  }

  lemma AliasTwo(a: Item, b: Item, c: Core, d: Core, n: string)
    requires n != ""
    ensures FindAlias(Aliases([a, b], [c, d]), n) == if a.alias == n then Some(c) else if b.alias == n then Some(d) else None
    ensures FindAlias(Aliases([a], [c]), n) == if a.alias == n then Some(c) else None
  {
    AliasOne(b, d, n);
    AliasOne(a, c, n);
    assert [a, b][1..] == [b] && [c, d][1..] == [d];
    if a.alias != "" { assert Aliases([a, b], [c, d])[1..] == Aliases([b], [d]); }
  }

  lemma AliasOne(a: Item, c: Core, n: string)
    requires n != ""
    ensures FindAlias(Aliases([a], [c]), n) == if a.alias == n then Some(c) else None
  {
    assert [a][1..] == [] && [c][1..] == [];
    assert Aliases([], []) == [];
    if a.alias != "" { assert Aliases([a], [c])[1..] == []; }
  }

  lemma DraftPlan(kept: Item, d: Item, core: Core)
    requires kept.value == NAME && d.alias !in {"", kept.alias}
    requires Elab(d.value, TinyScope([]), true) == Some(core) && !HasFold(core)
    ensures Compile(Draft(kept, d, [], [Ordered(Column("", d.alias), false, true)]), CATALOG)
            == Some(TinyPlan([], [Src("t", "name"), core], [SortKey(core, false, true)]))
  {
    var q := Draft(kept, d, [], [Ordered(Column("", d.alias), false, true)]);
    var name := Src("t", "name");
    TinyOwners("t", "name");
    ElabTwo(NAME, d.value, TinyScope([]));
    assert Values(q.items) == [NAME, d.value];
    AliasTwo(kept, d, name, core, d.alias);
    assert !AnyFold([name, core]);
    OrderOne(q.order[0], TinyScope(Aliases(q.items, [name, core])), [name, core], false);
    TinyCompile(q, [name, core], [], [SortKey(core, false, true)]);
  }

  lemma EditedShape(kept: Item, d: Item, group: seq<Expr>, order: seq<Ordered>)
    requires d.alias != "" && (order == [] || order == [Ordered(Column("", d.alias), false, true)])
    ensures var r := EditOf(Draft(kept, d, group, order), [true, false]);
      && r.items == [kept] && Values(r.items) == [kept.value]
      && r.order == (if order == [] then [] else [Ordered(d.value, false, true)])
      && r == Draft(kept, d, group, order).(items := r.items, order := r.order, group := r.group)
      && |r.group| == |group| && (forall i | 0 <= i < |group| :: r.group[i] == ExpandItems(group[i], [d]))
  {
    var q := Draft(kept, d, group, order);
    PickTwo(kept, d, true, false);
    PickTwo(kept, d, false, true);
    assert Negate([true, false]) == [false, true];
    ExpandKeepsItems(q, [d]);
    ClausesPointwise(q, [d]);
    var r := EditOf(q, [true, false]);
    assert Pick(q.items, Negate([true, false])) == [d] && Pick(q.items, [true, false]) == [kept];
    assert r == ExpandAllClauses(q, [d]).(items := [kept]);
    assert [d][1..] == [];
    assert r.order == if order == [] then [] else [order[0].(key := ExpandItems(order[0].key, [d]))];
    assert ExpandItems(Column("", d.alias), [d]) == ExpandItems(d.value, [d][1..]) == d.value;
  }

  lemma EditedPlanByName(kept: Item, d: Item)
    requires kept.value == NAME && d.alias != ""
    requires ElabOrderKey(d.value, TinyScope(Aliases([kept], [Src("t", "name")])), [Src("t", "name")], false) == Some(Src("t", "name"))
    ensures Compile(EditOf(Draft(kept, d, [], [Ordered(Column("", d.alias), false, true)]), [true, false]), CATALOG)
            == Some(TinyPlan([], [Src("t", "name")], BY_NAME))
  {
    var name := Src("t", "name");
    var r := EditOf(Draft(kept, d, [], [Ordered(Column("", d.alias), false, true)]), [true, false]);
    EditedShape(kept, d, [], [Ordered(Column("", d.alias), false, true)]);
    TinyOwners("t", "name");
    ElabOne(NAME, TinyScope([]));
    assert !AnyFold([name]);
    OrderOne(r.order[0], TinyScope(Aliases([kept], [name])), [name], false);
    TinyCompile(r, [name], [], BY_NAME);
  }

  lemma TinyTwoRows(p: Plan)
    requires p.joins == [JoinPlan("t", "t", false, None)] && p.where == None && p.having == None && p.limit == None
    requires !p.grouped && !AnyFold(p.outputs) && Plain(p)
    ensures TwoRows(p, Db(), TinyWorld(), RowB(), RowA())
  {
    TinyCells();
    TinyPopulation(p);
  }

  /** A licensed edit that returns other rows than the draft it was made from. */
  ghost predicate Betrays(q: Select, cat: Catalog, requested: set<string>, words: string -> set<string>, db: Database, w: World) {
    Licensed(requested, words, q, cat.tables) && Differs(q, cat, requested, words, db, w)
  }

  /** Some answer of the draft, without the dropped columns, is no answer of the edit. */
  ghost predicate Differs(q: Select, cat: Catalog, requested: set<string>, words: string -> set<string>, db: Database, w: World) {
    && Compile(q, cat).Some? && Compile(Edited(requested, words, q, cat.tables), cat).Some?
    && exists full, answer :: IsAnswer(Compile(q, cat).value, db, w, full)
         && DropsTo(full, EditMask(requested, words, q, cat.tables), answer)
         && !IsAnswer(Compile(Edited(requested, words, q, cat.tables), cat).value, db, w, answer)
  }

  lemma NoAggDraft(kept: Item, d: Item, order: seq<Ordered>)
    requires !HasAgg(kept.value) && !HasAgg(d.value) && (forall i | 0 <= i < |order| :: order[i].key.Column?)
    ensures !FindsAgg(Draft(kept, d, [], order)) && !HasOrdinals(Draft(kept, d, [], order))
  {
  }

  lemma BetrayedBy(q: Select, cat: Catalog, requested: set<string>, words: string -> set<string>, db: Database, w: World,
                   p: Plan, r: Plan, full: seq<seq<Value>>, answer: seq<seq<Value>>)
    requires Licensed(requested, words, q, cat.tables)
    requires Compile(q, cat) == Some(p) && Compile(Edited(requested, words, q, cat.tables), cat) == Some(r)
    requires IsAnswer(p, db, w, full) && DropsTo(full, EditMask(requested, words, q, cat.tables), answer) && !IsAnswer(r, db, w, answer)
    ensures Betrays(q, cat, requested, words, db, w)
  {
  }

  /** The answers of the two plans of a draft ordered by a dropped alias. */
  lemma OrderAnswers(p: Plan, r: Plan, core: Core)
    requires core == Src("t", "score") || core.Const?
    requires p == TinyPlan([], [Src("t", "name"), core], [SortKey(core, false, true)])
    requires r == TinyPlan([], [Src("t", "name")], BY_NAME)
    ensures exists full, answer :: IsAnswer(p, Db(), TinyWorld(), full) && DropsTo(full, [true, false], answer)
              && !IsAnswer(r, Db(), TinyWorld(), answer)
  {
    var w := TinyWorld();
    assert !AnyFold(p.outputs) && !AnyFold(r.outputs);
    TinyTwoRows(p);
    TinyTwoRows(r);
    StoredOrderAllowed(p, core, RowB(), RowA(), w);
    DraftReturns(p, Db(), w, RowB(), RowA(), core);
    var full := [[Text("b"), Eval(core, [RowB()], RowB(), w)], [Text("a"), Eval(core, [RowA()], RowA(), w)]];
    var answer := [[Text("b")], [Text("a")]];
    DropTwo(full, answer);
    assert answer[0][0] != [[Text("a")], [Text("b")]][0][0];
    if IsAnswer(r, Db(), w, answer) { ByNameAnswers(r, Db(), w, RowB(), RowA(), answer); }
  }

  /** A draft ordered by a dropped alias, and its edit, which orders by the name. */
  lemma OrderBetrayed(kept: Item, d: Item, core: Core)
    requires kept.value == NAME && d.alias !in {"", kept.alias, "name", "score", "team"}
    requires d.value != NAME && (d.value.Column? ==> d.value.name != "name") && !HasAgg(d.value) && !d.value.AllColumns?
    requires Elab(d.value, TinyScope([]), true) == Some(core) && !HasFold(core)
    requires ElabOrderKey(d.value, TinyScope(Aliases([kept], [Src("t", "name")])), [Src("t", "name")], false) == Some(Src("t", "name"))
    requires core == Src("t", "score") || core.Const?
    ensures Betrays(Draft(kept, d, [], [Ordered(Column("", d.alias), false, true)]), CATALOG, {"name"}, Words, Db(), TinyWorld())
  {
    var order := [Ordered(Column("", d.alias), false, true)];
    var q := Draft(kept, d, [], order);
    NoAggDraft(kept, d, order);
    DraftLicensed(kept, d, [], order);
    DraftEdit(kept, d, [], order);
    LicenseGuards({"name"}, Words, q, CATALOG);
    DraftPlan(kept, d, core);
    EditedPlanByName(kept, d);
    var p, r := TinyPlan([], [Src("t", "name"), core], [SortKey(core, false, true)]), TinyPlan([], [Src("t", "name")], BY_NAME);
    OrderAnswers(p, r, core);
    var full, answer :| IsAnswer(p, Db(), TinyWorld(), full) && DropsTo(full, [true, false], answer)
              && !IsAnswer(r, Db(), TinyWorld(), answer);
    BetrayedBy(q, CATALOG, {"name"}, Words, Db(), TinyWorld(), p, r, full, answer);
  }

  lemma StoredOrderAllowed(p: Plan, core: Core, x: Row, y: Row, w: World)
    requires p.order == [SortKey(core, false, true)] && CellsOf(x, "b", 1.0) && CellsOf(y, "a", 2.0)
    requires core == Src("t", "score") || core.Const?
    ensures !Precedes(p, 0, [y], [x], w)
  {
    assert !Before(p.order[0], CoreValue(p, core, [y], w), CoreValue(p, core, [x], w)) by {
      if core.Const? { ValueLessIrreflexive(core.v); }
    }
    assert !Precedes(p, 1, [y], [x], w);
  }

  lemma ValueLessIrreflexive(v: Value)
    ensures !ValueLess(v, v)
  {
    if v.Text? { StringLessTotal(v.chars, v.chars); }
  }

  lemma DropTwo(full: seq<seq<Value>>, answer: seq<seq<Value>>)
    requires |full| == 2 && |full[0]| == 2 && |full[1]| == 2 && answer == [[full[0][0]], [full[1][0]]]
    ensures DropsTo(full, [true, false], answer)
  {
    PickTwo(full[0][0], full[0][1], true, false);
    PickTwo(full[1][0], full[1][1], true, false);
    assert full[0] == [full[0][0], full[0][1]] && full[1] == [full[1][0], full[1][1]];
    assert Pick(full[0], [true, false]) == [full[0][0]] && Pick(full[1], [true, false]) == [full[1][0]];
  }

  /** SELECT t.name, 1 AS k FROM t ORDER BY k becomes SELECT t.name FROM t ORDER BY 1. */
  lemma OrdinalExample()
    ensures Betrays(Draft(Item(NAME, ""), Item(IntLit(1), "k"), [], [Ordered(Column("", "k"), false, true)]),
                    CATALOG, {"name"}, Words, Db(), TinyWorld())
  {
    OrderBetrayed(Item(NAME, ""), Item(IntLit(1), "k"), Const(Num(1.0)));
  }

  /** SELECT t.name AS score, score AS s FROM t ORDER BY s becomes
      SELECT t.name AS score FROM t ORDER BY score, which is the name. */
  lemma AliasExample()
    ensures Betrays(Draft(Item(NAME, "score"), Item(Column("", "score"), "s"), [], [Ordered(Column("", "s"), false, true)]),
                    CATALOG, {"name"}, Words, Db(), TinyWorld())
  {
    TinyOwners("", "score");
    var name := Src("t", "name");
    AliasTwo(Item(NAME, "score"), Item(NAME, "score"), name, name, "score");
    OrderBetrayed(Item(NAME, "score"), Item(Column("", "score"), "s"), Src("t", "score"));
  }

  // ------------------------------------------------------- a bare column and MAX

  const BEST := Fold("max", Src("t", "score"))

  lemma OneGroup(x: Row, y: Row, key: Core, w: World)
    requires !HasFold(key) && Eval(key, [x], x, w) == Eval(key, [y], y, w)
    ensures Groups([x, y], [key], w) == [[x, y]]
  {
    OneOutput(key, [x], x, w);
    OneOutput(key, [y], y, w);
    var k := GroupKey([key], x, w);
    assert [x, y][1..] == [y] && [y][1..] == [];
    assert WithKey([y], [key], k, true, w) == [y] && WithKey([y], [key], k, false, w) == [];
    assert WithKey([x, y], [key], k, true, w) == [x, y];
  }

  /** Grouped by team, the two rows are one group. */
  lemma TinyGroup(p: Plan)
    requires p.joins == [JoinPlan("t", "t", false, None)] && p.where == None && p.having == None
    requires p.grouped && p.group == [Src("t", "team")]
    ensures Population(p, Db(), TinyWorld()) == [[RowB(), RowA()]]
  {
    TinyRows(p);
    TinyCells();
    OneGroup(RowB(), RowA(), Src("t", "team"), TinyWorld());
    HavingNone(p, [[RowB(), RowA()]], TinyWorld());
  }

  lemma OneContext(p: Plan, db: Database, w: World, x: Context, answer: seq<seq<Value>>)
    requires Population(p, db, w) == [x] && p.limit == None && p.order == [] && Plain(p)
    ensures IsAnswer(p, db, w, answer) <==> answer == Render(p, [x], w)
  {
    PlainArrangement(p, db, w, [x]);
    PlainReturned(p, [x], w);
    assert Arrangement(p, db, w, [x]);
    if arranged :| Arrangement(p, db, w, arranged) && answer == Render(p, Returned(p, arranged, w), w) {
      PlainArrangement(p, db, w, arranged);
      assert |arranged| == |multiset(arranged)| == 1;
      assert arranged[0] in multiset(arranged);
      assert arranged == [x];
    }
  }

  /** MAX makes SQLite read the second row, the edited statement reads the first. */
  lemma BareRows(p: Plan, r: Plan, x: Context)
    requires p == TinyPlan([Src("t", "team")], [Src("t", "name"), BEST], [])
    requires r == TinyPlan([Src("t", "team")], [Src("t", "name")], [])
    requires |x| == 2
    ensures BareRow(p, x, TinyWorld()) == x[1] && BareRow(r, x, TinyWorld()) == x[0]
  {
    assert p.outputs[1] == BEST && BEST in Folds(p.outputs[1]);
    assert PlanFolds(p) != {} by { assert BEST in FoldsOf(p.outputs); }
    assert PlanFolds(r) == {};
  }

  lemma MaxRender(p: Plan, r: Plan, x: Row, y: Row, w: World)
    requires p.outputs == [Src("t", "name"), BEST] && r.outputs == [Src("t", "name")]
    requires CellsOf(x, "b", 1.0) && CellsOf(y, "a", 2.0) && BareRow(p, [x, y], w) == y && BareRow(r, [x, y], w) == x
    requires w.agg("max", [Num(1.0), Num(2.0)]) == Num(2.0)
    ensures Render(p, [[x, y]], w) == [[Text("a"), Num(2.0)]] && Render(r, [[x, y]], w) == [[Text("b")]]
  {
    var xs := [x, y];
    TwoOutputs(Src("t", "name"), BEST, xs, y, w);
    OneOutput(Src("t", "name"), xs, x, w);
    assert xs[1..] == [y] && xs[1..][1..] == [];
    assert EvalRows(Src("t", "score"), xs[1..], w) == [Num(2.0)];
    assert EvalRows(Src("t", "score"), xs, w) == [Num(1.0), Num(2.0)];
    assert Eval(BEST, xs, y, w) == Num(2.0);
  }

  lemma MaxAnswers(p: Plan, r: Plan, full: seq<seq<Value>>, answer: seq<seq<Value>>)
    requires p == TinyPlan([Src("t", "team")], [Src("t", "name"), BEST], [])
    requires r == TinyPlan([Src("t", "team")], [Src("t", "name")], [])
    requires full == [[Text("a"), Num(2.0)]] && answer == [[Text("a")]]
    ensures IsAnswer(p, Db(), TinyWorld(), full) && DropsTo(full, [true, false], answer) && !IsAnswer(r, Db(), TinyWorld(), answer)
  {
    MaxRows(p, r);
    OneTeam(p, full);
    OneTeam(r, answer);
    OneRowDrops(Text("a"), Num(2.0));
    assert answer[0][0] != [[Text("b")]][0][0];
  }

  lemma OneRowDrops(x: Value, y: Value)
    ensures DropsTo([[x, y]], [true, false], [[x]])
  {
    PickTwo(x, y, true, false);
    var full, mask := [[x, y]], [true, false];
    assert Pick(full[0], mask) == [x] + [] == [x];
  }

  lemma OneTeam(p: Plan, answer: seq<seq<Value>>)
    requires p == TinyPlan([Src("t", "team")], p.outputs, [])
    ensures IsAnswer(p, Db(), TinyWorld(), answer) <==> answer == Render(p, [[RowB(), RowA()]], TinyWorld())
  {
    TinyGroup(p);
    OneContext(p, Db(), TinyWorld(), [RowB(), RowA()], answer);
  }

  /** The one group renders to the best row for the draft, to the first for the edit. */
  lemma MaxRows(p: Plan, r: Plan)
    requires p == TinyPlan([Src("t", "team")], [Src("t", "name"), BEST], [])
    requires r == TinyPlan([Src("t", "team")], [Src("t", "name")], [])
    ensures Render(p, [[RowB(), RowA()]], TinyWorld()) == [[Text("a"), Num(2.0)]]
    ensures Render(r, [[RowB(), RowA()]], TinyWorld()) == [[Text("b")]]
  {
    TinyCells();
    BareRows(p, r, [RowB(), RowA()]);
    MaxRender(p, r, RowB(), RowA(), TinyWorld());
  }

  lemma MaxPlans(kept: Item, d: Item)
    requires kept == Item(NAME, "") && d == Item(Agg("max", Column("t", "score")), "m")
    ensures Compile(Draft(kept, d, [Column("t", "team")], []), CATALOG) == Some(TinyPlan([Src("t", "team")], [Src("t", "name"), BEST], []))
    ensures Compile(EditOf(Draft(kept, d, [Column("t", "team")], []), [true, false]), CATALOG)
            == Some(TinyPlan([Src("t", "team")], [Src("t", "name")], []))
  {
    var team := Column("t", "team");
    var q := Draft(kept, d, [team], []);
    TinyOwners("t", "name");
    TinyOwners("t", "score");
    TinyOwners("t", "team");
    ElabTwo(NAME, d.value, TinyScope([]));
    ElabOne(NAME, TinyScope([]));
    assert Values(q.items) == [NAME, d.value];
    GroupOne(team, TinyScope(Aliases(q.items, [Src("t", "name"), BEST])), [Src("t", "name"), BEST], Src("t", "team"));
    TinyCompile(q, [Src("t", "name"), BEST], [Src("t", "team")], []);
    EditedShape(kept, d, [team], []);
    var r := EditOf(q, [true, false]);
    ExpandItemsTop(team, [d]);
    assert r.group == [team];
    GroupOne(team, TinyScope(Aliases(r.items, [Src("t", "name")])), [Src("t", "name")], Src("t", "team"));
    TinyCompile(r, [Src("t", "name")], [Src("t", "team")], []);
  }

  lemma GroupOne(e: Expr, s: Scope, outputs: seq<Core>, c: Core)
    requires ElabGroupKey(e, s, outputs) == Some(c)
    ensures ElabGroup([e], s, outputs) == Some([c])
  {
    assert ElabGroup([e][1..], s, outputs) == Some([]);
    assert [c] + [] == [c];
  }

  /** SELECT t.name, MAX(t.score) AS m FROM t GROUP BY t.team names the best of the
      team; without the aggregate SQLite may name any member. */
  lemma BareColumnExample()
    ensures Betrays(Draft(Item(NAME, ""), Item(Agg("max", Column("t", "score")), "m"), [Column("t", "team")], []),
                    CATALOG, {"name"}, Words, Db(), TinyWorld())
  {
    var kept, d := Item(NAME, ""), Item(Agg("max", Column("t", "score")), "m");
    var group := [Column("t", "team")];
    var q := Draft(kept, d, group, []);
    DraftLicensed(kept, d, group, []);
    DraftEdit(kept, d, group, []);
    LicenseGuards({"name"}, Words, q, CATALOG);
    MaxPlans(kept, d);
    var p, r := Compile(q, CATALOG).value, Compile(EditOf(q, [true, false]), CATALOG).value;
    MaxAnswers(p, r, [[Text("a"), Num(2.0)]], [[Text("a")]]);
    BetrayedBy(q, CATALOG, {"name"}, Words, Db(), TinyWorld(), p, r, [[Text("a"), Num(2.0)]], [[Text("a")]]);
  }

  // ----------------------------------------------- a captured GROUP BY key

  const ONE_CORE := Const(Num(1.0))

  lemma ConstantPlans(kept: Item, d: Item)
    requires kept == Item(NAME, "") && d == Item(IntLit(1), "k")
    ensures Compile(Draft(kept, d, [Column("", "k")], []), CATALOG) == Some(TinyPlan([ONE_CORE], [Src("t", "name"), ONE_CORE], []))
    ensures Compile(EditOf(Draft(kept, d, [Column("", "k")], []), [true, false]), CATALOG)
            == Some(TinyPlan([Src("t", "name")], [Src("t", "name")], []))
  {
    var name, k := Src("t", "name"), Column("", "k");
    var q := Draft(kept, d, [k], []);
    TinyOwners("t", "name");
    TinyOwners("", "k");
    ElabTwo(NAME, d.value, TinyScope([]));
    ElabOne(NAME, TinyScope([]));
    assert Values(q.items) == [NAME, d.value];
    AliasTwo(kept, d, name, ONE_CORE, "k");
    GroupOne(k, TinyScope(Aliases(q.items, [name, ONE_CORE])), [name, ONE_CORE], ONE_CORE);
    TinyCompile(q, [name, ONE_CORE], [ONE_CORE], []);
    EditedShape(kept, d, [k], []);
    var r := EditOf(q, [true, false]);
    ExpandedKey(k, d);
    assert r.group == [IntLit(1)];
    GroupOne(IntLit(1), TinyScope(Aliases(r.items, [name])), [name], name);
    TinyCompile(r, [name], [name], []);
  }

  lemma ExpandedKey(k: Expr, d: Item)
    requires d.alias != "" && k == Column("", d.alias)
    ensures ExpandItems(k, [d]) == d.value
  {
    assert [d][1..] == [];
    assert ExpandItems(k, [d]) == ExpandItems(d.value, [d][1..]) == d.value;
  }

  /** Grouped by a constant the two rows are one group, and one row. */
  lemma ConstantAnswer(p: Plan)
    requires p == TinyPlan([ONE_CORE], [Src("t", "name"), ONE_CORE], [])
    ensures IsAnswer(p, Db(), TinyWorld(), [[Text("b"), Num(1.0)]])
  {
    var x, w := [RowB(), RowA()], TinyWorld();
    ConstantGroup(p);
    TinyCells();
    OneContext(p, Db(), w, x, [[Text("b"), Num(1.0)]]);
    assert PlanFolds(p) == {};
    assert BareRow(p, x, w) == RowB();
    TwoOutputs(Src("t", "name"), ONE_CORE, x, RowB(), w);
  }

  lemma ConstantGroup(p: Plan)
    requires p == TinyPlan([ONE_CORE], [Src("t", "name"), ONE_CORE], [])
    ensures Population(p, Db(), TinyWorld()) == [[RowB(), RowA()]]
  {
    TinyRows(p);
    OneGroup(RowB(), RowA(), ONE_CORE, TinyWorld());
    HavingNone(p, [[RowB(), RowA()]], TinyWorld());
  }

  /** Grouped by the name they are two groups. */
  lemma NamesAnswer(r: Plan, answer: seq<seq<Value>>)
    requires r == TinyPlan([Src("t", "name")], [Src("t", "name")], []) && IsAnswer(r, Db(), TinyWorld(), answer)
    ensures |answer| == 2
  {
    var w := TinyWorld();
    TinyRows(r);
    TinyCells();
    TwoNames(RowB(), RowA(), w);
    HavingNone(r, [[RowB()], [RowA()]], w);
    var arranged :| Arrangement(r, Db(), w, arranged) && answer == Render(r, Returned(r, arranged, w), w);
    PlainArrangement(r, Db(), w, arranged);
    PlainReturned(r, arranged, w);
    SameSize(arranged, [[RowB()], [RowA()]]);
  }

  lemma TwoNames(x: Row, y: Row, w: World)
    requires CellsOf(x, "b", 1.0) && CellsOf(y, "a", 2.0)
    ensures Groups([x, y], [Src("t", "name")], w) == [[x], [y]]
  {
    var group := [Src("t", "name")];
    OneOutput(group[0], [x], x, w);
    OneOutput(group[0], [y], y, w);
    var k, l := GroupKey(group, x, w), GroupKey(group, y, w);
    assert k[0] != l[0];
    assert [x, y][1..] == [y] && [y][1..] == [];
    assert WithKey([y], group, k, true, w) == [] && WithKey([y], group, k, false, w) == [y];
    assert WithKey([y], group, l, true, w) == [y] && WithKey([y], group, l, false, w) == [];
    assert WithKey([x, y], group, k, true, w) == [x];
    assert Groups([y], group, w) == [[y]];
  }

  /** SELECT t.name, 1 AS k FROM t GROUP BY k is one row; the edit, SELECT t.name FROM t
      GROUP BY 1, returns every name. */
  lemma GroupExample()
    ensures Betrays(Draft(Item(NAME, ""), Item(IntLit(1), "k"), [Column("", "k")], []), CATALOG, {"name"}, Words, Db(), TinyWorld())
  {
    var kept, d := Item(NAME, ""), Item(IntLit(1), "k");
    var group := [Column("", "k")];
    var q := Draft(kept, d, group, []);
    DraftLicensed(kept, d, group, []);
    DraftEdit(kept, d, group, []);
    LicenseGuards({"name"}, Words, q, CATALOG);
    ConstantPlans(kept, d);
    var p, r := Compile(q, CATALOG).value, Compile(EditOf(q, [true, false]), CATALOG).value;
    ConstantAnswer(p);
    OneRowDrops(Text("b"), Num(1.0));
    if IsAnswer(r, Db(), TinyWorld(), [[Text("b")]]) { NamesAnswer(r, [[Text("b")]]); }
    BetrayedBy(q, CATALOG, {"name"}, Words, Db(), TinyWorld(), p, r, [[Text("b"), Num(1.0)]], [[Text("b")]]);
  }

  // ------------------------------------------------------------ why DISTINCT is refused

  function TwiceDb(): Database { map["t" := [Person("b", 1.0), Person("b", 2.0)]] }
  function Row1(): Row { Bind("t", Person("b", 1.0)) }
  function Row2(): Row { Bind("t", Person("b", 2.0)) }

  /** SELECT DISTINCT t.name, t.score AS s FROM t. */
  function DistinctDraft(): Select {
    Draft(Item(NAME, ""), Item(Column("t", "score"), "s"), [], []).(distinct := true)
  }

  lemma TwiceRows(p: Plan, w: World)
    requires p.joins == [JoinPlan("t", "t", false, None)] && p.where == None && p.having == None && !p.grouped && !AnyFold(p.outputs)
    ensures Population(p, TwiceDb(), w) == [[Row1()], [Row2()]] && CellsOf(Row1(), "b", 1.0) && CellsOf(Row2(), "b", 2.0)
  {
    SingleSourceRows(p, TwiceDb(), w);
    FilterNone(BindAll("t", TwiceDb()["t"]), w);
    assert SourceRows(p, TwiceDb(), w) == [Row1(), Row2()];
    assert Singletons([Row1(), Row2()]) == [[Row1()], [Row2()]];
    HavingNone(p, [[Row1()], [Row2()]], w);
    BindCell("t", Person("b", 1.0), "name");
    BindCell("t", Person("b", 1.0), "score");
    BindCell("t", Person("b", 1.0), "team");
    BindCell("t", Person("b", 2.0), "name");
    BindCell("t", Person("b", 2.0), "score");
    BindCell("t", Person("b", 2.0), "team");
  }

  /** Two contexts that render to different rows are both in the result. */
  lemma BothStay(p: Plan, db: Database, w: World, x: Context, y: Context)
    requires p.distinct && p.offset == None && p.limit == None && p.order == []
    requires Population(p, db, w) == [x, y] && RenderRow(p, x, w) != RenderRow(p, y, w)
    ensures IsAnswer(p, db, w, [RenderRow(p, x, w), RenderRow(p, y, w)])
  {
    var arranged := [x, y];
    assert Stands(p, arranged, x, w) by { assert arranged[0] == x; }
    assert Stands(p, arranged, y, w) by { assert arranged[1] == y; }
    assert Representatives(p, arranged, w, arranged);
    PlainReturned(p, arranged, w);
    assert Render(p, arranged, w) == [RenderRow(p, x, w), RenderRow(p, y, w)];
    assert Arrangement(p, db, w, arranged);
  }

  /** Contexts that all render to one row leave at most that row. */
  lemma OneStays(p: Plan, db: Database, w: World, x: Context, y: Context, answer: seq<seq<Value>>)
    requires p.distinct && p.offset == None && p.limit == None
    requires Population(p, db, w) == [x, y] && RenderRow(p, x, w) == RenderRow(p, y, w) && IsAnswer(p, db, w, answer)
    ensures |answer| <= 1
  {
    var arranged :| Arrangement(p, db, w, arranged) && answer == Render(p, Returned(p, arranged, w), w);
    PlainReturned(p, arranged, w);
    OneRepresentative(p, w, x, y, arranged);
  }

  lemma OneRepresentative(p: Plan, w: World, x: Context, y: Context, kept: seq<Context>)
    requires Representatives(p, [x, y], w, kept) && RenderRow(p, x, w) == RenderRow(p, y, w)
    ensures |kept| <= 1
  {
    assert |kept| > 1 ==> RenderRow(p, kept[0], w) != RenderRow(p, kept[1], w);
    forall i | 0 <= i < |kept| ensures RenderRow(p, kept[i], w) == RenderRow(p, x, w) {
      assert kept[i] in kept;
      assert kept[i] in [x, y];
    }
  }

  /** Both rows are distinct with the score, and one row without it. */
  lemma DistinctAnswers(p: Plan, r: Plan, w: World, full: seq<seq<Value>>, answer: seq<seq<Value>>)
    requires p == TinyPlan([], [Src("t", "name"), Src("t", "score")], []).(distinct := true)
    requires r == TinyPlan([], [Src("t", "name")], []).(distinct := true)
    requires full == [[Text("b"), Num(1.0)], [Text("b"), Num(2.0)]] && |answer| == 2
    ensures IsAnswer(p, TwiceDb(), w, full) && !IsAnswer(r, TwiceDb(), w, answer)
  {
    var x, y := [Row1()], [Row2()];
    assert !AnyFold(p.outputs) && !AnyFold(r.outputs);
    TwiceRows(p, w);
    TwiceRows(r, w);
    TwoOutputs(Src("t", "name"), Src("t", "score"), x, Row1(), w);
    TwoOutputs(Src("t", "name"), Src("t", "score"), y, Row2(), w);
    OneOutput(Src("t", "name"), x, Row1(), w);
    OneOutput(Src("t", "name"), y, Row2(), w);
    assert full[0][1] != full[1][1];
    BothStay(p, TwiceDb(), w, x, y);
    if IsAnswer(r, TwiceDb(), w, answer) { OneStays(r, TwiceDb(), w, x, y, answer); }
  }

  lemma DistinctPlans()
    ensures var q := DistinctDraft();
      && Compile(q, CATALOG) == Some(TinyPlan([], [Src("t", "name"), Src("t", "score")], []).(distinct := true))
      && Compile(EditOf(q, [true, false]), CATALOG) == Some(TinyPlan([], [Src("t", "name")], []).(distinct := true))
  {
    var q := DistinctDraft();
    var kept, d := q.items[0], q.items[1];
    TinyOwners("t", "name");
    TinyOwners("t", "score");
    ElabTwo(NAME, d.value, TinyScope([]));
    ElabOne(NAME, TinyScope([]));
    assert Values(q.items) == [NAME, d.value];
    TinyCompile(q, [Src("t", "name"), Src("t", "score")], [], []);
    DistinctEdit();
    TinyCompile(EditOf(q, [true, false]), [Src("t", "name")], [], []);
  }

  lemma DistinctEdit()
    ensures var q := DistinctDraft(); var r := EditOf(q, [true, false]);
      r == q.(items := [q.items[0]]) && Values(r.items) == [NAME]
  {
    var q := DistinctDraft();
    var kept, d := q.items[0], q.items[1];
    PickTwo(kept, d, false, true);
    PickTwo(kept, d, true, false);
    assert Negate([true, false]) == [false, true];
    ExpandKeepsItems(q, [d]);
    ClausesPointwise(q, [d]);
    var r := EditOf(q, [true, false]);
    assert Pick(q.items, Negate([true, false])) == [d];
    assert r.order == [] && r.group == [];
  }

  lemma DistinctFires()
    ensures ProjectionFires({"name"}, Words, DistinctDraft(), CATALOG.tables)
  {
    var q := DistinctDraft();
    var kept, d := q.items[0], q.items[1];
    NoAggDraft(kept, d, []);
    DraftSources(q);
    DraftBindings(q);
    DraftOutputs(kept, d);
    DraftAlias(kept, d);
    DraftEdit(kept, d, [], []);
    assert DroppedItems({"name"}, Words, q, CATALOG.tables) == [d];
  }

  /** The guard against DISTINCT is needed: without it the edit would turn
      SELECT DISTINCT t.name, t.score AS s FROM t into SELECT DISTINCT t.name FROM t,
      which loses a row. */
  lemma DistinctExample(w: World)
    ensures !Licensed({"name"}, Words, DistinctDraft(), CATALOG.tables)
    ensures ProjectionFires({"name"}, Words, DistinctDraft(), CATALOG.tables)
    ensures Differs(DistinctDraft(), CATALOG, {"name"}, Words, TwiceDb(), w)
  {
    var q := DistinctDraft();
    DistinctFires();
    DraftEdit(q.items[0], q.items[1], [], []);
    assert EditMask({"name"}, Words, q, CATALOG.tables) == [true, false];
    assert Edited({"name"}, Words, q, CATALOG.tables) == EditOf(q, [true, false]);
    DistinctPlans();
    var p, r := Compile(q, CATALOG).value, Compile(EditOf(q, [true, false]), CATALOG).value;
    var full, answer := [[Text("b"), Num(1.0)], [Text("b"), Num(2.0)]], [[Text("b")], [Text("b")]];
    DistinctAnswers(p, r, w, full, answer);
    DropTwo(full, answer);
  }
}
