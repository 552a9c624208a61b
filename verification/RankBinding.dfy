/** Binding of the question's metric to one catalog column. */
module RankBinding {
  import opened Prelude
  import opened Sql
  import opened OutputContract

  type ColumnTest = (TableInfo, ColumnInfo) -> bool

  /** The catalog columns that pass a test, in order. */
  function ColumnsThat(tables: seq<TableInfo>, p: ColumnTest): seq<Owned> {
    if tables == [] then [] else TableColumns(tables[0], tables[0].columns, p) + ColumnsThat(tables[1..], p)
  }

  function TableColumns(table: TableInfo, columns: seq<ColumnInfo>, p: ColumnTest): seq<Owned> {
    if columns == [] then []
    else (if p(table, columns[0]) then [(table.name, columns[0].name)] else []) + TableColumns(table, columns[1..], p)
  }

  /** All words of the column occur in the question. */
  function Mentioned(questionWords: set<string>, words: string -> set<string>): ColumnTest {
    (_: TableInfo, c: ColumnInfo) => words(c.name) != {} && words(c.name) <= questionWords
  }

  /** `bind_question_metric`: the one match in the whole catalog. */
  function BindMetric(tables: seq<TableInfo>, questionWords: set<string>, words: string -> set<string>): Option<Owned> {
    var m := ColumnsThat(tables, Mentioned(questionWords, words));
    if |m| == 1 then Some(m[0]) else None
  }

  // ------------------------------------------------------------ what is bound

  predicate PassesAt(tables: seq<TableInfo>, p: ColumnTest, i: nat, j: nat) {
    i < |tables| && j < |tables[i].columns| && p(tables[i], tables[i].columns[j])
  }

  /** Column `j` of table `i` passes the test, and no other in the catalog. */
  ghost predicate PassesOnly(tables: seq<TableInfo>, p: ColumnTest, i: nat, j: nat) {
    PassesAt(tables, p, i, j) && forall k: nat, l: nat | PassesAt(tables, p, k, l) :: k == i && l == j
  }

  predicate TableAt(table: TableInfo, columns: seq<ColumnInfo>, p: ColumnTest, j: nat) { j < |columns| && p(table, columns[j]) }

  lemma {:induction false} TableNone(table: TableInfo, columns: seq<ColumnInfo>, p: ColumnTest)
    ensures TableColumns(table, columns, p) == [] <==> forall j: nat :: !TableAt(table, columns, p, j)
  {
    if columns != [] {
      TableNone(table, columns[1..], p);
      assert TableAt(table, columns, p, 0) || TableColumns(table, columns, p) == TableColumns(table, columns[1..], p);
      forall j: nat ensures TableAt(table, columns[1..], p, j) <==> TableAt(table, columns, p, j + 1) {}
      forall j: nat | j > 0 && TableAt(table, columns, p, j) ensures TableAt(table, columns[1..], p, j - 1) {}
    }
  }

  /** One match among the columns of a table, and where it is. */
  lemma {:induction false} TableOne(table: TableInfo, columns: seq<ColumnInfo>, p: ColumnTest) returns (j: nat)
    requires |TableColumns(table, columns, p)| == 1
    ensures TableAt(table, columns, p, j) && TableColumns(table, columns, p) == [(table.name, columns[j].name)]
    ensures forall l: nat | TableAt(table, columns, p, l) :: l == j
  {
    var rest := TableColumns(table, columns[1..], p);
    forall l: nat | l > 0 && TableAt(table, columns, p, l) ensures TableAt(table, columns[1..], p, l - 1) {}
    if TableAt(table, columns, p, 0) {
      j := 0;
      assert |rest| == 0;
      TableNone(table, columns[1..], p);
    } else {
      assert [] + rest == rest;
      j := TableOne(table, columns[1..], p);
      j := j + 1;
    }
  }

  lemma {:induction false} TableOnly(table: TableInfo, columns: seq<ColumnInfo>, p: ColumnTest, j: nat)
    requires TableAt(table, columns, p, j) && forall l: nat | TableAt(table, columns, p, l) :: l == j
    ensures TableColumns(table, columns, p) == [(table.name, columns[j].name)]
  {
    forall l: nat | TableAt(table, columns[1..], p, l) ensures l + 1 == j { assert TableAt(table, columns, p, l + 1); }
    if j == 0 {
      TableNone(table, columns[1..], p);
    } else {
      assert !TableAt(table, columns, p, 0);
      TableOnly(table, columns[1..], p, j - 1);
      assert [] + [(table.name, columns[j].name)] == [(table.name, columns[j].name)];
    }
  }

  lemma TablesAt(tables: seq<TableInfo>, p: ColumnTest)
    requires tables != []
    ensures forall i: nat, j: nat | PassesAt(tables[1..], p, i, j) :: PassesAt(tables, p, i + 1, j)
    ensures forall i: nat, j: nat | i > 0 && PassesAt(tables, p, i, j) :: PassesAt(tables[1..], p, i - 1, j)
    ensures forall j: nat :: PassesAt(tables, p, 0, j) <==> TableAt(tables[0], tables[0].columns, p, j)
  {
  }

  lemma {:induction false} CatalogNone(tables: seq<TableInfo>, p: ColumnTest)
    ensures ColumnsThat(tables, p) == [] <==> forall i: nat, j: nat :: !PassesAt(tables, p, i, j)
  {
    if tables != [] {
      TableNone(tables[0], tables[0].columns, p);
      CatalogNone(tables[1..], p);
      TablesAt(tables, p);
    }
  }

  lemma {:induction false} CatalogOne(tables: seq<TableInfo>, p: ColumnTest) returns (i: nat, j: nat)
    requires |ColumnsThat(tables, p)| == 1
    ensures PassesOnly(tables, p, i, j) && ColumnsThat(tables, p) == [(tables[i].name, tables[i].columns[j].name)]
  {
    var first, rest := TableColumns(tables[0], tables[0].columns, p), ColumnsThat(tables[1..], p);
    TablesAt(tables, p);
    if first == [] {
      assert [] + rest == rest;
      TableNone(tables[0], tables[0].columns, p);
      i, j := CatalogOne(tables[1..], p);
      i := i + 1;
    } else {
      assert |rest| == 0;
      CatalogNone(tables[1..], p);
      i := 0;
      j := TableOne(tables[0], tables[0].columns, p);
    }
  }

  lemma {:induction false} CatalogOnly(tables: seq<TableInfo>, p: ColumnTest, i: nat, j: nat)
    requires PassesOnly(tables, p, i, j)
    ensures ColumnsThat(tables, p) == [(tables[i].name, tables[i].columns[j].name)]
  {
    TablesAt(tables, p);
    if i == 0 {
      TableOnly(tables[0], tables[0].columns, p, j);
      CatalogNone(tables[1..], p);
    } else {
      TableNone(tables[0], tables[0].columns, p);
      CatalogOnly(tables[1..], p, i - 1, j);
      assert [] + ColumnsThat(tables[1..], p) == ColumnsThat(tables[1..], p);
    }
  }

  /** The search finds one column just where one position of the catalog passes the test. */
  lemma OneColumn(tables: seq<TableInfo>, p: ColumnTest, bound: Owned)
    ensures ColumnsThat(tables, p) == [bound] <==>
      exists i: nat, j: nat :: PassesOnly(tables, p, i, j) && bound == (tables[i].name, tables[i].columns[j].name)
  {
    if ColumnsThat(tables, p) == [bound] { var i, j := CatalogOne(tables, p); }
    forall i: nat, j: nat | PassesOnly(tables, p, i, j) ensures ColumnsThat(tables, p) == [(tables[i].name, tables[i].columns[j].name)] {
      CatalogOnly(tables, p, i, j);
    }
  }

  /** All words of column `j` of table `i` occur in the question. */
  predicate MetricAt(tables: seq<TableInfo>, questionWords: set<string>, words: string -> set<string>, i: nat, j: nat) {
    && i < |tables| && j < |tables[i].columns|
    && words(tables[i].columns[j].name) != {} && words(tables[i].columns[j].name) <= questionWords
  }

  /** Just one column of the catalog has all its words in the question, and `bound` names it. */
  ghost predicate OnlyMetric(tables: seq<TableInfo>, questionWords: set<string>, words: string -> set<string>, bound: Owned) {
    exists i: nat, j: nat ::
      && MetricAt(tables, questionWords, words, i, j)
      && bound == (tables[i].name, tables[i].columns[j].name)
      && forall k: nat, l: nat | MetricAt(tables, questionWords, words, k, l) :: k == i && l == j
  }

  /** The bound metric is the one column of the catalog all of whose words occur in the
      question; when there are several or none, nothing is bound. */
  lemma MetricIsOnly(tables: seq<TableInfo>, questionWords: set<string>, words: string -> set<string>, bound: Owned)
    ensures BindMetric(tables, questionWords, words) == Some(bound) <==> OnlyMetric(tables, questionWords, words, bound)
  {
    var p := Mentioned(questionWords, words);
    OneColumn(tables, p, bound);
    assert forall k: nat, l: nat :: MetricAt(tables, questionWords, words, k, l) <==> PassesAt(tables, p, k, l);
    if OnlyMetric(tables, questionWords, words, bound) {
      var i: nat, j: nat :| MetricAt(tables, questionWords, words, i, j)
        && bound == (tables[i].name, tables[i].columns[j].name)
        && forall k: nat, l: nat | MetricAt(tables, questionWords, words, k, l) :: k == i && l == j;
      assert PassesOnly(tables, p, i, j);
    }
    if i: nat, j: nat :| PassesOnly(tables, p, i, j) && bound == (tables[i].name, tables[i].columns[j].name) {
      assert MetricAt(tables, questionWords, words, i, j);
    }
  }

  function Projections(items: seq<Item>, alias: string): seq<Expr> {
    if items == [] then []
    else (if items[0].alias != "" && items[0].alias == alias then [items[0].value] else []) + Projections(items[1..], alias)
  }

  function OwningTables(sources: seq<Source>, tables: seq<TableInfo>, n: string): seq<string> {
    if sources == [] then []
    else (if n in ColumnsOf(tables, sources[0].table) then [sources[0].table] else []) + OwningTables(sources[1..], tables, n)
  }

  /** The catalog column a column expression reads, if that is certain. */
  function OwnerOf(e: Expr, q: Select, tables: seq<TableInfo>): Option<Owned>
    requires e.Column?
  {
    if e.table != "" then
      var aliases := AliasMap(q.sources);
      if e.table in aliases then Some((aliases[e.table], e.name)) else None
    else
      var owners := OwningTables(q.sources, tables, e.name);
      if |owners| == 1 then Some((owners[0], e.name)) else None
  }

  /** `order_matches_metric`: the first ORDER BY key reads the bound column. */
  predicate OrderMatches(q: Select, bound: Option<Owned>, tables: seq<TableInfo>) {
    && bound.Some? && q.order != [] && q.order[0].key.Column?
    && var key := q.order[0].key;
       var named := Projections(q.items, key.name);
       if key.table != "" || |named| == 0 then OwnerOf(key, q, tables) == bound
       else |named| == 1 && named[0].Column? && OwnerOf(named[0], q, tables) == bound
  }
}
