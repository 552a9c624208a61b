/** When the ranking edit fires, read off the request, the catalog and the draft. */
module GroupRankChoice {
  import opened Prelude
  import opened Sql
  import opened OutputContract
  import opened GroupRank

  /** The first table of the catalog with that name. */
  predicate IsTable(cat: Catalog, t: nat, name: string) {
    t < |cat.tables| && cat.tables[t].name == name && forall s | 0 <= s < t :: cat.tables[s].name != name
  }

  /** Column `c` alone is the primary key. */
  predicate OnlyPrimary(table: TableInfo, c: nat) {
    c < |table.columns| && forall d | 0 <= d < |table.columns| :: table.columns[d].primaryKeyPosition != 0 <==> d == c
  }

  /** COUNT(*), or COUNT of the key column, which is never NULL. */
  predicate CountsEach(count: Expr, table: TableInfo, c: nat)
    requires c < |table.columns|
  {
    || count == Agg("count", Star)
    || (count.Agg? && count.fn == "count" && count.arg.Column? && count.arg.name == table.columns[c].name
        && NeverNull(table, table.columns[c].name))
  }

  predicate NeverNull(table: TableInfo, n: string) { exists d | 0 <= d < |table.columns| :: table.columns[d].name == n && !table.columns[d].nullable }

  predicate OnlyOutput(items: seq<Item>, n: string, k: nat) {
    k < |items| && forall l | 0 <= l < |items| :: items[l].OutputName() == n <==> l == k
  }

  /** The output that an unqualified group key names, or the group key itself. */
  predicate IsKey(q: Select, key: Expr)
    requires |q.group| == 1
  {
    if q.group[0].Column? && q.group[0].table == "" then
      exists k | 0 <= k < |q.items| :: OnlyOutput(q.items, q.group[0].name, k) && key == q.items[k].value
    else key == q.group[0]
  }

  /** The tie policy of the question speaks of the key. */
  predicate TieSpeaks(key: Expr, tieTerms: set<string>, words: string -> set<string>) {
    || (key.Column? && forall x | x in words(key.name) :: x in tieTerms)
    || (key.Call? && key.op == "strftime" && |key.args| == 2 && key.args[1] == Lit(Text("%Y-%m"))
        && ("month" in tieTerms || "th\U{E1}ng" in tieTerms))
  }

  /** All that has to hold of a draft over table `t`: it is a base table with one key column,
      what it holds is what the question counts, the one aggregate counts its rows, and the
      group key is made of its columns and is what ties are broken by. */
  ghost predicate Warranted(request: RankRequest, words: string -> set<string>, q: Select, cat: Catalog, t: nat, c: nat, count: Expr, key: Expr) {
    && !q.nested && !q.distinct && q.offset == None && (forall i | 0 <= i < |q.items| :: q.items[i].value != AllColumns)
    && |q.sources| == 1 && !q.sources[0].outer && q.sources[0].on == None && q.having == None && |q.group| == 1
    && IsTable(cat, t, q.sources[0].table) && cat.tables[t].kind == "table"
    && request.entity in words(q.sources[0].table)
    && OnlyPrimary(cat.tables[t], c) && CountsEach(count, cat.tables[t], c) && AggSet(q) == {count}
    && IsKey(q, key) && TieSpeaks(key, request.tieTerms, words)
    && forall n | n in NamesIn(key) :: exists d :: 0 <= d < |cat.tables[t].columns| && cat.tables[t].columns[d].name == n
  }

  /** The draft ordered by its count and then its key, one row kept. */
  function OrderedBy(request: RankRequest, q: Select, count: Expr, key: Expr): Select {
    q.(order := [Ordered(count, request.most, false), Ordered(key, request.descending, true)], limit := Some(IntLit(1)))
  }

  lemma {:induction false} NamedAt(tables: seq<TableInfo>, n: string)
    ensures TableNamed(tables, n).None? <==> forall t | 0 <= t < |tables| :: tables[t].name != n
    ensures forall t: nat | IsTable(Catalog(tables), t, n) :: TableNamed(tables, n) == Some(tables[t])
    ensures TableNamed(tables, n).Some? ==> exists t: nat :: IsTable(Catalog(tables), t, n)
  {
    if tables != [] {
      NamedAt(tables[1..], n);
      assert forall t | 0 <= t < |tables| - 1 :: tables[1..][t] == tables[t + 1];
      if tables[0].name == n { assert IsTable(Catalog(tables), 0, n); }
      else {
        forall t: nat | IsTable(Catalog(tables[1..]), t, n) ensures IsTable(Catalog(tables), t + 1, n) {}
        forall t: nat | IsTable(Catalog(tables), t, n) ensures t > 0 && IsTable(Catalog(tables[1..]), t - 1, n) {
          assert forall s | 0 <= s < t - 1 :: tables[1..][s] == tables[s + 1];
        }
      }
    }
  }

  lemma {:induction false} NoPrimary(columns: seq<ColumnInfo>)
    ensures PrimaryKey(columns) == [] <==> forall d | 0 <= d < |columns| :: columns[d].primaryKeyPosition == 0
  {
    if columns != [] {
      NoPrimary(columns[1..]);
      assert forall d | 0 <= d < |columns| - 1 :: columns[1..][d] == columns[d + 1];
    }
  }

  lemma {:induction false} OnePrimary(columns: seq<ColumnInfo>) returns (c: nat)
    requires |PrimaryKey(columns)| == 1
    ensures c < |columns| && PrimaryKey(columns) == [columns[c].name]
    ensures forall d | 0 <= d < |columns| :: columns[d].primaryKeyPosition != 0 <==> d == c
  {
    var rest := PrimaryKey(columns[1..]);
    assert forall d | 0 <= d < |columns| - 1 :: columns[1..][d] == columns[d + 1];
    if columns[0].primaryKeyPosition != 0 {
      c := 0;
      assert |rest| == 0;
      NoPrimary(columns[1..]);
    } else {
      assert [] + rest == rest;
      c := OnePrimary(columns[1..]);
      c := c + 1;
    }
  }

  lemma {:induction false} PrimaryAt(columns: seq<ColumnInfo>, c: nat)
    requires c < |columns| && forall d | 0 <= d < |columns| :: columns[d].primaryKeyPosition != 0 <==> d == c
    ensures PrimaryKey(columns) == [columns[c].name]
  {
    assert forall d | 0 <= d < |columns| - 1 :: columns[1..][d] == columns[d + 1];
    if c == 0 { NoPrimary(columns[1..]); }
    else {
      PrimaryAt(columns[1..], c - 1);
      assert [] + [columns[c].name] == [columns[c].name];
    }
  }

  lemma {:induction false} NoOutput(items: seq<Item>, n: string)
    ensures CountOutputs(items, n) == 0 <==> forall l | 0 <= l < |items| :: items[l].OutputName() != n
  {
    if items != [] {
      NoOutput(items[1..], n);
      assert forall l | 0 <= l < |items| - 1 :: items[1..][l] == items[l + 1];
    }
  }

  lemma {:induction false} OneOutput(items: seq<Item>, n: string) returns (k: nat)
    requires CountOutputs(items, n) == 1
    ensures OnlyOutput(items, n, k) && FirstOutput(items, n) == Some(items[k])
  {
    assert forall l | 0 <= l < |items| - 1 :: items[1..][l] == items[l + 1];
    if items[0].OutputName() == n {
      k := 0;
      NoOutput(items[1..], n);
    } else {
      k := OneOutput(items[1..], n);
      k := k + 1;
    }
  }

  lemma {:induction false} OutputAt(items: seq<Item>, n: string, k: nat)
    requires OnlyOutput(items, n, k)
    ensures CountOutputs(items, n) == 1 && FirstOutput(items, n) == Some(items[k])
  {
    assert forall l | 0 <= l < |items| - 1 :: items[1..][l] == items[l + 1];
    if k == 0 { NoOutput(items[1..], n); } else { OutputAt(items[1..], n, k - 1); }
  }

  lemma KeyIs(q: Select, key: Expr)
    requires |q.group| == 1
    ensures KeyOf(q) == Some(key) <==> IsKey(q, key)
  {
    var g := q.group[0];
    if g.Column? && g.table == "" {
      if CountOutputs(q.items, g.name) == 1 { var k := OneOutput(q.items, g.name); }
      if k: nat :| OnlyOutput(q.items, g.name, k) { OutputAt(q.items, g.name, k); }
    }
  }

  lemma CountIs(q: Select, table: TableInfo, c: nat, count: Expr)
    requires OnlyPrimary(table, c)
    ensures CountOf(q, table.columns[c].name, table.columns) == Some(count) <==> AggSet(q) == {count} && CountsEach(count, table, c)
  {
    var n := table.columns[c].name;
    assert CountsRows(count, n, table.columns) <==> CountsEach(count, table, c);
    if |AggSet(q)| == 1 { OnlyElement(AggSet(q)); }
    if CountOf(q, n, table.columns) == Some(count) { assert count in AggSet(q); assert AggSet(q) == {count}; }
  }

  lemma TieIs(key: Expr, tieTerms: set<string>, words: string -> set<string>)
    ensures KeyNamed(key, tieTerms, words) <==> TieSpeaks(key, tieTerms, words)
  {
    if key.Call? && tieTerms * MONTHS != {} { var x :| x in tieTerms * MONTHS; }
    if "month" in tieTerms { assert "month" in tieTerms * MONTHS; }
    if "th\U{E1}ng" in tieTerms { assert "th\U{E1}ng" in tieTerms * MONTHS; }
  }

  /** The edit fires exactly when some table, key column, count and group key warrant it, and
      then orders by that count and that key as the question asks, and keeps one group. */
  lemma RanksExactly(request: Option<RankRequest>, words: string -> set<string>, q: Select, cat: Catalog, r: Select)
    ensures GroupCountRank(request, words, q, cat) == Some(r) <==>
      && request.Some?
      && exists t: nat, c: nat, count, key ::
           Warranted(request.value, words, q, cat, t, c, count, key) && r == OrderedBy(request.value, q, count, key)
  {
    if GroupCountRank(request, words, q, cat) == Some(r) { var t, c, count, key := Ranked(request, words, q, cat); }
    if request.Some? {
      if t: nat, c: nat, count, key :|
        (Warranted(request.value, words, q, cat, t, c, count, key) && r == OrderedBy(request.value, q, count, key))
      {
        Ranks(request, words, q, cat, t, c, count, key);
      }
    }
  }

  lemma Ranked(request: Option<RankRequest>, words: string -> set<string>, q: Select, cat: Catalog)
    returns (t: nat, c: nat, count: Expr, key: Expr)
    requires GroupCountRank(request, words, q, cat).Some?
    ensures request.Some? && Warranted(request.value, words, q, cat, t, c, count, key)
    ensures GroupCountRank(request, words, q, cat).value == OrderedBy(request.value, q, count, key)
  {
    NamedAt(cat.tables, q.sources[0].table);
    t :| IsTable(cat, t, q.sources[0].table);
    var columns := cat.tables[t].columns;
    c := OnePrimary(columns);
    count, key := CountOf(q, columns[c].name, columns).value, KeyOf(q).value;
    CountIs(q, cat.tables[t], c, count);
    KeyIs(q, key);
    TieIs(key, request.value.tieTerms, words);
    ColumnsNamed(columns, NamesIn(key));
  }

  lemma Ranks(request: Option<RankRequest>, words: string -> set<string>, q: Select, cat: Catalog, t: nat, c: nat, count: Expr, key: Expr)
    requires request.Some? && Warranted(request.value, words, q, cat, t, c, count, key)
    ensures GroupCountRank(request, words, q, cat) == Some(OrderedBy(request.value, q, count, key))
  {
    NamedAt(cat.tables, q.sources[0].table);
    PrimaryAt(cat.tables[t].columns, c);
    CountIs(q, cat.tables[t], c, count);
    KeyIs(q, key);
    TieIs(key, request.value.tieTerms, words);
    ColumnsNamed(cat.tables[t].columns, NamesIn(key));
    assert Simple(q);
  }

  lemma ColumnsNamed(columns: seq<ColumnInfo>, names: set<string>)
    ensures names <= ColumnNames(columns) <==> forall n | n in names :: exists d :: 0 <= d < |columns| && columns[d].name == n
  {
    forall n ensures n in ColumnNames(columns) <==> exists d :: 0 <= d < |columns| && columns[d].name == n {
      if d :| 0 <= d < |columns| && columns[d].name == n { assert columns[d] in columns; }
    }
  }
}
