/**
 The group-count ranking edit: an explicit singular "which group has the most
 (fewest) entities" request with a tie policy orders the groups by their count,
 then by their key, and keeps one.
 */
module GroupRank {
  import opened Prelude
  import opened Sql
  import opened OutputContract
  import opened ProjectionPlan

  /** What the question says; None stands for every question the code abstains on. */
  datatype RankRequest = RankRequest(most: bool, entity: string, tieTerms: set<string>, descending: bool)

  function AggsIn(e: Expr): set<Expr> {
    match e
    case Agg(_, a) => {e} + AggsIn(a)
    case Call(_, args) => set i, a | 0 <= i < |args| && a in AggsIn(args[i]) :: a
    case _ => {}
  }

  function OptAggs(e: Option<Expr>): set<Expr> { if e.None? then {} else AggsIn(e.value) }

  /** Every aggregate node of a statement over one source. */
  function AggSet(q: Select): set<Expr> {
    (set i, a | 0 <= i < |q.items| && a in AggsIn(q.items[i].value) :: a)
    + OptAggs(q.where)
    + (set i, a | 0 <= i < |q.group| && a in AggsIn(q.group[i]) :: a)
    + OptAggs(q.having)
    + (set i, a | 0 <= i < |q.order| && a in AggsIn(q.order[i].key) :: a)
  }

  function TableNamed(tables: seq<TableInfo>, n: string): Option<TableInfo> {
    if tables == [] then None
    else if tables[0].name == n then Some(tables[0])
    else TableNamed(tables[1..], n)
  }

  function PrimaryKey(columns: seq<ColumnInfo>): seq<string> {
    if columns == [] then []
    else (if columns[0].primaryKeyPosition != 0 then [columns[0].name] else []) + PrimaryKey(columns[1..])
  }

  /** COUNT(*) or COUNT of a non-null single-column primary key. */
  predicate CountsRows(c: Expr, primary: string, columns: seq<ColumnInfo>) {
    c.Agg? && c.fn == "count" &&
    (c.arg.Star? ||
     (c.arg.Column? && c.arg.name == primary && exists i | 0 <= i < |columns| :: columns[i].name == primary && !columns[i].nullable))
  }

  /** The one aggregate of the statement, when it counts rows. */
  function CountOf(q: Select, primary: string, columns: seq<ColumnInfo>): Option<Expr> {
    var aggs := AggSet(q);
    if |aggs| != 1 then None
    else
      OnlyElement(aggs);
      var c :| c in aggs;
      if CountsRows(c, primary, columns) then Some(c) else None
  }

  function CountOutputs(items: seq<Item>, n: string): nat {
    if items == [] then 0 else (if items[0].OutputName() == n then 1 else 0) + CountOutputs(items[1..], n)
  }

  function FirstOutput(items: seq<Item>, n: string): Option<Item> {
    if items == [] then None
    else if items[0].OutputName() == n then Some(items[0])
    else FirstOutput(items[1..], n)
  }

  /** The group key as it will appear in ORDER BY. */
  function KeyOf(q: Select): Option<Expr>
    requires |q.group| == 1
  {
    var g := q.group[0];
    if g.Column? && g.table == "" then
      if CountOutputs(q.items, g.name) != 1 then None
      else
        var f := FirstOutput(q.items, g.name);
        if f.Some? then Some(f.value.value) else None
    else Some(g)
  }

  const MONTHS := {"month", "th\U{E1}ng"}

  /** The key is the column the tie policy names, or a STRFTIME month. */
  predicate KeyNamed(key: Expr, tieTerms: set<string>, words: string -> set<string>) {
    match key
    case Column(_, n) => words(n) <= tieTerms
    case Call(op, args) =>
      op == "strftime" && |args| == 2 && args[1] == Lit(Text("%Y-%m")) && tieTerms * MONTHS != {}
    case _ => false
  }

  function NamesIn(e: Expr): set<string> {
    match e
    case Column(_, n) => {n}
    case Call(_, args) => set i, n | 0 <= i < |args| && n in NamesIn(args[i]) :: n
    case Agg(_, a) => NamesIn(a)
    case _ => {}
  }

  /** `_group_count_rank`, on statements that pass `_simple`. */
  function GroupCountRank(request: Option<RankRequest>, words: string -> set<string>, q: Select, cat: Catalog): Option<Select> {
    if request.None? || |q.sources| != 1 || q.sources[0].outer || q.sources[0].on.Some? || !Simple(q) || q.having.Some? || |q.group| != 1 then None
    else
      var table := TableNamed(cat.tables, q.sources[0].table);
      if table.None? || table.value.kind != "table" then None
      else
        var columns := table.value.columns;
        var primary := PrimaryKey(columns);
        if |primary| != 1 || request.value.entity !in words(table.value.name) then None
        else
          var count := CountOf(q, primary[0], columns);
          var key := KeyOf(q);
          if count.None? || key.None? || !KeyNamed(key.value, request.value.tieTerms, words)
             || !(NamesIn(key.value) <= ColumnNames(columns)) then None
          else Some(q.(order := [Ordered(count.value, request.value.most, false), Ordered(key.value, request.value.descending, true)],
                       limit := Some(IntLit(1))))
  }

  // ---------------------------------------------------------------- idempotence

  lemma {:induction false} FirstOutputIn(items: seq<Item>, n: string) returns (i: nat)
    requires FirstOutput(items, n).Some?
    ensures i < |items| && items[i] == FirstOutput(items, n).value && items[i].OutputName() == n
  {
    if items[0].OutputName() == n { i := 0; } else { i := FirstOutputIn(items[1..], n); i := i + 1; }
  }

  lemma KeyAggs(q: Select)
    requires |q.group| == 1 && KeyOf(q).Some?
    ensures AggsIn(KeyOf(q).value) <= AggSet(q)
  {
    var g := q.group[0];
    if g.Column? && g.table == "" {
      var i := FirstOutputIn(q.items, g.name);
    }
  }

  /** Ranking what the edit has ranked changes nothing. */
  lemma RankIdempotent(request: Option<RankRequest>, words: string -> set<string>, q: Select, cat: Catalog)
    requires GroupCountRank(request, words, q, cat).Some?
    ensures var r := GroupCountRank(request, words, q, cat).value; GroupCountRank(request, words, r, cat) == Some(r)
  {
    var r := GroupCountRank(request, words, q, cat).value;
    var columns := TableNamed(cat.tables, q.sources[0].table).value.columns;
    OneAgg(q, PrimaryKey(columns)[0], columns);
    KeyAggs(q);
    RankedAggs(q, r, CountOf(q, PrimaryKey(columns)[0], columns).value);
  }

  lemma OneAgg(q: Select, primary: string, columns: seq<ColumnInfo>)
    requires CountOf(q, primary, columns).Some?
    ensures var c := CountOf(q, primary, columns).value; AggSet(q) == {c} && AggsIn(c) == {c}
  {
    OnlyElement(AggSet(q));
  }

  /** A new ORDER BY over the same aggregate brings no other one. */
  lemma RankedAggs(q: Select, r: Select, count: Expr)
    requires AggSet(q) == {count} == AggsIn(count) && r == q.(order := r.order, limit := r.limit)
    requires |r.order| == 2 && r.order[0].key == count && AggsIn(r.order[1].key) <= {count}
    ensures AggSet(r) == {count}
  {
    assert count in AggsIn(r.order[0].key);
    assert forall i | 0 <= i < |r.order| :: AggsIn(r.order[i].key) <= {count};
  }

  // -------------------------------------------------------- what the edit compiles to

  predicate IsColumnNamed(e: Expr, n: string) { e.Column? && e.name == n }

  /** The expression SQLite sorts by for the ORDER BY term `key`: an unqualified
      name that is an output alias means that output. */
  function OrderReads(items: seq<Item>, key: Expr): Expr {
    if key.Column? && key.table == "" && FirstNamed(items, key.name).Some?
    then FirstNamed(items, key.name).value.value else key
  }

  /** The added ORDER BY key means another expression than the GROUP BY key.  Only
      an unqualified group key is in danger: SQLite groups by the source column of
      that name if there is one, and an unqualified key may name another output. */
  predicate KeyClash(q: Select, cat: Catalog)
    requires |q.group| == 1 && |q.sources| == 1
  {
    var g := q.group[0];
    && g.Column? && g.table == "" && KeyOf(q).Some?
    && var read := OrderReads(q.items, KeyOf(q).value);
       if g.name in ColumnsOf(cat.tables, q.sources[0].table) then !IsColumnNamed(read, g.name)
       else KeyOf(q).value.Column? && !IsColumnNamed(read, KeyOf(q).value.name)
  }

  lemma OneOwner(q: Select, cat: Catalog, t: string, n: string)
    requires |q.sources| == 1
    ensures Owners(q.sources, cat.tables, t, n) ==
      if (t == "" || q.sources[0].Name() == t) && n in ColumnsOf(cat.tables, q.sources[0].table) then [q.sources[0]] else []
  {
    assert q.sources[1..] == [];
    assert Owners(q.sources[1..], cat.tables, t, n) == [];
    assert [q.sources[0]] + [] == [q.sources[0]];
  }

  /** The scope after FROM of a statement over one source, and its output cores. */
  ghost predicate Prepared(q: Select, cat: Catalog, outputs: seq<Core>, s: Scope) {
    && |q.sources| == 1 && |outputs| == |q.items|
    && ElabAll(Values(q.items), SourceScope(q, cat), true) == Some(outputs)
    && s == Scope(q.sources, cat.tables, Aliases(q.items, outputs))
  }

  lemma {:induction false} CountedOnce(items: seq<Item>, n: string)
    requires CountOutputs(items, n) == 1 && FirstOutput(items, n).Some? && n != ""
    ensures var f := FirstOutput(items, n).value; FirstNamed(items, n) == if f.alias == n then Some(f) else None
  {
    if items[0].OutputName() == n {
      NoneCounted(items[1..], n);
    } else {
      CountedOnce(items[1..], n);
    }
  }

  lemma {:induction false} NoneCounted(items: seq<Item>, n: string)
    requires CountOutputs(items, n) == 0 && n != ""
    ensures FirstNamed(items, n) == None && FirstOutput(items, n) == None
  {
    if items != [] { NoneCounted(items[1..], n); }
  }

  /** Over one source, an output is the source column `n` exactly when it is a column named `n`. */
  lemma ColumnCore(e: Expr, q: Select, cat: Catalog, n: string)
    requires |q.sources| == 1 && Elab(e, SourceScope(q, cat), true).Some?
    ensures Elab(e, SourceScope(q, cat), true) == Some(Src(q.sources[0].Name(), n)) <==> IsColumnNamed(e, n)
  {
    if e.Column? { OneOwner(q, cat, e.table, e.name); }
  }

  /** A term of ORDER BY that is the value of an output means the output it reads. */
  lemma OrderCore(q: Select, cat: Catalog, outputs: seq<Core>, s: Scope, i: nat)
    requires Prepared(q, cat, outputs, s) && i < |q.items| && !q.items[i].value.IntLit?
    ensures Elab(OrderReads(q.items, q.items[i].value), SourceScope(q, cat), true).Some?
    ensures ElabOrderKey(q.items[i].value, s, outputs, true) == Elab(OrderReads(q.items, q.items[i].value), SourceScope(q, cat), true)
  {
    var src, key := SourceScope(q, cat), q.items[i].value;
    ElabEach(Values(q.items), src, outputs, i);
    ElabWidens(key, src, s, true);
    if key.Column? && key.table == "" {
      NamedCore(q.items, outputs, src, key.name);
      if FirstNamed(q.items, key.name).Some? {
        var j := FirstNamedIn(q.items, key.name);
        ElabEach(Values(q.items), src, outputs, j);
      }
    }
  }

  /** An unqualified GROUP BY term means the source column if there is one, else the output. */
  lemma GroupCore(q: Select, cat: Catalog, outputs: seq<Core>, s: Scope, n: string)
    requires Prepared(q, cat, outputs, s) && n != ""
    requires CountOutputs(q.items, n) == 1 && FirstOutput(q.items, n).Some?
    requires Elab(Column("", n), s, false).Some?
    ensures Elab(Column("", n), s, false) ==
      if n in ColumnsOf(cat.tables, q.sources[0].table) then Some(Src(q.sources[0].Name(), n))
      else Elab(FirstOutput(q.items, n).value.value, SourceScope(q, cat), true)
  {
    OneOwner(q, cat, "", n);
    CountedOnce(q.items, n);
    NamedCore(q.items, outputs, SourceScope(q, cat), n);
  }

  /** The key and its clash read neither ORDER BY nor LIMIT. */
  lemma RankedKey(q: Select, r: Select, cat: Catalog)
    requires |q.group| == 1 && |q.sources| == 1 && r == q.(order := r.order, limit := r.limit)
    ensures KeyOf(r) == KeyOf(q) && KeyClash(r, cat) == KeyClash(q, cat)
  {
  }

  /** GROUP BY and the added ORDER BY term mean the same core, if and only if the key does not clash. */
  lemma SameKey(q: Select, cat: Catalog, outputs: seq<Core>, s: Scope)
    requires Prepared(q, cat, outputs, s) && |q.group| == 1 && KeyOf(q).Some? && !KeyOf(q).value.IntLit?
    requires q.group[0].Column? ==> q.group[0].name != ""
    requires ElabGroupKey(q.group[0], s, outputs).Some?
    ensures ElabOrderKey(KeyOf(q).value, s, outputs, true) == ElabGroupKey(q.group[0], s, outputs) <==> !KeyClash(q, cat)
  {
    var g, key := q.group[0], KeyOf(q).value;
    if g.Column? && g.table == "" {
      var i := FirstOutputIn(q.items, g.name);
      var src := SourceScope(q, cat);
      ElabEach(Values(q.items), src, outputs, i);
      OrderCore(q, cat, outputs, s, i);
      GroupCore(q, cat, outputs, s, g.name);
      ColumnCore(OrderReads(q.items, key), q, cat, g.name);
      if key.Column? {
        ColumnCore(OrderReads(q.items, key), q, cat, key.name);
        ColumnCore(key, q, cat, key.name);
      }
    } else {
      ElabStrict(g, s);
    }
  }
}
