/** The schema linker: seeds from the ranked evidence, closed under joins, within a token budget. */
module SchemaLinker {
  import opened Prelude
  import opened Sql
  import opened FkGraph
  import opened JoinClosure
  import opened JoinForest

  /** A ranked document; `related` are the tables named by a relationship document. */
  datatype Document = Document(id: string, table: string, column: Option<string>, related: seq<string>)

  type ColumnRef = (string, string)
  datatype Context = Context(tables: set<string>, columns: set<ColumnRef>, joins: set<Join>, evidence: seq<string>, tokens: nat)

  /** The estimated tokens of the rendered tables, columns and joins. */
  type Cost = (set<string>, set<ColumnRef>, set<Join>) -> nat

  function TablesOf(d: Document): seq<string> { [d.table] + d.related }

  function Mentioned(ranked: seq<Document>): seq<string> {
    if ranked == [] then [] else TablesOf(ranked[0]) + Mentioned(ranked[1..])
  }

  /** The distinct tables in order of first mention, on top of `order`. */
  function Distinct(order: seq<string>, names: seq<string>): seq<string>
    decreases |names|
  {
    if names == [] then order
    else Distinct(if names[0] in order then order else order + [names[0]], names[1..])
  }

  function Prefix<T>(s: seq<T>, n: nat): seq<T> { if n < |s| then s[..n] else s }

  /** The seeds: the first `maxTables` distinct tables the ranked documents mention. */
  function TableOrder(ranked: seq<Document>, maxTables: nat): seq<string> {
    Prefix(Distinct([], Mentioned(ranked)), maxTables)
  }

  lemma {:induction false} DistinctExtends(order: seq<string>, names: seq<string>)
    ensures |order| <= |Distinct(order, names)| && Distinct(order, names)[..|order|] == order
    decreases |names|
  {
    if names != [] {
      var next := if names[0] in order then order else order + [names[0]];
      DistinctExtends(next, names[1..]);
      assert Distinct(order, names)[..|order|] == Distinct(order, names)[..|next|][..|order|];
    }
  }

  lemma {:induction false} DistinctSplit(order: seq<string>, a: seq<string>, b: seq<string>)
    ensures Distinct(order, a + b) == Distinct(Distinct(order, a), b)
    decreases |a|
  {
    if a == [] { assert a + b == b; }
    else {
      assert (a + b)[1..] == a[1..] + b;
      DistinctSplit(if a[0] in order then order else order + [a[0]], a[1..], b);
    }
  }

  lemma {:induction false} MentionedSplit(a: seq<Document>, b: seq<Document>)
    ensures Mentioned(a + b) == Mentioned(a) + Mentioned(b)
  {
    if a == [] { assert a + b == b; }
    else { assert (a + b)[1..] == a[1..] + b; MentionedSplit(a[1..], b); }
  }

  /** Once the prefix is full, later mentions do not change it. */
  lemma FullPrefix(order: seq<string>, names: seq<string>, n: nat)
    requires |order| == n
    ensures Prefix(Distinct(order, names), n) == order
  {
    DistinctExtends(order, names);
  }

  /** ... not even those of the same document. */
  lemma FullInside(before: seq<string>, order: seq<string>, names: seq<string>, j: nat, later: seq<string>, n: nat)
    requires j <= |names| && order == Distinct(before, names[..j]) && |order| == n
    ensures Prefix(Distinct(Distinct(before, names), later), n) == order
  {
    assert names == names[..j] + names[j..];
    DistinctSplit(before, names[..j], names[j..]);
    DistinctSplit(order, names[j..], later);
    FullPrefix(order, names[j..] + later, n);
  }

  lemma MentionedNext(ranked: seq<Document>, i: nat)
    requires i < |ranked|
    ensures Mentioned(ranked[..i + 1]) == Mentioned(ranked[..i]) + TablesOf(ranked[i])
  {
    var one := [ranked[i]];
    assert ranked[..i + 1] == ranked[..i] + one;
    MentionedSplit(ranked[..i], one);
    assert one[1..] == [];
  }

  /** The seeds of the first `n` documents, then the later ones. */
  lemma DocumentsSplit(ranked: seq<Document>, n: nat)
    requires n <= |ranked|
    ensures Distinct([], Mentioned(ranked)) == Distinct(Distinct([], Mentioned(ranked[..n])), Mentioned(ranked[n..]))
  {
    assert ranked == ranked[..n] + ranked[n..];
    MentionedSplit(ranked[..n], ranked[n..]);
    DistinctSplit([], Mentioned(ranked[..n]), Mentioned(ranked[n..]));
  }

  lemma NextDocument(ranked: seq<Document>, i: nat)
    requires i < |ranked|
    ensures Distinct([], Mentioned(ranked[..i + 1])) == Distinct(Distinct([], Mentioned(ranked[..i])), TablesOf(ranked[i]))
  {
    MentionedNext(ranked, i);
    DistinctSplit([], Mentioned(ranked[..i]), TablesOf(ranked[i]));
  }

  lemma NextName(before: seq<string>, names: seq<string>, j: nat)
    requires j < |names|
    ensures var order := Distinct(before, names[..j]);
      Distinct(before, names[..j + 1]) == if names[j] in order then order else order + [names[j]]
  {
    assert names[..j + 1] == names[..j] + [names[j]];
    DistinctSplit(before, names[..j], [names[j]]);
    assert [names[j]][1..] == [];
  }

  /** The nested loops that collect the seeds, leaving both when there are enough. */
  method CollectTables(ranked: seq<Document>, maxTables: nat) returns (order: seq<string>)
    requires maxTables >= 1
    ensures order == TableOrder(ranked, maxTables)
  {
    order := [];
    for i := 0 to |ranked|
      invariant |order| < maxTables && order == Distinct([], Mentioned(ranked[..i]))
    {
      var names := TablesOf(ranked[i]);
      ghost var before := order;
      NextDocument(ranked, i);
      DocumentsSplit(ranked, i + 1);
      for j := 0 to |names|
        invariant |order| < maxTables && order == Distinct(before, names[..j])
      {
        NextName(before, names, j);
        if names[j] !in order {
          order := order + [names[j]];
        }
        if |order| == maxTables {
          FullInside(before, order, names, j + 1, Mentioned(ranked[i + 1..]), maxTables);
          return;
        }
      }
      assert names[..|names|] == names;
    }
    assert ranked[..|ranked|] == ranked;
  }

  // ------------------------------------------------------------------ contexts

  function JoinColumns(j: Join): set<ColumnRef> {
    (set i | 0 <= i < |j.columns| :: (j.child, j.columns[i].0)) + (set i | 0 <= i < |j.columns| :: (j.parent, j.columns[i].1))
  }

  function SelectedColumns(ranked: seq<Document>, c: Closure): set<ColumnRef> {
    (set i | 0 <= i < |ranked| && ranked[i].table in c.selected && ranked[i].column.Some? :: (ranked[i].table, ranked[i].column.value))
    + (set j, r | j in c.joins && r in JoinColumns(j) :: r)
  }

  function Evidence(ranked: seq<Document>, tables: set<string>): seq<string> {
    if ranked == [] then []
    else (if ranked[0].table in tables then [ranked[0].id] else []) + Evidence(ranked[1..], tables)
  }

  function ContextOf(ranked: seq<Document>, c: Closure, cost: Cost): Context {
    var columns := SelectedColumns(ranked, c);
    Context(c.selected, columns, c.joins, Evidence(ranked, c.selected), cost(c.selected, columns, c.joins))
  }

  /** The context of the first `k` seeds. */
  function ContextAt(g: Graph, ranked: seq<Document>, order: seq<string>, k: nat, hops: nat, cost: Cost): Context
    requires Closed(g) && k <= |order|
  {
    ContextOf(ranked, ClosureOf(g, order[..k], hops), cost)
  }

  /** The contexts of the first `k` seed prefixes fit. */
  ghost predicate AllFit(g: Graph, ranked: seq<Document>, order: seq<string>, k: nat, hops: nat, cost: Cost, budget: int)
    requires Closed(g) && k <= |order|
  {
    forall j | 1 <= j <= k :: ContextAt(g, ranked, order, j, hops, cost).tokens <= budget
  }

  lemma AllFitNext(g: Graph, ranked: seq<Document>, order: seq<string>, k: nat, hops: nat, cost: Cost, budget: int)
    requires Closed(g) && 1 <= k <= |order| && (k > 1 ==> AllFit(g, ranked, order, k - 1, hops, cost, budget))
    requires ContextAt(g, ranked, order, k, hops, cost).tokens <= budget
    ensures AllFit(g, ranked, order, k, hops, cost, budget)
  {
  }

  /** `k` is the longest seed prefix such that it and all shorter ones fit. */
  ghost predicate LongestFit(g: Graph, ranked: seq<Document>, order: seq<string>, k: nat, hops: nat, cost: Cost, budget: int)
    requires Closed(g)
  {
    && 1 <= k <= |order| && AllFit(g, ranked, order, k, hops, cost, budget)
    && (k == |order| || ContextAt(g, ranked, order, k + 1, hops, cost).tokens > budget)
  }

  ghost predicate Linkable(tables: seq<TableInfo>, ranked: seq<Document>, belongs: bool, budget: int, maxTables: int, hops: int) {
    belongs && budget >= 1 && maxTables >= 1 && ranked != [] && 0 <= hops <= 2 && WellFormed(tables)
  }

  /** `link_schema` on the ranked documents; `belongs` says that the retrieval is
      of this catalog. */
  method LinkSchema(tables: seq<TableInfo>, text: Edge -> string, ranked: seq<Document>, belongs: bool, budget: int,
                    maxTables: int, hops: int, cost: Cost) returns (r: Result<Context>, ghost k: nat)
    ensures Linkable(tables, ranked, belongs, budget, maxTables, hops) ==>
      && Closed(GraphOf(tables, text)) && TableOrder(ranked, maxTables) != []
      && (r.Ok? <==> ContextAt(GraphOf(tables, text), ranked, TableOrder(ranked, maxTables), 1, hops, cost).tokens <= budget)
      && (r.Ok? ==> (
            && LongestFit(GraphOf(tables, text), ranked, TableOrder(ranked, maxTables), k, hops, cost, budget)
            && r.value == ContextAt(GraphOf(tables, text), ranked, TableOrder(ranked, maxTables), k, hops, cost)))
    ensures !Linkable(tables, ranked, belongs, budget, maxTables, hops) ==> r.Err?
  {
    k := 0;
    if !belongs {
      return Err("retrieval result does not belong to the supplied catalog"), k;
    }
    if budget < 1 || maxTables < 1 {
      return Err("schema budget and max_tables must be positive"), k;
    }
    var order := CollectTables(ranked, maxTables);
    if order == [] {
      if ranked != [] { OrderNonempty(ranked, maxTables); }
      return Err("schema linker received no retrieval candidates"), k;
    }
    ghost var g := Graph(if WellFormed(tables) then AdjacencyOf(tables) else map[], text);
    var best: Option<Context> := None;
    for seeds := 1 to |order| + 1
      invariant best.None? ==> seeds == 1
      invariant best.Some? ==> k == seeds - 1 >= 1 && 0 <= hops <= HOP_LIMIT && WellFormed(tables) && Closed(g)
      invariant best.Some? ==> best.value == ContextAt(g, ranked, order, k, hops, cost) && AllFit(g, ranked, order, k, hops, cost, budget)
    {
      var closure := MinimalJoinClosure(tables, text, order[..seeds], hops);
      if closure.Err? {
        return Err(closure.reason), k;
      }
      var context := ContextOf(ranked, closure.value, cost);
      assert context == ContextAt(g, ranked, order, seeds, hops, cost);
      if context.tokens > budget {
        break;
      }
      AllFitNext(g, ranked, order, seeds, hops, cost, budget);
      best := Some(context);
      k := seeds;
    }
    if best.None? {
      return Err("even the smallest schema context exceeds the token budget"), k;
    }
    return Ok(best.value), k;
  }

  lemma OrderNonempty(ranked: seq<Document>, maxTables: nat)
    requires ranked != [] && maxTables >= 1
    ensures TableOrder(ranked, maxTables) != []
  {
    var names := Mentioned(ranked);
    assert names[0] == ranked[0].table;
    DistinctExtends([names[0]], names[1..]);
    assert [] + [names[0]] == [names[0]];
  }

  // ---------------------------------------------------------------- properties

  /** Tables and joins only grow with the number of seeds. */
  lemma ContextsGrow(g: Graph, ranked: seq<Document>, order: seq<string>, m: nat, n: nat, hops: nat, cost: Cost)
    requires Closed(g) && m <= n <= |order|
    ensures var a, b := ContextAt(g, ranked, order, m, hops, cost), ContextAt(g, ranked, order, n, hops, cost);
            a.tables <= b.tables && a.joins <= b.joins && a.columns <= b.columns
  {
    ClosureMonotone(g, order, m, n, hops);
    var a, b := ClosureOf(g, order[..m], hops), ClosureOf(g, order[..n], hops);
    forall r | r in SelectedColumns(ranked, a) ensures r in SelectedColumns(ranked, b) {
      if j :| j in a.joins && r in JoinColumns(j) { assert j in b.joins; }
    }
  }

  /** Every seed of the prefix is in the context, and both ends of every join
      are selected columns of selected tables. */
  lemma ContextConsistent(g: Graph, ranked: seq<Document>, order: seq<string>, k: nat, hops: nat, cost: Cost)
    requires Closed(g) && 1 <= k <= |order|
    ensures var c := ContextAt(g, ranked, order, k, hops, cost);
      && (forall i | 0 <= i < k :: order[i] in c.tables)
      && forall j | j in c.joins :: j.child in c.tables && j.parent in c.tables
           && forall i | 0 <= i < |j.columns| :: (j.child, j.columns[i].0) in c.columns && (j.parent, j.columns[i].1) in c.columns
  {
    ClosureIsForest(g, order[..k], hops);
    var c := ClosureOf(g, order[..k], hops);
    forall i | 0 <= i < k ensures order[i] in c.selected { assert order[..k][i] == order[i] && order[i] in order[..k]; }
    forall j, i | j in c.joins && 0 <= i < |j.columns|
      ensures (j.child, j.columns[i].0) in SelectedColumns(ranked, c) && (j.parent, j.columns[i].1) in SelectedColumns(ranked, c)
    {
      assert (j.child, j.columns[i].0) in JoinColumns(j) && (j.parent, j.columns[i].1) in JoinColumns(j);
    }
  }
}
