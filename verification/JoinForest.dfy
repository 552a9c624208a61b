/** The greedy join closure: what it selects, and that its joins form a forest. */
module JoinForest {
  import opened Prelude
  import opened Orders
  import opened Sorting
  import opened Sql
  import opened FkGraph
  import opened JoinClosure

  datatype Closure = Closure(selected: set<string>, joins: set<Join>)

  /** One seed: already there, attached by a shortest path, or added on its own. */
  function AttachSeed(g: Graph, c: Closure, target: string, maxHops: nat): Closure
    requires Closed(g)
  {
    if target in c.selected then c
    else
      match FindPath(g, target, c.selected, maxHops)
      case None => c.(selected := c.selected + {target})
      case Some(x) => Closure(c.selected + Elements(x.path), c.joins + Elements(x.joins))
  }

  /** The closure of an ordered list of seeds, as an incremental fold. */
  function ClosureOf(g: Graph, seeds: seq<string>, maxHops: nat): Closure
    requires Closed(g)
  {
    if seeds == [] then Closure({}, {})
    else if |seeds| == 1 then Closure({seeds[0]}, {})
    else AttachSeed(g, ClosureOf(g, seeds[..|seeds| - 1], maxHops), seeds[|seeds| - 1], maxHops)
  }

  /** The seeds after the first that no path attached. */
  function Unattached(g: Graph, seeds: seq<string>, maxHops: nat): set<string>
    requires Closed(g)
  {
    if |seeds| <= 1 then {}
    else
      var before := ClosureOf(g, seeds[..|seeds| - 1], maxHops);
      var target := seeds[|seeds| - 1];
      Unattached(g, seeds[..|seeds| - 1], maxHops)
      + (if target !in before.selected && FindPath(g, target, before.selected, maxHops).None? then {target} else {})
  }

  const HOP_LIMIT := 2

  function GraphOf(tables: seq<TableInfo>, text: Edge -> string): Graph
    requires WellFormed(tables)
  {
    Graph(AdjacencyOf(tables), text)
  }

  /** `minimal_join_closure`; the joins are a set, the source sorts them by text. */
  method MinimalJoinClosure(tables: seq<TableInfo>, text: Edge -> string, seeds: seq<string>, maxHops: int) returns (r: Result<Closure>)
    ensures r.Ok? <==> 0 <= maxHops <= 2 && WellFormed(tables)
    ensures r.Ok? ==> Closed(GraphOf(tables, text)) && r.value == ClosureOf(GraphOf(tables, text), seeds, maxHops)
  {
    if !(0 <= maxHops <= HOP_LIMIT) {
      return Err("join closure is bounded to 0..2 hops");
    }
    var adjacency := BuildAdjacency(tables);
    if adjacency.Err? {
      return Err(adjacency.reason);
    }
    var g := Graph(adjacency.value, text);
    AdjacencyEdges(tables);
    if seeds == [] {
      return Ok(Closure({}, {}));
    }
    var c := Closure({seeds[0]}, {});
    assert seeds[..1] == [seeds[0]];
    for i := 1 to |seeds|
      invariant c == ClosureOf(g, seeds[..i], maxHops)
    {
      assert seeds[..i + 1][..i] == seeds[..i] && seeds[..i + 1][i] == seeds[i];
      if seeds[i] in c.selected {
        continue;
      }
      var found := FindPathLoop(g, seeds[i], c.selected, maxHops);
      if found.None? {
        c := c.(selected := c.selected + {seeds[i]});
      } else {
        c := Closure(c.selected + Elements(found.value.path), c.joins + Elements(found.value.joins));
      }
    }
    assert seeds[..|seeds|] == seeds;
    return Ok(c);
  }

  // ------------------------------------------------------------------ growth

  lemma AttachGrows(g: Graph, c: Closure, target: string, maxHops: nat)
    requires Closed(g)
    ensures var d := AttachSeed(g, c, target, maxHops);
            c.selected <= d.selected && c.joins <= d.joins && target in d.selected
  {
    FindPathNearest(g, target, c.selected, maxHops);
    if target !in c.selected && FindPath(g, target, c.selected, maxHops).Some? {
      var x := FindPath(g, target, c.selected, maxHops).value;
      assert x.path[0] in x.path;
    }
  }

  /** A longer prefix of the seeds selects at least the same tables and joins. */
  lemma {:induction false} ClosureMonotone(g: Graph, seeds: seq<string>, m: nat, n: nat, maxHops: nat)
    requires Closed(g) && m <= n <= |seeds|
    ensures ClosureOf(g, seeds[..m], maxHops).selected <= ClosureOf(g, seeds[..n], maxHops).selected
    ensures ClosureOf(g, seeds[..m], maxHops).joins <= ClosureOf(g, seeds[..n], maxHops).joins
    decreases n - m
  {
    if m < n {
      ClosureMonotone(g, seeds, m, n - 1, maxHops);
      if n == 1 { assert seeds[..0] == []; }
      else {
        assert seeds[..n][..n - 1] == seeds[..n - 1];
        AttachGrows(g, ClosureOf(g, seeds[..n - 1], maxHops), seeds[n - 1], maxHops);
      }
    }
  }

  /** Every seed is selected. */
  lemma {:induction false} SeedsSelected(g: Graph, seeds: seq<string>, maxHops: nat)
    requires Closed(g)
    ensures forall s | s in seeds :: s in ClosureOf(g, seeds, maxHops).selected
  {
    if |seeds| > 1 {
      var last := seeds[|seeds| - 1];
      var before := ClosureOf(g, seeds[..|seeds| - 1], maxHops);
      SeedsSelected(g, seeds[..|seeds| - 1], maxHops);
      AttachGrows(g, before, last, maxHops);
      assert seeds == seeds[..|seeds| - 1] + [last];
    }
  }

  // ------------------------------------------------------------------ the forest

  /** Each attached table hangs by one join from a table of smaller rank, and
      there are no other joins. */
  datatype Hanging = Hanging(up: map<string, Join>, via: map<string, string>, rank: map<string, nat>, height: nat)

  /** `v` hangs by its join from a table of smaller rank. */
  predicate HangsBy(h: Hanging, v: string) {
    && v in h.up && v in h.via && v in h.rank && h.via[v] in h.rank
    && Connects(h.up[v], v, h.via[v]) && h.rank[h.via[v]] < h.rank[v]
  }

  ghost predicate Hangs(c: Closure, h: Hanging) {
    && h.rank.Keys == c.selected && h.up.Keys <= c.selected && h.up.Values == c.joins
    && (forall v | v in h.rank :: h.rank[v] < h.height)
    && (forall v | v in h.up :: HangsBy(h, v))
  }

  /** A closed trail: consecutive tables joined, the joins all different. */
  ghost predicate Cycle(joins: set<Join>, vs: seq<string>, es: seq<Join>) {
    && |vs| == |es| > 0
    && (forall i | 0 <= i < |vs| :: es[i] in joins && Connects(es[i], vs[i], vs[Next(i, |vs|)]))
    && (forall i, j | 0 <= i < j < |es| :: es[i] != es[j])
  }

  function Next(i: nat, n: nat): (r: nat)
    requires i < n
    ensures r < n
  {
    if i + 1 == n then 0 else i + 1
  }

  lemma {:induction false} Highest(h: Hanging, vs: seq<string>, n: nat) returns (m: nat)
    requires 0 < n <= |vs| && forall i | 0 <= i < |vs| :: vs[i] in h.rank
    ensures m < n && forall i | 0 <= i < n :: h.rank[vs[i]] <= h.rank[vs[m]]
  {
    if n == 1 { m := 0; }
    else {
      m := Highest(h, vs, n - 1);
      if h.rank[vs[n - 1]] > h.rank[vs[m]] { m := n - 1; }
    }
  }

  /** A join between `v` and a table of no greater rank is the one `v` hangs by. */
  lemma OwnJoin(c: Closure, h: Hanging, j: Join, v: string, u: string)
    requires Hangs(c, h) && j in c.joins && Connects(j, v, u) && v in h.rank && u in h.rank && h.rank[u] <= h.rank[v]
    ensures v in h.up && h.up[v] == j
  {
    assert j in h.up.Values;
    var x :| x in h.up && h.up[x] == j;
    assert HangsBy(h, x);
  }

  /** Joins of a hanging closure contain no cycle. */
  lemma NoCycle(c: Closure, h: Hanging, vs: seq<string>, es: seq<Join>)
    requires Hangs(c, h)
    ensures !Cycle(c.joins, vs, es)
  {
    if Cycle(c.joins, vs, es) {
      forall i | 0 <= i < |vs| ensures vs[i] in h.rank {
        assert es[i] in h.up.Values;
        var x :| x in h.up && h.up[x] == es[i];
        assert HangsBy(h, x);
      }
      var m := Highest(h, vs, |vs|);
      var before := if m == 0 then |vs| - 1 else m - 1;
      assert Next(before, |vs|) == m;
      OwnJoin(c, h, es[m], vs[m], vs[Next(m, |vs|)]);
      OwnJoin(c, h, es[before], vs[m], vs[before]);
    }
  }

  /** Different tables hang by different joins, so there are as many joins as hanging tables. */
  lemma CountJoins(c: Closure, h: Hanging)
    requires Hangs(c, h)
    ensures |c.joins| == |h.up|
  {
    forall v, w | v in h.up && w in h.up && v != w ensures h.up[v] != h.up[w] {
      assert HangsBy(h, v) && HangsBy(h, w);
    }
    MapSizes(h.up);
  }

  // --------------------------------------------------------- attaching keeps it

  lemma AddValue<K, V>(m: map<K, V>, k: K, v: V)
    requires k !in m
    ensures m[k := v].Values == m.Values + {v} && |m[k := v]| == |m| + 1
  {
    var n := m[k := v];
    assert n.Keys == m.Keys + {k};
    forall w | w in m.Values ensures w in n.Values { var x :| x in m && m[x] == w; assert n[x] == w; }
    assert n[k] == v;
  }

  function HangFrom(h: Hanging, v: string, u: string, j: Join): Hanging {
    Hanging(h.up[v := j], h.via[v := u], h.rank[v := h.height], h.height + 1)
  }

  lemma HangOneBy(c: Closure, h: Hanging, v: string, u: string, j: Join, x: string)
    requires Hangs(c, h) && v !in c.selected && u in c.selected && Connects(j, v, u) && x in HangFrom(h, v, u, j).up
    ensures HangsBy(HangFrom(h, v, u, j), x)
  {
    if x != v { assert HangsBy(h, x); }
  }

  lemma HangOneSets(c: Closure, h: Hanging, v: string, u: string, j: Join)
    requires Hangs(c, h) && v !in c.selected && u in c.selected && Connects(j, v, u)
    ensures var k := HangFrom(h, v, u, j);
      k.rank.Keys == c.selected + {v} && k.up.Keys <= k.rank.Keys && k.up.Values == c.joins + {j} && |k.up| == |h.up| + 1
  {
    AddValue(h.up, v, j);
  }

  lemma HangOneRanks(c: Closure, h: Hanging, v: string, u: string, j: Join)
    requires Hangs(c, h)
    ensures var k := HangFrom(h, v, u, j); forall x | x in k.rank :: k.rank[x] < k.height
  {
  }

  /** A new table hung from a selected one leaves the closure hanging. */
  lemma HangOne(c: Closure, h: Hanging, v: string, u: string, j: Join)
    requires Hangs(c, h) && v !in c.selected && u in c.selected && Connects(j, v, u)
    ensures Hangs(Closure(c.selected + {v}, c.joins + {j}), HangFrom(h, v, u, j)) && |HangFrom(h, v, u, j).up| == |h.up| + 1
  {
    HangOneSets(c, h, v, u, j);
    HangOneRanks(c, h, v, u, j);
    forall x | x in HangFrom(h, v, u, j).up ensures HangsBy(HangFrom(h, v, u, j), x) { HangOneBy(c, h, v, u, j, x); }
  }

  ghost function WithPath(c: Closure, x: Visit, i: nat): Closure
    requires i <= |x.path| && i <= |x.joins|
  {
    Closure(c.selected + Elements(x.path[i..]), c.joins + Elements(x.joins[i..]))
  }

  lemma ElementsCons<T>(s: seq<T>, i: nat)
    requires i < |s|
    ensures Elements(s[i..]) == {s[i]} + Elements(s[i + 1..])
  {
    assert s[i..] == [s[i]] + s[i + 1..];
  }

  /** Position `i` of the path adds one new table, joined to what is there from `i + 1` on. */
  ghost predicate AddsOne(c: Closure, x: Visit, i: nat)
    requires i < |x.joins| && i < |x.path| - 1
  {
    var d := WithPath(c, x, i + 1);
    && x.path[i] !in d.selected && x.path[i + 1] in d.selected && Connects(x.joins[i], x.path[i], x.path[i + 1])
    && WithPath(c, x, i) == Closure(d.selected + {x.path[i]}, d.joins + {x.joins[i]})
  }

  lemma WithPathCons(c: Closure, x: Visit, i: nat)
    requires i < |x.path| && i < |x.joins|
    ensures WithPath(c, x, i)
         == Closure(WithPath(c, x, i + 1).selected + {x.path[i]}, WithPath(c, x, i + 1).joins + {x.joins[i]})
  {
    ElementsCons(x.path, i);
    ElementsCons(x.joins, i);
  }

  lemma NewOnPath(path: seq<string>, i: nat)
    requires i + 1 < |path| && forall a, b | 0 <= a < b < |path| :: path[a] != path[b]
    ensures path[i] !in Elements(path[i + 1..]) && path[i + 1] in Elements(path[i + 1..])
  {
    var rest := path[i + 1..];
    assert rest[0] == path[i + 1];
    assert forall k | 0 <= k < |rest| :: rest[k] == path[i + 1 + k];
  }

  lemma PathAddsOne(g: Graph, c: Closure, target: string, x: Visit, i: nat)
    requires Closed(g) && IsPath(g, target, c.selected, x) && i < |x.joins|
    ensures AddsOne(c, x, i)
  {
    WithPathCons(c, x, i);
    assert HasEdge(g.adj, x.path[i], Edge(x.path[i + 1], x.joins[i]));
    NewOnPath(x.path, i);
  }

  /** Hanging a path from its selected end, one table at a time. */
  lemma {:induction false} HangPath(c: Closure, h: Hanging, x: Visit, i: nat) returns (k: Hanging)
    requires i <= |x.joins| && |x.path| == |x.joins| + 1
    requires Hangs(WithPath(c, x, |x.joins|), h) && forall n | 0 <= n < |x.joins| :: AddsOne(c, x, n)
    ensures Hangs(WithPath(c, x, i), k)
    ensures |k.up| == |h.up| + (|x.joins| - i) && |WithPath(c, x, i).selected| == |WithPath(c, x, |x.joins|).selected| + (|x.joins| - i)
    decreases |x.joins| - i
  {
    k := h;
    if i < |x.joins| {
      var rest := HangPath(c, h, x, i + 1);
      assert AddsOne(c, x, i);
      HangOne(WithPath(c, x, i + 1), rest, x.path[i], x.path[i + 1], x.joins[i]);
      k := HangFrom(rest, x.path[i], x.path[i + 1], x.joins[i]);
    }
  }

  lemma AttachPath(g: Graph, c: Closure, h: Hanging, target: string, x: Visit) returns (k: Hanging)
    requires Closed(g) && Hangs(c, h) && IsPath(g, target, c.selected, x) && x.node in c.selected
    ensures Hangs(Closure(c.selected + Elements(x.path), c.joins + Elements(x.joins)), k)
    ensures |k.up| == |h.up| + |x.joins| && |c.selected + Elements(x.path)| == |c.selected| + |x.joins|
  {
    forall n | 0 <= n < |x.joins| ensures AddsOne(c, x, n) { PathAddsOne(g, c, target, x, n); }
    assert x.path[|x.joins|..] == [x.node] && x.joins[|x.joins|..] == [];
    assert WithPath(c, x, |x.joins|) == c;
    k := HangPath(c, h, x, 0);
    assert x.path[0..] == x.path && x.joins[0..] == x.joins;
  }

  lemma AloneHangs(c: Closure, h: Hanging, target: string) returns (k: Hanging)
    requires Hangs(c, h) && target !in c.selected
    ensures Hangs(c.(selected := c.selected + {target}), k) && k.up == h.up
  {
    k := h.(rank := h.rank[target := 0], height := h.height + 1);
    forall v | v in k.up ensures HangsBy(k, v) { assert HangsBy(h, v); }
  }

  /** Attaching one seed keeps the closure hanging; it adds a root exactly when no path was found. */
  lemma AttachHangs(g: Graph, c: Closure, h: Hanging, target: string, maxHops: nat) returns (k: Hanging)
    requires Closed(g) && Hangs(c, h)
    ensures var d := AttachSeed(g, c, target, maxHops);
      && Hangs(d, k)
      && |d.selected| - |k.up| == |c.selected| - |h.up|
           + (if target !in c.selected && FindPath(g, target, c.selected, maxHops).None? then 1 else 0)
  {
    k := h;
    if target !in c.selected {
      FindPathNearest(g, target, c.selected, maxHops);
      var found := FindPath(g, target, c.selected, maxHops);
      if found.None? {
        k := AloneHangs(c, h, target);
      } else {
        k := AttachPath(g, c, h, target, found.value);
      }
    }
  }

  /** An unattached seed is counted once. */
  lemma {:induction false} UnattachedSelected(g: Graph, seeds: seq<string>, maxHops: nat)
    requires Closed(g)
    ensures Unattached(g, seeds, maxHops) <= ClosureOf(g, seeds, maxHops).selected
  {
    if |seeds| > 1 {
      UnattachedSelected(g, seeds[..|seeds| - 1], maxHops);
      AttachGrows(g, ClosureOf(g, seeds[..|seeds| - 1], maxHops), seeds[|seeds| - 1], maxHops);
    }
  }

  /** The closure hangs, and its roots are the first seed and the unattached ones. */
  lemma {:induction false} ClosureHangs(g: Graph, seeds: seq<string>, maxHops: nat) returns (h: Hanging)
    requires Closed(g) && seeds != []
    ensures Hangs(ClosureOf(g, seeds, maxHops), h)
    ensures |ClosureOf(g, seeds, maxHops).selected| - |h.up| == 1 + |Unattached(g, seeds, maxHops)|
  {
    if |seeds| == 1 {
      h := Hanging(map[], map[], map[seeds[0] := 0], 1);
    } else {
      var init, target := seeds[..|seeds| - 1], seeds[|seeds| - 1];
      var before := ClosureOf(g, init, maxHops);
      var k := ClosureHangs(g, init, maxHops);
      h := AttachHangs(g, before, k, target, maxHops);
      UnattachedSelected(g, init, maxHops);
      assert target !in before.selected ==> target !in Unattached(g, init, maxHops);
    }
  }

  /** The join of some edge of the graph. */
  ghost predicate IsEdgeJoin(g: Graph, j: Join) { exists u, e :: HasEdge(g.adj, u, e) && e.join == j }

  lemma {:induction false} JoinsAreEdges(g: Graph, seeds: seq<string>, maxHops: nat)
    requires Closed(g)
    ensures forall j | j in ClosureOf(g, seeds, maxHops).joins :: IsEdgeJoin(g, j)
  {
    if |seeds| > 1 {
      var init, target := seeds[..|seeds| - 1], seeds[|seeds| - 1];
      var before := ClosureOf(g, init, maxHops);
      JoinsAreEdges(g, init, maxHops);
      FindPathNearest(g, target, before.selected, maxHops);
      var found := FindPath(g, target, before.selected, maxHops);
      if target !in before.selected && found.Some? { PathJoinsAreEdges(g, target, before.selected, found.value); }
    }
  }

  lemma PathJoinsAreEdges(g: Graph, target: string, selected: set<string>, x: Visit)
    requires IsPath(g, target, selected, x)
    ensures forall j | j in Elements(x.joins) :: IsEdgeJoin(g, j)
  {
    forall j | j in Elements(x.joins) ensures IsEdgeJoin(g, j) {
      var i :| 0 <= i < |x.joins| && x.joins[i] == j;
      assert HasEdge(g.adj, x.path[i], Edge(x.path[i + 1], x.joins[i]));
    }
  }

  /** Every join of a closure over a catalog is one of its foreign keys. */
  lemma JoinsAreForeignKeys(tables: seq<TableInfo>, text: Edge -> string, seeds: seq<string>, maxHops: nat, j: Join) returns (t: nat, k: nat)
    requires WellFormed(tables) && Closed(GraphOf(tables, text)) && j in ClosureOf(GraphOf(tables, text), seeds, maxHops).joins
    ensures t < |tables| && k < |tables[t].foreignKeys|
    ensures var fk := tables[t].foreignKeys[k];
      && j.child == tables[t].name && j.parent == fk.targetTable && |j.columns| == |fk.fromColumns| == |fk.targetColumns|
      && forall i | 0 <= i < |j.columns| :: j.columns[i] == (fk.fromColumns[i], fk.targetColumns[i])
  {
    var g := GraphOf(tables, text);
    JoinsAreEdges(g, seeds, maxHops);
    var u, e :| HasEdge(g.adj, u, e) && e.join == j;
    AdjacencyEdges(tables);
    assert FromForeignKey(tables, u, e);
    t, k :| 0 <= t < |tables| && 0 <= k < |tables[t].foreignKeys| && FkEdge(tables[t], tables[t].foreignKeys[k], u, e);
  }

  /** The join closure is a forest over the selected tables: every seed is
      selected, every join is that of a foreign key between two selected tables, no joins
      form a cycle, and there are exactly as many joins as selected tables less
      one less the seeds that could not be attached. */
  lemma ClosureIsForest(g: Graph, seeds: seq<string>, maxHops: nat)
    requires Closed(g) && seeds != []
    ensures var c := ClosureOf(g, seeds, maxHops);
      && (forall s | s in seeds :: s in c.selected)
      && (forall j | j in c.joins :: j.child in c.selected && j.parent in c.selected && IsEdgeJoin(g, j))
      && (forall vs, es :: !Cycle(c.joins, vs, es))
      && |c.joins| == |c.selected| - 1 - |Unattached(g, seeds, maxHops)|
  {
    var c := ClosureOf(g, seeds, maxHops);
    SeedsSelected(g, seeds, maxHops);
    JoinsAreEdges(g, seeds, maxHops);
    var h := ClosureHangs(g, seeds, maxHops);
    CountJoins(c, h);
    forall vs, es ensures !Cycle(c.joins, vs, es) { NoCycle(c, h, vs, es); }
    forall j | j in c.joins ensures j.child in c.selected && j.parent in c.selected {
      assert j in h.up.Values;
      var v :| v in h.up && h.up[v] == j;
      assert HangsBy(h, v);
    }
  }

  // ------------------------------------------------------ the order of the catalog

  /** The same edges in another order, and a text that tells edges apart. */
  ghost predicate Reordered(g: Graph, h: Graph) {
    && g.text == h.text && Injective(g.text) && g.adj.Keys == h.adj.Keys
    && forall u | u in g.adj :: multiset(g.adj[u]) == multiset(h.adj[u])
  }

  lemma SameNeighbours(g: Graph, h: Graph, node: string)
    requires Reordered(g, h)
    ensures Neighbours(g, node) == Neighbours(h, node)
  {
    if node in g.adj { SortCanonical(g.adj[node], h.adj[node], g.text); }
  }

  lemma {:induction false} SameSearch(g: Graph, h: Graph, queue: seq<Visit>, visited: set<string>, selected: set<string>, maxHops: nat)
    requires Closed(g) && Closed(h) && Reordered(g, h)
    ensures Search(g, queue, visited, selected, maxHops) == Search(h, queue, visited, selected, maxHops)
    decreases |g.adj.Keys - visited|, |queue|
  {
    if queue != [] {
      var x := queue[0];
      if |x.path| > maxHops + 1 {
        SameSearch(g, h, queue[1..], visited, selected, maxHops);
      } else if x.node !in selected {
        SameNeighbours(g, h, x.node);
        AddedShrinks(g, x, visited);
        var added := Expand(Neighbours(g, x.node), x, visited);
        SameSearch(g, h, queue[1..] + added, visited + Nodes(added), selected, maxHops);
      }
    }
  }

  /** The closure does not depend on the order in which the catalog lists its foreign keys. */
  lemma {:induction false} ClosureCanonical(g: Graph, h: Graph, seeds: seq<string>, maxHops: nat)
    requires Closed(g) && Closed(h) && Reordered(g, h)
    ensures ClosureOf(g, seeds, maxHops) == ClosureOf(h, seeds, maxHops)
  {
    if |seeds| > 1 {
      var init, target := seeds[..|seeds| - 1], seeds[|seeds| - 1];
      ClosureCanonical(g, h, init, maxHops);
      SameSearch(g, h, [Start(target)], {target}, ClosureOf(g, init, maxHops).selected, maxHops);
    }
  }
}
