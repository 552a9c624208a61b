/** The bounded breadth-first search and the greedy join closure. */
module JoinClosure {
  import opened Prelude
  import opened Orders
  import opened Sorting
  import opened FkGraph

  /** A queue entry: a node, the path from the seed to it, the joins of that path. */
  datatype Visit = Visit(node: string, path: seq<string>, joins: seq<Join>)

  /** A graph and the text order in which neighbours are tried. */
  datatype Graph = Graph(adj: Adjacency, text: Edge -> string)

  ghost predicate Closed(g: Graph) { Undirected(g.adj) }

  /** `sorted(adjacency.get(node, []))`. */
  function Neighbours(g: Graph, node: string): (es: seq<Edge>)
    ensures forall e :: e in es <==> HasEdge(g.adj, node, e)
  {
    if node in g.adj then
      SortSorted(g.adj[node], g.text);
      SameSize(Sort(g.adj[node], g.text), g.adj[node]);
      SameSize(g.adj[node], Sort(g.adj[node], g.text));
      Sort(g.adj[node], g.text)
    else []
  }

  /** The queue entries for the neighbours not yet visited. */
  function Expand(es: seq<Edge>, from: Visit, visited: set<string>): seq<Visit> {
    if es == [] then []
    else if es[0].to in visited then Expand(es[1..], from, visited)
    else
      [Visit(es[0].to, from.path + [es[0].to], from.joins + [es[0].join])] + Expand(es[1..], from, visited + {es[0].to})
  }

  function Nodes(queue: seq<Visit>): set<string> { set x | x in queue :: x.node }

  lemma NodesCons(x: Visit, tail: seq<Visit>)
    ensures Nodes([x] + tail) == {x.node} + Nodes(tail)
  {
  }

  ghost predicate Reaches(es: seq<Edge>, n: string) { exists e :: e in es && e.to == n }

  lemma {:induction false} ExpandNodes(es: seq<Edge>, from: Visit, visited: set<string>)
    ensures forall n :: n in Nodes(Expand(es, from, visited)) <==> n !in visited && Reaches(es, n)
  {
    if es != [] {
      var e0 := es[0];
      assert forall e :: e in es <==> e == e0 || e in es[1..];
      assert forall n :: Reaches(es, n) <==> e0.to == n || Reaches(es[1..], n);
      if e0.to in visited {
        ExpandNodes(es[1..], from, visited);
      } else {
        ExpandNodes(es[1..], from, visited + {e0.to});
        NodesCons(Visit(e0.to, from.path + [e0.to], from.joins + [e0.join]), Expand(es[1..], from, visited + {e0.to}));
      }
    }
  }

  /** `x` extends `from` by the edge `e`. */
  predicate Extends(x: Visit, from: Visit, e: Edge) { x == Visit(e.to, from.path + [e.to], from.joins + [e.join]) }

  lemma {:induction false} ExpandFrom(es: seq<Edge>, from: Visit, visited: set<string>)
    ensures forall x | x in Expand(es, from, visited) :: x.node !in visited && exists e :: e in es && Extends(x, from, e)
  {
    if es != [] {
      assert es[0] in es && forall e | e in es[1..] :: e in es;
      if es[0].to in visited {
        ExpandFrom(es[1..], from, visited);
      } else {
        ExpandFrom(es[1..], from, visited + {es[0].to});
        assert Extends(Expand(es, from, visited)[0], from, es[0]);
      }
    }
  }

  /** One breadth-first search, from the head of the queue on. */
  function Search(g: Graph, queue: seq<Visit>, visited: set<string>, selected: set<string>, maxHops: nat): Option<Visit>
    requires Closed(g)
    decreases |g.adj.Keys - visited|, |queue|
  {
    if queue == [] then None
    else
      var x := queue[0];
      if |x.path| > maxHops + 1 then Search(g, queue[1..], visited, selected, maxHops)
      else if x.node in selected then Some(x)
      else
        var added := Expand(Neighbours(g, x.node), x, visited);
        AddedShrinks(g, x, visited);
        Search(g, queue[1..] + added, visited + Nodes(added), selected, maxHops)
  }

  /** Either nothing is added, or fewer nodes are left to visit. */
  lemma AddedShrinks(g: Graph, x: Visit, visited: set<string>)
    requires Closed(g)
    ensures var added := Expand(Neighbours(g, x.node), x, visited);
            if added == [] then visited + Nodes(added) == visited
            else |g.adj.Keys - (visited + Nodes(added))| < |g.adj.Keys - visited|
  {
    var added := Expand(Neighbours(g, x.node), x, visited);
    if added == [] {
      assert Nodes(added) == {};
    } else {
      var n := added[0].node;
      assert added[0] in added && n in Nodes(added);
      AddedKnown(g, x, visited, n);
      SmallerSet(g.adj.Keys - (visited + Nodes(added)), g.adj.Keys - visited, n);
    }
  }

  lemma AddedKnown(g: Graph, x: Visit, visited: set<string>, n: string)
    requires Closed(g) && n in Nodes(Expand(Neighbours(g, x.node), x, visited))
    ensures n in g.adj.Keys - visited
  {
    ExpandNodes(Neighbours(g, x.node), x, visited);
    var e :| e in Neighbours(g, x.node) && e.to == n;
    assert HasEdge(g.adj, x.node, e);
  }

  lemma SmallerSet<T>(a: set<T>, b: set<T>, x: T)
    requires a <= b && x in b && x !in a
    ensures |a| < |b|
  {
    var c := b - a;
    assert b == a + c && x in c;
  }

  function Start(target: string): Visit { Visit(target, [target], []) }

  /** The search for the nearest selected table. */
  function FindPath(g: Graph, target: string, selected: set<string>, maxHops: nat): Option<Visit>
    requires Closed(g)
  {
    Search(g, [Start(target)], {target}, selected, maxHops)
  }

  /** The inner loop: every unvisited neighbour is marked and queued. */
  method Enqueue(edges: seq<Edge>, x: Visit, queue: seq<Visit>, visited: set<string>)
    returns (queue': seq<Visit>, visited': set<string>)
    ensures queue' == queue + Expand(edges, x, visited)
    ensures visited' == visited + Nodes(Expand(edges, x, visited))
  {
    queue', visited' := queue, visited;
    for i := 0 to |edges|
      invariant queue' + Expand(edges[i..], x, visited') == queue + Expand(edges, x, visited)
      invariant visited' + Nodes(Expand(edges[i..], x, visited')) == visited + Nodes(Expand(edges, x, visited))
    {
      var e := edges[i];
      assert edges[i..][1..] == edges[i + 1..];
      if e.to !in visited' {
        var y := Visit(e.to, x.path + [e.to], x.joins + [e.join]);
        ghost var tail := Expand(edges[i + 1..], x, visited' + {e.to});
        assert Expand(edges[i..], x, visited') == [y] + tail;
        NodesCons(y, tail);
        assert queue' + ([y] + tail) == (queue' + [y]) + tail;
        visited' := visited' + {e.to};
        queue' := queue' + [y];
      }
    }
    assert edges[|edges|..] == [] && Nodes([]) == {};
  }

  /** The same search as the loop over a queue. */
  method FindPathLoop(g: Graph, target: string, selected: set<string>, maxHops: nat) returns (found: Option<Visit>)
    requires Closed(g)
    ensures found == FindPath(g, target, selected, maxHops)
  {
    var queue := [Start(target)];
    var visited := {target};
    while queue != []
      invariant Search(g, queue, visited, selected, maxHops) == FindPath(g, target, selected, maxHops)
      decreases |g.adj.Keys - visited|, |queue|
    {
      var x := queue[0];
      if |x.path| - 1 > maxHops {
        queue := queue[1..];
        continue;
      }
      if x.node in selected {
        return Some(x);
      }
      AddedShrinks(g, x, visited);
      queue, visited := Enqueue(Neighbours(g, x.node), x, queue[1..], visited);
    }
    return None;
  }

  // ------------------------------------------------------------ shortest paths

  /** A walk along foreign keys. */
  ghost predicate IsWalk(g: Graph, q: seq<string>) {
    && q != []
    && forall i | 0 <= i < |q| - 1 :: Adjacent(g, q[i], q[i + 1])
  }

  ghost predicate Adjacent(g: Graph, u: string, v: string) { exists e :: HasEdge(g.adj, u, e) && e.to == v }

  /** A walk from `target` that ends in a selected table. */
  ghost predicate Attaches(g: Graph, target: string, selected: set<string>, q: seq<string>) {
    IsWalk(g, q) && q[0] == target && q[|q| - 1] in selected
  }

  /** A path from `target` with its joins, all of it but the end unselected. */
  ghost predicate IsPath(g: Graph, target: string, selected: set<string>, x: Visit) {
    && x.path != [] && x.path[0] == target && x.path[|x.path| - 1] == x.node && |x.joins| == |x.path| - 1
    && (forall i | 0 <= i < |x.joins| :: HasEdge(g.adj, x.path[i], Edge(x.path[i + 1], x.joins[i])))
    && (forall i, j | 0 <= i < j < |x.path| :: x.path[i] != x.path[j])
    && (forall i | 0 <= i < |x.path| - 1 :: x.path[i] !in selected)
  }

  /** The state of a search: the hop distance of every visited node, and which
      nodes have been expanded. */
  datatype Progress = Progress(visited: set<string>, level: map<string, nat>, done: set<string>)

  ghost predicate LevelsKnown(g: Graph, target: string, selected: set<string>, maxHops: nat, s: Progress) {
    && s.level.Keys == s.visited && target in s.visited && s.level[target] == 0
    && forall v | v in s.done :: v in s.visited && v !in selected
         && forall e | HasEdge(g.adj, v, e) :: e.to in s.visited && s.level[e.to] <= s.level[v] + 1
  }

  ghost predicate QueueKnown(g: Graph, target: string, selected: set<string>, queue: seq<Visit>, s: Progress) {
    && s.level.Keys == s.visited
    && (forall x | x in queue :: EntryKnown(g, target, selected, x, s))
    && (forall v, x | v in s.visited && x in queue :: s.level[v] <= |x.path|)
    && forall i, j | 0 <= i < j < |queue| :: |queue[i].path| <= |queue[j].path|
  }

  /** Every visited node is expanded, waiting, or too far away. */
  ghost predicate Covered(queue: seq<Visit>, maxHops: nat, s: Progress) {
    s.level.Keys == s.visited && forall v | v in s.visited :: v in s.done || v in Nodes(queue) || s.level[v] > maxHops
  }

  ghost predicate Sound(g: Graph, target: string, selected: set<string>, maxHops: nat, queue: seq<Visit>, s: Progress) {
    LevelsKnown(g, target, selected, maxHops, s) && QueueKnown(g, target, selected, queue, s) && Covered(queue, maxHops, s)
  }

  /** When every visited node nearer than `d` has been expanded, a walk of at most
      `d` hops stays among the visited nodes, at most as far away as it is long. */
  lemma {:induction false} WalkLevels(g: Graph, target: string, selected: set<string>, maxHops: nat, s: Progress, d: nat, q: seq<string>, i: nat)
    requires LevelsKnown(g, target, selected, maxHops, s) && IsWalk(g, q) && q[0] == target && i < |q| && i <= d
    requires forall v | v in s.visited && s.level[v] < d :: v in s.done
    ensures q[i] in s.visited && s.level[q[i]] <= i
  {
    if i > 0 {
      WalkLevels(g, target, selected, maxHops, s, d, q, i - 1);
      assert Adjacent(g, q[i - 1], q[i - 1 + 1]);
    }
  }

  /** The search has not missed a nearer selected node. */
  lemma NoNearer(g: Graph, target: string, selected: set<string>, maxHops: nat, queue: seq<Visit>, s: Progress, d: nat, q: seq<string>)
    requires Sound(g, target, selected, maxHops, queue, s) && d <= maxHops + 1
    requires forall x | x in queue :: |x.path| >= d + 1
    requires Attaches(g, target, selected, q)
    ensures |q| >= d + 1
  {
    forall v | v in s.visited && s.level[v] < d ensures v in s.done {
      assert forall x | x in queue :: x.node != v;
    }
    if |q| <= d { WalkLevels(g, target, selected, maxHops, s, d, q, |q| - 1); }
  }

  ghost function AfterExpand(x: Visit, added: seq<Visit>, s: Progress): Progress
    requires x.node in s.visited && s.level.Keys == s.visited
  {
    Progress(s.visited + Nodes(added),
             map n | n in s.visited + Nodes(added) :: if n in s.visited then s.level[n] else s.level[x.node] + 1,
             s.done + {x.node})
  }

  lemma SkipSound(g: Graph, target: string, selected: set<string>, maxHops: nat, queue: seq<Visit>, s: Progress)
    requires Sound(g, target, selected, maxHops, queue, s) && queue != [] && |queue[0].path| > maxHops + 1
    ensures Sound(g, target, selected, maxHops, queue[1..], s)
  {
    assert queue[0] in queue;
    forall v | v in s.visited ensures v in s.done || v in Nodes(queue[1..]) || s.level[v] > maxHops {
      if v in Nodes(queue) {
        var x :| x in queue && x.node == v;
        if x != queue[0] { assert x in queue[1..]; }
      }
    }
  }

  lemma ExtendedPath(g: Graph, target: string, selected: set<string>, x: Visit, y: Visit, e: Edge, visited: set<string>)
    requires IsPath(g, target, selected, x) && x.node !in selected && Extends(y, x, e) && HasEdge(g.adj, x.node, e)
    requires e.to !in visited && forall n | n in x.path :: n in visited
    ensures IsPath(g, target, selected, y)
  {
    forall i | 0 <= i < |x.path| ensures y.path[i] == x.path[i] && x.path[i] != e.to { assert x.path[i] in x.path; }
  }

  lemma LevelsGrow(g: Graph, target: string, selected: set<string>, maxHops: nat, x: Visit, added: seq<Visit>, s: Progress)
    requires LevelsKnown(g, target, selected, maxHops, s) && x.node in s.visited && x.node !in selected
    requires forall v | v in s.visited :: s.level[v] <= s.level[x.node] + 1
    requires added == Expand(Neighbours(g, x.node), x, s.visited)
    ensures LevelsKnown(g, target, selected, maxHops, AfterExpand(x, added, s))
  {
    var t := AfterExpand(x, added, s);
    ExpandNodes(Neighbours(g, x.node), x, s.visited);
    forall v, e | v in t.done && HasEdge(g.adj, v, e) ensures e.to in t.visited && t.level[e.to] <= t.level[v] + 1 {
      if v == x.node && v !in s.done {
        assert e in Neighbours(g, x.node);
        assert Reaches(Neighbours(g, x.node), e.to);
      }
    }
  }

  lemma CoverGrows(maxHops: nat, queue: seq<Visit>, added: seq<Visit>, s: Progress)
    requires Covered(queue, maxHops, s) && queue != [] && queue[0].node in s.visited
    ensures Covered(queue[1..] + added, maxHops, AfterExpand(queue[0], added, s))
  {
    var x := queue[0];
    var t := AfterExpand(x, added, s);
    forall v | v in t.visited ensures v in t.done || v in Nodes(queue[1..] + added) || t.level[v] > maxHops {
      if v !in s.visited {
        var y :| y in added && y.node == v;
        assert y in queue[1..] + added;
      } else if v in Nodes(queue) {
        var y :| y in queue && y.node == v;
        if y != x { assert y in queue[1..] + added; }
      }
    }
  }

  lemma ExpandSound(g: Graph, target: string, selected: set<string>, maxHops: nat, queue: seq<Visit>, added: seq<Visit>, s: Progress)
    requires Sound(g, target, selected, maxHops, queue, s) && queue != [] && queue[0] in queue
    requires queue[0].node !in selected && added == Expand(Neighbours(g, queue[0].node), queue[0], s.visited)
    ensures Sound(g, target, selected, maxHops, queue[1..] + added, AfterExpand(queue[0], added, s))
  {
    LevelsGrow(g, target, selected, maxHops, queue[0], added, s);
    QueueGrows(g, target, selected, queue, added, s);
    CoverGrows(maxHops, queue, added, s);
  }

  /** A queue entry agrees with what is known about its node. */
  ghost predicate EntryKnown(g: Graph, target: string, selected: set<string>, x: Visit, s: Progress) {
    && s.level.Keys == s.visited
    && x.node in s.visited && |x.path| == s.level[x.node] + 1
    && IsPath(g, target, selected, x) && forall n | n in x.path :: n in s.visited
  }

  lemma AddedEntry(g: Graph, target: string, selected: set<string>, x: Visit, added: seq<Visit>, s: Progress, y: Visit)
    requires EntryKnown(g, target, selected, x, s) && x.node !in selected
    requires added == Expand(Neighbours(g, x.node), x, s.visited) && y in added
    ensures EntryKnown(g, target, selected, y, AfterExpand(x, added, s)) && |y.path| == |x.path| + 1
  {
    ExpandFrom(Neighbours(g, x.node), x, s.visited);
    var e :| e in Neighbours(g, x.node) && Extends(y, x, e);
    ExtendedPath(g, target, selected, x, y, e, s.visited);
    assert y.node in Nodes(added);
  }

  lemma KeptEntry(g: Graph, target: string, selected: set<string>, x: Visit, added: seq<Visit>, s: Progress, y: Visit)
    requires EntryKnown(g, target, selected, y, s) && x.node in s.visited
    ensures EntryKnown(g, target, selected, y, AfterExpand(x, added, s))
  {
  }

  lemma QueueGrows(g: Graph, target: string, selected: set<string>, queue: seq<Visit>, added: seq<Visit>, s: Progress)
    requires QueueKnown(g, target, selected, queue, s) && queue != [] && queue[0] in queue && queue[0].node !in selected
    requires added == Expand(Neighbours(g, queue[0].node), queue[0], s.visited)
    ensures QueueKnown(g, target, selected, queue[1..] + added, AfterExpand(queue[0], added, s))
  {
    var x := queue[0];
    var t := AfterExpand(x, added, s);
    var next := queue[1..] + added;
    forall k | 0 <= k < |next|
      ensures EntryKnown(g, target, selected, next[k], t)
      ensures |next[k].path| >= |x.path| && (k >= |queue| - 1 ==> |next[k].path| == |x.path| + 1)
    {
      if k < |queue| - 1 {
        assert next[k] == queue[k + 1] && queue[k + 1] in queue;
        KeptEntry(g, target, selected, x, added, s, next[k]);
      } else {
        assert next[k] in added;
        AddedEntry(g, target, selected, x, added, s, next[k]);
      }
    }
    forall k, v | 0 <= k < |next| && v in t.visited ensures t.level[v] <= |next[k].path| {
      if k < |queue| - 1 { assert next[k] == queue[k + 1] && queue[k + 1] in queue; }
    }
    forall i, j | 0 <= i < j < |next| ensures |next[i].path| <= |next[j].path| {
      if i < |queue| - 1 {
        assert next[i] == queue[i + 1] && queue[i + 1] in queue;
        if j < |queue| - 1 { assert next[j] == queue[j + 1]; }
        else { assert |queue[i + 1].path| <= |x.path| + 1; }
      }
    }
  }

  /** What a search returns from a sound state. */
  ghost predicate Nearest(g: Graph, target: string, selected: set<string>, maxHops: nat, r: Option<Visit>) {
    match r
    case Some(x) =>
      && IsPath(g, target, selected, x) && x.node in selected && |x.path| - 1 <= maxHops
      && forall q | Attaches(g, target, selected, q) :: |q| >= |x.path|
    case None => forall q | Attaches(g, target, selected, q) :: |q| - 1 > maxHops
  }

  lemma {:induction false} SearchNearest(g: Graph, target: string, selected: set<string>, maxHops: nat, queue: seq<Visit>, s: Progress)
    requires Closed(g) && Sound(g, target, selected, maxHops, queue, s)
    ensures Nearest(g, target, selected, maxHops, Search(g, queue, s.visited, selected, maxHops))
    decreases |g.adj.Keys - s.visited|, |queue|
  {
    if queue == [] {
      forall q | Attaches(g, target, selected, q) ensures |q| - 1 > maxHops {
        NoNearer(g, target, selected, maxHops, queue, s, maxHops + 1, q);
      }
    } else {
      var x := queue[0];
      assert x in queue;
      if |x.path| > maxHops + 1 {
        SkipSound(g, target, selected, maxHops, queue, s);
        SearchNearest(g, target, selected, maxHops, queue[1..], s);
      } else if x.node in selected {
        forall q | Attaches(g, target, selected, q) ensures |q| >= |x.path| {
          assert forall y | y in queue :: |y.path| >= |x.path|;
          NoNearer(g, target, selected, maxHops, queue, s, |x.path| - 1, q);
        }
      } else {
        var added := Expand(Neighbours(g, x.node), x, s.visited);
        AddedShrinks(g, x, s.visited);
        ExpandSound(g, target, selected, maxHops, queue, added, s);
        SearchNearest(g, target, selected, maxHops, queue[1..] + added, AfterExpand(x, added, s));
      }
    }
  }

  /** A new seed is attached by a shortest foreign-key path to the selected tables
      within the hop bound; when none is found, none is within the bound. */
  lemma FindPathNearest(g: Graph, target: string, selected: set<string>, maxHops: nat)
    requires Closed(g)
    ensures Nearest(g, target, selected, maxHops, FindPath(g, target, selected, maxHops))
  {
    var s := Progress({target}, map[target := 0], {});
    assert Nodes([Start(target)]) == {target} by { NodesCons(Start(target), []); assert [Start(target)] == [Start(target)] + []; }
    assert Sound(g, target, selected, maxHops, [Start(target)], s);
    SearchNearest(g, target, selected, maxHops, [Start(target)], s);
  }
}
