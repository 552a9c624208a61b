/** The foreign-key graph of a catalog and the greedy join closure over it. */
module FkGraph {
  import opened Prelude
  import opened Sql

  /** `child.c = parent.p AND ...`; the rendered text is taken to determine it. */
  datatype Join = Join(child: string, parent: string, columns: seq<(string, string)>)

  datatype Edge = Edge(to: string, join: Join)
  type Adjacency = map<string, seq<Edge>>

  predicate Connects(j: Join, u: string, v: string) {
    (j.child == u && j.parent == v) || (j.child == v && j.parent == u)
  }

  function Zip(a: seq<string>, b: seq<string>): seq<(string, string)>
    requires |a| == |b|
  {
    seq(|a|, i requires 0 <= i < |a| => (a[i], b[i]))
  }

  function JoinOf(child: string, fk: ForeignKey): Join
    requires |fk.fromColumns| == |fk.targetColumns|
  {
    Join(child, fk.targetTable, Zip(fk.fromColumns, fk.targetColumns))
  }

  function Append(adj: Adjacency, node: string, e: Edge): Adjacency {
    adj[node := (if node in adj then adj[node] else []) + [e]]
  }

  /** Adjacency lists only name known nodes, and every edge can be walked back. */
  ghost predicate Undirected(adj: Adjacency) {
    forall u: string, e: Edge | u in adj && e in adj[u] ::
      e.to in adj && Connects(e.join, u, e.to) && Edge(u, e.join) in adj[e.to]
  }

  /** `e` is an edge out of `u`. */
  predicate HasEdge(adj: Adjacency, u: string, e: Edge) { u in adj && e in adj[u] }

  lemma AppendBoth(adj: Adjacency, u: string, v: string, j: Join)
    requires Undirected(adj) && Connects(j, u, v)
    ensures Undirected(Append(Append(adj, u, Edge(v, j)), v, Edge(u, j)))
  {
    var a := Append(adj, u, Edge(v, j));
    var b := Append(a, v, Edge(u, j));
    forall x: string, e: Edge | x in b && e in b[x]
      ensures e.to in b && Connects(e.join, x, e.to) && Edge(x, e.join) in b[e.to]
    {
      if HasEdge(adj, x, e) { assert Edge(x, e.join) in adj[e.to]; }
    }
  }

  /** The edges of the graph, as foreign keys that give rise to them. */
  ghost predicate FromForeignKey(tables: seq<TableInfo>, u: string, e: Edge) {
    exists t, k | 0 <= t < |tables| && 0 <= k < |tables[t].foreignKeys| :: FkEdge(tables[t], tables[t].foreignKeys[k], u, e)
  }

  /** The edge joins a foreign key's columns with the columns it refers to, pair by pair. */
  predicate FkEdge(table: TableInfo, fk: ForeignKey, u: string, e: Edge) {
    && |fk.fromColumns| == |fk.targetColumns| == |e.join.columns|
    && e.join.child == table.name && e.join.parent == fk.targetTable
    && (forall i | 0 <= i < |e.join.columns| :: e.join.columns[i] == (fk.fromColumns[i], fk.targetColumns[i]))
    && ((u == table.name && e.to == fk.targetTable) || (u == fk.targetTable && e.to == table.name))
  }

  /** `zip(..., strict=True)` does not raise. */
  predicate ZipsStrictly(fk: ForeignKey) { |fk.fromColumns| == |fk.targetColumns| }

  predicate KeysZip(table: TableInfo, n: nat)
    requires n <= |table.foreignKeys|
  {
    forall k | 0 <= k < n :: ZipsStrictly(table.foreignKeys[k])
  }

  predicate TablesZip(tables: seq<TableInfo>, n: nat)
    requires n <= |tables|
  {
    forall t | 0 <= t < n :: KeysZip(tables[t], |tables[t].foreignKeys|)
  }

  predicate WellFormed(tables: seq<TableInfo>) { TablesZip(tables, |tables|) }

  function AddKey(adj: Adjacency, table: TableInfo, fk: ForeignKey): Adjacency
    requires ZipsStrictly(fk)
  {
    var j := JoinOf(table.name, fk);
    Append(Append(adj, table.name, Edge(fk.targetTable, j)), fk.targetTable, Edge(table.name, j))
  }

  function AddKeys(adj: Adjacency, table: TableInfo, n: nat): Adjacency
    requires n <= |table.foreignKeys| && KeysZip(table, n)
  {
    if n == 0 then adj else AddKey(AddKeys(adj, table, n - 1), table, table.foreignKeys[n - 1])
  }

  function NoEdges(tables: seq<TableInfo>): Adjacency { map i | 0 <= i < |tables| :: tables[i].name := [] }

  function AddTables(tables: seq<TableInfo>, n: nat): Adjacency
    requires n <= |tables| && TablesZip(tables, n)
  {
    if n == 0 then NoEdges(tables) else AddKeys(AddTables(tables, n - 1), tables[n - 1], |tables[n - 1].foreignKeys|)
  }

  /** The adjacency lists of the catalog's foreign keys, in both directions. */
  function AdjacencyOf(tables: seq<TableInfo>): Adjacency
    requires WellFormed(tables)
  {
    AddTables(tables, |tables|)
  }

  lemma NextKey(adj: Adjacency, table: TableInfo, k: nat)
    requires k < |table.foreignKeys| && KeysZip(table, k) && ZipsStrictly(table.foreignKeys[k])
    ensures KeysZip(table, k + 1) && AddKeys(adj, table, k + 1) == AddKey(AddKeys(adj, table, k), table, table.foreignKeys[k])
  {
  }

  lemma NextTable(tables: seq<TableInfo>, t: nat)
    requires t < |tables| && TablesZip(tables, t) && KeysZip(tables[t], |tables[t].foreignKeys|)
    ensures TablesZip(tables, t + 1)
    ensures AddTables(tables, t + 1) == AddKeys(AddTables(tables, t), tables[t], |tables[t].foreignKeys|)
  {
  }

  /** The two nested loops that fill the adjacency lists. */
  method BuildAdjacency(tables: seq<TableInfo>) returns (r: Result<Adjacency>)
    ensures r == if WellFormed(tables) then Ok(AdjacencyOf(tables)) else Err("zip() argument lengths differ")
  {
    var adj := NoEdges(tables);
    for t := 0 to |tables|
      invariant TablesZip(tables, t) && adj == AddTables(tables, t)
    {
      ghost var before := adj;
      for k := 0 to |tables[t].foreignKeys|
        invariant KeysZip(tables[t], k) && adj == AddKeys(before, tables[t], k)
      {
        if !ZipsStrictly(tables[t].foreignKeys[k]) {
          assert !KeysZip(tables[t], |tables[t].foreignKeys|);
          assert !WellFormed(tables);
          return Err("zip() argument lengths differ");
        }
        NextKey(before, tables[t], k);
        adj := AddKey(adj, tables[t], tables[t].foreignKeys[k]);
      }
      NextTable(tables, t);
    }
    return Ok(adj);
  }

  // ------------------------------------------------------------ the edges

  lemma {:induction false} AddKeysUndirected(adj: Adjacency, table: TableInfo, n: nat)
    requires n <= |table.foreignKeys| && KeysZip(table, n)
    requires Undirected(adj)
    ensures Undirected(AddKeys(adj, table, n))
  {
    if n > 0 {
      AddKeysUndirected(adj, table, n - 1);
      var fk := table.foreignKeys[n - 1];
      AppendBoth(AddKeys(adj, table, n - 1), table.name, fk.targetTable, JoinOf(table.name, fk));
    }
  }

  /** The edge comes from one of the first `n` keys of the table. */
  ghost predicate FromKeys(table: TableInfo, n: nat, u: string, e: Edge)
    requires n <= |table.foreignKeys|
  {
    exists i | 0 <= i < n :: FkEdge(table, table.foreignKeys[i], u, e)
  }

  lemma AddKeyEdge(adj: Adjacency, table: TableInfo, fk: ForeignKey, u: string, e: Edge)
    requires ZipsStrictly(fk)
    ensures HasEdge(AddKey(adj, table, fk), u, e) <==> HasEdge(adj, u, e) || FkEdge(table, fk, u, e)
  {
    var j := JoinOf(table.name, fk);
    if FkEdge(table, fk, u, e) { assert e.join.columns == j.columns; }
  }

  lemma {:induction false} AddKeysEdge(adj: Adjacency, table: TableInfo, n: nat, u: string, e: Edge)
    requires n <= |table.foreignKeys| && KeysZip(table, n)
    ensures HasEdge(AddKeys(adj, table, n), u, e) <==> HasEdge(adj, u, e) || FromKeys(table, n, u, e)
  {
    if n > 0 {
      AddKeysEdge(adj, table, n - 1, u, e);
      AddKeyEdge(AddKeys(adj, table, n - 1), table, table.foreignKeys[n - 1], u, e);
    }
  }

  lemma {:induction false} AddTablesUndirected(tables: seq<TableInfo>, n: nat)
    requires n <= |tables| && WellFormed(tables)
    ensures Undirected(AddTables(tables, n))
  {
    if n > 0 {
      AddTablesUndirected(tables, n - 1);
      AddKeysUndirected(AddTables(tables, n - 1), tables[n - 1], |tables[n - 1].foreignKeys|);
    }
  }

  lemma {:induction false} AddTablesEdge(tables: seq<TableInfo>, n: nat, u: string, e: Edge)
    requires n <= |tables| && WellFormed(tables)
    ensures HasEdge(AddTables(tables, n), u, e) <==> FromForeignKey(tables[..n], u, e)
  {
    if n > 0 {
      AddTablesEdge(tables, n - 1, u, e);
      AddTableEdge(tables, n - 1, u, e);
      FromNextTable(tables, n - 1, u, e);
    }
  }

  lemma AddTableEdge(tables: seq<TableInfo>, t: nat, u: string, e: Edge)
    requires t < |tables| && WellFormed(tables)
    ensures HasEdge(AddTables(tables, t + 1), u, e)
      <==> HasEdge(AddTables(tables, t), u, e) || FromKeys(tables[t], |tables[t].foreignKeys|, u, e)
  {
    AddKeysEdge(AddTables(tables, t), tables[t], |tables[t].foreignKeys|, u, e);
  }

  /** The graph is undirected and its edges are exactly the foreign keys. */
  lemma AdjacencyEdges(tables: seq<TableInfo>)
    requires WellFormed(tables)
    ensures Undirected(AdjacencyOf(tables))
    ensures forall u, e :: u in AdjacencyOf(tables) && e in AdjacencyOf(tables)[u] <==> FromForeignKey(tables, u, e)
  {
    AddTablesUndirected(tables, |tables|);
    assert tables[..|tables|] == tables;
    forall u, e ensures HasEdge(AdjacencyOf(tables), u, e) <==> FromForeignKey(tables, u, e) {
      AddTablesEdge(tables, |tables|, u, e);
    }
  }

  lemma FromNextTable(tables: seq<TableInfo>, t: nat, u: string, e: Edge)
    requires t < |tables|
    ensures FromForeignKey(tables[..t + 1], u, e) <==>
            FromForeignKey(tables[..t], u, e) || FromKeys(tables[t], |tables[t].foreignKeys|, u, e)
  {
    var s := tables[..t + 1];
    if FromForeignKey(s, u, e) {
      var a, k :| 0 <= a < |s| && 0 <= k < |s[a].foreignKeys| && FkEdge(s[a], s[a].foreignKeys[k], u, e);
      if a < t { assert tables[..t][a] == s[a]; }
    }
    if FromForeignKey(tables[..t], u, e) {
      var a, k :| 0 <= a < t && 0 <= k < |tables[..t][a].foreignKeys| && FkEdge(tables[..t][a], tables[..t][a].foreignKeys[k], u, e);
      assert s[a] == tables[..t][a];
    }
    if k :| 0 <= k < |tables[t].foreignKeys| && FkEdge(tables[t], tables[t].foreignKeys[k], u, e) {
      assert s[t] == tables[t];
    }
  }
}
