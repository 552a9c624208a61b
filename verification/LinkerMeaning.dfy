/** What the schema linker selects, read off the ranked documents. */
module LinkerMeaning {
  import opened Prelude
  import opened JoinForest
  import opened SchemaLinker

  /** Document `i` names table `x`: first its own, then those it relates. */
  predicate MentionAt(ranked: seq<Document>, i: nat, j: nat, x: string) {
    i < |ranked| && j <= |ranked[i].related| && x == if j == 0 then ranked[i].table else ranked[i].related[j - 1]
  }

  /** `x` is named before the `j`-th name of document `i`. */
  ghost predicate MentionedBefore(ranked: seq<Document>, i: nat, j: nat, x: string) {
    exists k: nat, l: nat :: (k < i || (k == i && l < j)) && MentionAt(ranked, k, l, x)
  }

  // --------------------------------------------------------------- the seeds

  /** `r` lists the distinct names in order of first occurrence. */
  ghost predicate FirstOccurrences(names: seq<string>, r: seq<string>) {
    && (forall x :: x in r <==> x in names)
    && (forall a, b | 0 <= a < b < |r| :: r[a] != r[b])
    && (forall a, b, p | 0 <= a < b < |r| && 0 <= p < |names| && names[p] == r[b] :: r[a] in names[..p])
  }

  lemma {:induction false} DistinctFirst(names: seq<string>, n: nat)
    requires n <= |names|
    ensures FirstOccurrences(names[..n], Distinct([], names[..n]))
  {
    if n > 0 {
      var m := n - 1;
      DistinctFirst(names, m);
      NextName([], names, m);
      assert names[..n] == names[..m] + [names[m]];
      OneMore(names[..m], Distinct([], names[..m]), names[m]);
    }
  }

  lemma OneMore(names: seq<string>, r: seq<string>, x: string)
    requires FirstOccurrences(names, r)
    ensures FirstOccurrences(names + [x], if x in r then r else r + [x])
  {
    var all, s := names + [x], if x in r then r else r + [x];
    forall a, b, p | 0 <= a < b < |s| && 0 <= p < |all| && all[p] == s[b] ensures s[a] in all[..p] {
      if p < |names| {
        assert all[p] in names;
        assert all[..p] == names[..p];
      } else {
        assert all[..p] == names;
        assert s[a] in r;
      }
    }
  }

  lemma {:induction false} MentionedHas(ranked: seq<Document>, n: nat, x: string)
    requires n <= |ranked|
    ensures x in Mentioned(ranked[..n]) <==> MentionedBefore(ranked, n, 0, x)
  {
    if n > 0 {
      MentionedHas(ranked, n - 1, x);
      MentionedNext(ranked, n - 1);
      NamesOf(ranked, n - 1, |ranked[n - 1].related| + 1, x);
    }
  }

  /** The first `j` names of document `i`. */
  lemma NamesOf(ranked: seq<Document>, i: nat, j: nat, x: string)
    requires i < |ranked| && j <= |ranked[i].related| + 1
    ensures x in TablesOf(ranked[i])[..j] <==> exists l: nat :: l < j && MentionAt(ranked, i, l, x)
  {
    var names := TablesOf(ranked[i]);
    if x in names[..j] {
      var l: nat :| l < j && names[l] == x;
      assert MentionAt(ranked, i, l, x);
    }
    forall l: nat | l < j && MentionAt(ranked, i, l, x) ensures x in names[..j] { assert names[..j][l] == x; }
    assert names[..|names|] == names;
  }

  /** A name of document `i` sits in the flat list behind the names before it. */
  lemma FlatPlace(ranked: seq<Document>, i: nat, j: nat, x: string)
    requires MentionAt(ranked, i, j, x)
    ensures var names, p := Mentioned(ranked), |Mentioned(ranked[..i])| + j;
      && p < |names| && names[p] == x
      && forall y | y in names[..p] :: MentionedBefore(ranked, i, j, y)
  {
    var before, here := Mentioned(ranked[..i]), TablesOf(ranked[i]);
    MentionedNext(ranked, i);
    MentionedSplit(ranked[..i + 1], ranked[i + 1..]);
    assert ranked == ranked[..i + 1] + ranked[i + 1..];
    var names, p := Mentioned(ranked), |before| + j;
    assert names == (before + here) + Mentioned(ranked[i + 1..]);
    assert names[..p] == before + here[..j];
    forall y | y in names[..p] ensures MentionedBefore(ranked, i, j, y) {
      MentionedHas(ranked, i, y);
      NamesOf(ranked, i, j, y);
      if y in before {
        var k: nat, l: nat :| k < i && MentionAt(ranked, k, l, y);
      } else {
        var l: nat :| l < j && MentionAt(ranked, i, l, y);
      }
    }
  }

  /** The seeds are distinct tables that the documents name, at most `maxTables`, each before
      those it precedes; a table that is left out is named after all of `maxTables` others. */
  lemma SeedsAreFirstNamed(ranked: seq<Document>, maxTables: nat)
    ensures var r := TableOrder(ranked, maxTables);
      && |r| <= maxTables && (forall a, b | 0 <= a < b < |r| :: r[a] != r[b])
      && (forall x | x in r :: MentionedBefore(ranked, |ranked|, 0, x))
      && (forall i: nat, j: nat, b: nat | b < |r| && MentionAt(ranked, i, j, r[b]) ::
            forall a | 0 <= a < b :: MentionedBefore(ranked, i, j, r[a]))
      && (forall i: nat, j: nat, x | MentionAt(ranked, i, j, x) && x !in r ::
            |r| == maxTables && forall a | 0 <= a < |r| :: MentionedBefore(ranked, i, j, r[a]))
  {
    var names := Mentioned(ranked);
    var full, r := Distinct([], names), TableOrder(ranked, maxTables);
    DistinctFirst(names, |names|);
    assert names[..|names|] == names && ranked[..|ranked|] == ranked;
    assert r <= full;
    forall x | x in r ensures MentionedBefore(ranked, |ranked|, 0, x) {
      assert x in full;
      MentionedHas(ranked, |ranked|, x);
    }
    forall i: nat, j: nat, b: nat, a: nat | a < b < |r| && MentionAt(ranked, i, j, r[b]) ensures MentionedBefore(ranked, i, j, r[a]) {
      FlatPlace(ranked, i, j, r[b]);
      EarlierIn(names, full, a, b, |Mentioned(ranked[..i])| + j);
    }
    forall i: nat, j: nat, x | MentionAt(ranked, i, j, x) && x !in r
      ensures |r| == maxTables && forall a | 0 <= a < |r| :: MentionedBefore(ranked, i, j, r[a])
    {
      FlatPlace(ranked, i, j, x);
      var p := |Mentioned(ranked[..i])| + j;
      assert x in full;
      var b :| 0 <= b < |full| && full[b] == x;
      assert b >= |r|;
      forall a | 0 <= a < |r| ensures MentionedBefore(ranked, i, j, r[a]) { EarlierIn(names, full, a, b, p); }
    }
  }

  lemma EarlierIn(names: seq<string>, r: seq<string>, a: nat, b: nat, p: nat)
    requires FirstOccurrences(names, r) && a < b < |r| && p < |names| && names[p] == r[b]
    ensures r[a] in names[..p]
  {
  }

  // -------------------------------------------------- the columns and the evidence

  /** A column is selected when a document of a selected table is about it, or a join of the
      closure needs it. */
  lemma ColumnsExactly(ranked: seq<Document>, c: Closure, table: string, column: string)
    ensures (table, column) in SelectedColumns(ranked, c) <==>
      || (table in c.selected && exists d :: d in ranked && d.table == table && d.column == Some(column))
      || exists j, i :: j in c.joins && 0 <= i < |j.columns|
           && ((table, column) == (j.child, j.columns[i].0) || (table, column) == (j.parent, j.columns[i].1))
  {
    if table in c.selected && exists d :: d in ranked && d.table == table && d.column == Some(column) {
      var i :| 0 <= i < |ranked| && ranked[i].table == table && ranked[i].column == Some(column);
    }
    forall j, i | j in c.joins && 0 <= i < |j.columns|
      && ((table, column) == (j.child, j.columns[i].0) || (table, column) == (j.parent, j.columns[i].1))
      ensures (table, column) in SelectedColumns(ranked, c)
    {
      assert (table, column) in JoinColumns(j);
    }
    if (table, column) in SelectedColumns(ranked, c) { ColumnHasReason(ranked, c, table, column); }
  }

  lemma ColumnHasReason(ranked: seq<Document>, c: Closure, table: string, column: string)
    requires (table, column) in SelectedColumns(ranked, c)
    ensures || (table in c.selected && exists d :: d in ranked && d.table == table && d.column == Some(column))
            || exists j, i :: j in c.joins && 0 <= i < |j.columns|
                 && ((table, column) == (j.child, j.columns[i].0) || (table, column) == (j.parent, j.columns[i].1))
  {
    if i :| 0 <= i < |ranked| && ranked[i].table in c.selected && ranked[i].column.Some? && (table, column) == (ranked[i].table, ranked[i].column.value) {
      assert ranked[i] in ranked;
    } else {
      var j :| j in c.joins && (table, column) in JoinColumns(j);
      var i :| 0 <= i < |j.columns| && ((table, column) == (j.child, j.columns[i].0) || (table, column) == (j.parent, j.columns[i].1));
    }
  }

  /** The evidence is the documents of selected tables, all of them, in ranked order: one
      document more adds its identifier at the end just when its table is selected. */
  lemma {:induction false} EvidenceNext(a: seq<Document>, d: Document, tables: set<string>)
    ensures Evidence(a + [d], tables) == Evidence(a, tables) + (if d.table in tables then [d.id] else [])
  {
    if a == [] {
      assert a + [d] == [d] && [d][1..] == [];
    } else {
      assert (a + [d])[1..] == a[1..] + [d] && (a + [d])[0] == a[0];
      EvidenceNext(a[1..], d, tables);
    }
  }
}
