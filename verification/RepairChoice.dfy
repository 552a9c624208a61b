/** When a ranking repair is planned, read off the question, the catalog and the draft. */
module RepairChoice {
  import opened Prelude
  import opened Sql
  import opened OutputContract
  import opened ProjectionChoice
  import opened RankBinding
  import opened ClauseCritic
  import opened RepairContract

  /** A ranking question: a rank phrase with one direction, no negation, no tie, at most 200 rows. */
  predicate AsksRanking(question: Question) {
    && question.rank.Some? && !question.ambiguous && question.rank.value.count <= 200
    && (question.directions == [] ==> question.rank.value.Vietnamese?)
    && forall i | 0 <= i < |question.directions| :: question.directions[i] == question.directions[0]
  }

  /** One source and nothing but WHERE, ORDER BY and LIMIT. */
  predicate OneSource(q: Select) {
    |q.sources| == 1 && !q.nested && !FindsAgg(q) && q.group == [] && q.having == None && q.offset == None && !q.distinct
  }

  /** The direction the draft is held to: the Vietnamese word, or else the first English one. */
  predicate WrongWay(question: Question, desc: bool)
    requires AsksRanking(question)
  {
    desc != if question.rank.value.Vietnamese? then question.rank.value.high else question.directions[0]
  }

  /** A ranking question about the one source, whose metric is the one column it names, and a
      draft that lacks the order, or sorts by that column the wrong way, or keeps another
      number of rows. */
  ghost predicate RepairWarranted(question: Question, words: string -> set<string>, q: Select, cat: Catalog, metric: Owned) {
    && AsksRanking(question) && OneSource(q)
    && OnlyMetric(cat.tables, question.words, words, metric) && metric.0 == q.sources[0].table
    && (q.order != [] ==> SortsBy(q, cat.tables, metric))
    && (q.order == [] || WrongWay(question, q.order[0].desc) || q.limit != Some(IntLit(question.rank.value.count)))
  }

  /** What the critic finds in a draft it can judge. */
  lemma FoundInScope(question: Question, words: string -> set<string>, q: Select, cat: Catalog, metric: Owned)
    requires AsksRanking(question) && OneSource(q) && BindMetric(cat.tables, question.words, words) == Some(metric)
    requires q.order != [] ==> OrderMatches(q, Some(metric), cat.tables)
    ensures Contradictions(Assessment(question, words, q, cat)) ==
      (if q.order == [] then {RankOrderMissing} else if WrongWay(question, q.order[0].desc) then {RankDirection} else {})
      + (if q.limit == Some(IntLit(question.rank.value.count)) then {} else {RankLimit})
  {
    CodesOpen();
    CodesOf(question, words, q, cat, Contradiction);
    assert InScope(question, q);
    OrderCodes(question, q, Some(metric), cat.tables, Contradiction);
    LimitCodes(question, q, Contradiction);
  }

  /** A repair is planned exactly when it is warranted, for that metric. */
  lemma PlansExactly(question: Question, words: string -> set<string>, q: Select, cat: Catalog, metric: Owned)
    ensures ContractOf(question, words, q, cat).Some? && ContractOf(question, words, q, cat).value.metric == metric
      <==> RepairWarranted(question, words, q, cat, metric)
  {
    MetricIsOnly(cat.tables, question.words, words, metric);
    MatchesExactly(q, cat.tables, metric);
    if ContractOf(question, words, q, cat).Some? && ContractOf(question, words, q, cat).value.metric == metric {
      FoundBefore(question, words, q, cat);
      FoundInScope(question, words, q, cat, metric);
    }
    if RepairWarranted(question, words, q, cat, metric) { FoundInScope(question, words, q, cat, metric); }
  }

  /** The direction a touched order is given: the first English word, or else the Vietnamese one. */
  predicate Descending(question: Question)
    requires AsksRanking(question)
  {
    if question.directions != [] then question.directions[0] else question.rank.value.high
  }

  /** The planned statement is the draft with the asked limit and, where it had no order, one by
      the metric, or where it went the wrong way, its first key turned; the other keys stay. */
  lemma PlannedIs(question: Question, words: string -> set<string>, q: Select, cat: Catalog, metric: Owned)
    requires RepairWarranted(question, words, q, cat, metric)
    ensures ContractOf(question, words, q, cat).Some? && ContractOf(question, words, q, cat).value.metric == metric
    ensures var r, d := ContractOf(question, words, q, cat).value.planned, Descending(question);
      && r == q.(order := r.order, limit := Some(IntLit(question.rank.value.count)))
      && (q.order == [] ==> r.order == [Ordered(Column(q.sources[0].Name(), metric.1), d, !d)])
      && (q.order != [] ==>
            && |r.order| == |q.order| && r.order[1..] == q.order[1..]
            && r.order[0] == if WrongWay(question, q.order[0].desc) then Ordered(q.order[0].key, d, !d) else q.order[0])
  {
    PlansExactly(question, words, q, cat, metric);
    MetricIsOnly(cat.tables, question.words, words, metric);
    MatchesExactly(q, cat.tables, metric);
    FoundInScope(question, words, q, cat, metric);
    var codes := Contradictions(Assessment(question, words, q, cat));
    assert RankDirection in codes <==> q.order != [] && WrongWay(question, q.order[0].desc);
    assert RankLimit in codes <==> q.limit != Some(IntLit(question.rank.value.count));
    OrderIs(question, q, metric, codes, cat.tables);
  }

  lemma OrderIs(question: Question, q: Select, metric: Owned, codes: set<Code>, tables: seq<TableInfo>)
    requires AsksRanking(question) && |q.sources| == 1 && PlannedOrder(question, q, metric, codes, tables).Some?
    ensures var order, d := PlannedOrder(question, q, metric, codes, tables).value, Descending(question);
      && (q.order == [] ==> order == [Ordered(Column(q.sources[0].Name(), metric.1), d, !d)])
      && (q.order != [] ==>
            && |order| == |q.order| && order[1..] == q.order[1..]
            && order[0] == if RankDirection in codes then Ordered(q.order[0].key, d, !d) else q.order[0])
  {
  }

  // ------------------------------------------------------- what ORDER BY reads

  /** Source `i` alone has a column `n`. */
  predicate OnlySource(sources: seq<Source>, tables: seq<TableInfo>, n: string, i: nat) {
    i < |sources| && forall j | 0 <= j < |sources| :: n in ColumnsOf(tables, sources[j].table) <==> j == i
  }

  /** The column expression is certain to read `owned`: by the name of a source, or because
      one source alone has such a column. */
  ghost predicate Certain(e: Expr, q: Select, tables: seq<TableInfo>, owned: Owned) {
    && e.Column? && e.name == owned.1
    && if e.table != "" then exists i: nat :: Listed(q, i) && q.sources[i].Name() == e.table && q.sources[i].table == owned.0
       else exists i: nat :: OnlySource(q.sources, tables, e.name, i) && q.sources[i].table == owned.0
  }

  predicate OnlyAlias(items: seq<Item>, alias: string, k: nat) {
    k < |items| && forall l | 0 <= l < |items| :: items[l].alias == alias <==> l == k
  }

  /** The first sort key is the metric, or the one output alias of it. */
  ghost predicate SortsBy(q: Select, tables: seq<TableInfo>, metric: Owned) {
    && q.order != [] && q.order[0].key.Column?
    && var key := q.order[0].key;
       if key.table == "" && key.name != "" && exists k :: 0 <= k < |q.items| && q.items[k].alias == key.name
       then exists k: nat :: OnlyAlias(q.items, key.name, k) && Certain(q.items[k].value, q, tables, metric)
       else Certain(key, q, tables, metric)
  }

  lemma {:induction false} NoOwningTable(sources: seq<Source>, tables: seq<TableInfo>, n: string)
    ensures OwningTables(sources, tables, n) == [] <==> forall j | 0 <= j < |sources| :: n !in ColumnsOf(tables, sources[j].table)
  {
    if sources != [] {
      NoOwningTable(sources[1..], tables, n);
      assert forall j | 0 <= j < |sources| - 1 :: sources[1..][j] == sources[j + 1];
    }
  }

  lemma {:induction false} OneOwningTable(sources: seq<Source>, tables: seq<TableInfo>, n: string) returns (i: nat)
    requires |OwningTables(sources, tables, n)| == 1
    ensures OnlySource(sources, tables, n, i) && OwningTables(sources, tables, n) == [sources[i].table]
  {
    var rest := OwningTables(sources[1..], tables, n);
    assert forall j | 0 <= j < |sources| - 1 :: sources[1..][j] == sources[j + 1];
    if n in ColumnsOf(tables, sources[0].table) {
      i := 0;
      assert |rest| == 0;
      NoOwningTable(sources[1..], tables, n);
    } else {
      assert [] + rest == rest;
      i := OneOwningTable(sources[1..], tables, n);
      i := i + 1;
    }
  }

  lemma {:induction false} OwningTableAt(sources: seq<Source>, tables: seq<TableInfo>, n: string, i: nat)
    requires OnlySource(sources, tables, n, i)
    ensures OwningTables(sources, tables, n) == [sources[i].table]
  {
    assert forall j | 0 <= j < |sources| - 1 :: sources[1..][j] == sources[j + 1];
    if i == 0 { NoOwningTable(sources[1..], tables, n); }
    else {
      OwningTableAt(sources[1..], tables, n, i - 1);
      assert [] + [sources[i].table] == [sources[i].table];
    }
  }

  lemma OwnerCertain(e: Expr, q: Select, tables: seq<TableInfo>, owned: Owned)
    requires e.Column?
    ensures OwnerOf(e, q, tables) == Some(owned) <==> Certain(e, q, tables, owned)
  {
    if e.table != "" {
      if e.table in AliasMap(q.sources) {
        var i := ListedSources(q.sources, e.table);
        assert Listed(q, i);
      }
      forall i: nat | Listed(q, i) && q.sources[i].Name() == e.table
        ensures e.table in AliasMap(q.sources) && AliasMap(q.sources)[e.table] == q.sources[i].table
      {
        AliasHasSource(q.sources, i);
      }
    } else {
      if |OwningTables(q.sources, tables, e.name)| == 1 { var i := OneOwningTable(q.sources, tables, e.name); }
      forall i: nat | OnlySource(q.sources, tables, e.name, i) ensures OwningTables(q.sources, tables, e.name) == [q.sources[i].table] {
        OwningTableAt(q.sources, tables, e.name, i);
      }
    }
  }

  lemma {:induction false} NoProjection(items: seq<Item>, alias: string)
    ensures Projections(items, alias) == [] <==> alias == "" || forall l | 0 <= l < |items| :: items[l].alias != alias
  {
    if items != [] {
      NoProjection(items[1..], alias);
      assert forall l | 0 <= l < |items| - 1 :: items[1..][l] == items[l + 1];
    }
  }

  lemma {:induction false} OneProjection(items: seq<Item>, alias: string) returns (k: nat)
    requires |Projections(items, alias)| == 1
    ensures OnlyAlias(items, alias, k) && Projections(items, alias) == [items[k].value]
  {
    var rest := Projections(items[1..], alias);
    assert forall l | 0 <= l < |items| - 1 :: items[1..][l] == items[l + 1];
    if items[0].alias == alias {
      k := 0;
      if alias == "" { NoProjection(items, alias); }
      assert |rest| == 0;
      NoProjection(items[1..], alias);
    } else {
      assert [] + rest == rest;
      k := OneProjection(items[1..], alias);
      k := k + 1;
    }
  }

  lemma {:induction false} ProjectionAt(items: seq<Item>, alias: string, k: nat)
    requires OnlyAlias(items, alias, k) && alias != ""
    ensures Projections(items, alias) == [items[k].value]
  {
    assert forall l | 0 <= l < |items| - 1 :: items[1..][l] == items[l + 1];
    if k == 0 { NoProjection(items[1..], alias); }
    else {
      ProjectionAt(items[1..], alias, k - 1);
      assert [] + [items[k].value] == [items[k].value];
    }
  }

  /** The critic recognises the order exactly when the first sort key is the metric. */
  lemma MatchesExactly(q: Select, tables: seq<TableInfo>, metric: Owned)
    ensures OrderMatches(q, Some(metric), tables) <==> SortsBy(q, tables, metric)
  {
    if q.order != [] && q.order[0].key.Column? {
      var key := q.order[0].key;
      OwnerCertain(key, q, tables, metric);
      NoProjection(q.items, key.name);
      if |Projections(q.items, key.name)| == 1 {
        var k := OneProjection(q.items, key.name);
        if q.items[k].value.Column? { OwnerCertain(q.items[k].value, q, tables, metric); }
      }
      if key.name != "" {
        forall k: nat | OnlyAlias(q.items, key.name, k) ensures Projections(q.items, key.name) == [q.items[k].value] {
          ProjectionAt(q.items, key.name, k);
        }
      }
    }
  }
}
