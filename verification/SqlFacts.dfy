/** General facts about plans. */
module SqlFacts {
  import opened Prelude
  import opened Orders
  import opened Sorting
  import opened Sql

  function BindAll(source: string, records: seq<Record>): (r: seq<Row>)
    ensures |r| == |records|
  {
    seq(|records|, i requires 0 <= i < |records| => Bind(source, records[i]))
  }

  lemma BindCell(source: string, r: Record, n: string)
    ensures n in r <==> (source, n) in Bind(source, r)
    ensures n in r ==> Bind(source, r)[(source, n)] == r[n]
  {
    if n in r { assert (source, n) in (set m | m in r :: (source, m)); }
  }

  lemma {:induction false} MatchesAll(j: JoinPlan, records: seq<Record>, w: World)
    requires j.on == None
    ensures Matches(map[], j, records, w) == BindAll(j.source, records)
  {
    if records != [] {
      MatchesAll(j, records[1..], w);
      var none: Row := map[];
      assert none + Bind(j.source, records[0]) == Bind(j.source, records[0]);
      assert BindAll(j.source, records) == [Bind(j.source, records[0])] + BindAll(j.source, records[1..]);
    }
  }

  function RecordsOf(db: Database, table: string): seq<Record> { if table in db then db[table] else [] }

  /** One source without ON: the rows are the records of the table, filtered. */
  lemma SingleSourceRows(p: Plan, db: Database, w: World)
    requires |p.joins| == 1 && p.joins[0].on == None && !p.joins[0].outer
    ensures SourceRows(p, db, w) == Filter(BindAll(p.joins[0].source, RecordsOf(db, p.joins[0].table)), p.where, w)
  {
    var j := p.joins[0];
    var records := RecordsOf(db, j.table);
    var none: Row := map[];
    MatchesAll(j, records, w);
    assert [none][1..] == [];
    assert JoinOne([none], j, records, w) == BindAll(j.source, records) + JoinOne([none][1..], j, records, w);
    assert JoinOne([none], j, records, w) == BindAll(j.source, records);
    assert p.joins[1..] == [];
    assert JoinAll([none], p.joins, db, w) == JoinAll(BindAll(j.source, records), p.joins[1..], db, w);
  }

  lemma {:induction false} FilterNone(rows: seq<Row>, w: World)
    ensures Filter(rows, None, w) == rows
  {
    if rows != [] { FilterNone(rows[1..], w); }
  }

  lemma {:induction false} HavingNone(p: Plan, xs: seq<Context>, w: World)
    requires p.having == None
    ensures Having(p, xs, w) == xs
  {
    if xs != [] { HavingNone(p, xs[1..], w); }
  }

  // ------------------------------------------------------- the order of a plan

  lemma ValueLessTotal(a: Value, b: Value)
    ensures a == b || ValueLess(a, b) || ValueLess(b, a)
    ensures !(ValueLess(a, b) && ValueLess(b, a)) && !ValueLess(a, a)
  {
    if a.Text? && b.Text? { StringLessTotal(a.chars, b.chars); }
    if a.Text? { StringLessTotal(a.chars, a.chars); }
  }

  lemma ValueLessTransitive(a: Value, b: Value, c: Value)
    requires ValueLess(a, b) && ValueLess(b, c)
    ensures ValueLess(a, c)
  {
    if a.Text? && b.Text? && c.Text? { StringLessTransitive(a.chars, b.chars, c.chars); }
  }

  /** A sort key orders values strictly and totally. */
  lemma BeforeTotal(k: SortKey, a: Value, b: Value)
    ensures a == b || Before(k, a, b) || Before(k, b, a)
    ensures !(Before(k, a, b) && Before(k, b, a)) && !Before(k, a, a)
  {
    ValueLessTotal(a, b);
    ValueLessTotal(a, a);
  }

  lemma BeforeTransitive(k: SortKey, a: Value, b: Value, c: Value)
    requires Before(k, a, b) && Before(k, b, c)
    ensures Before(k, a, c)
  {
    if !a.Null? && !b.Null? && !c.Null? {
      if k.desc { ValueLessTransitive(c, b, a); } else { ValueLessTransitive(a, b, c); }
    }
    ValueLessTotal(a, b);
  }

  lemma {:induction false} PrecedesAsymmetric(p: Plan, i: nat, x: Context, y: Context, w: World)
    requires i <= |p.order|
    ensures !(Precedes(p, i, x, y, w) && Precedes(p, i, y, x, w))
    decreases |p.order| - i
  {
    if i < |p.order| {
      BeforeTotal(p.order[i], CoreValue(p, p.order[i].core, x, w), CoreValue(p, p.order[i].core, y, w));
      PrecedesAsymmetric(p, i + 1, x, y, w);
    }
  }

  /** If `z` precedes `x`, every `y` comes after `z` or before `x`. */
  lemma {:induction false} PrecedesWeak(p: Plan, i: nat, x: Context, y: Context, z: Context, w: World)
    requires i <= |p.order| && Precedes(p, i, z, x, w)
    ensures Precedes(p, i, z, y, w) || Precedes(p, i, y, x, w)
    decreases |p.order| - i
  {
    var k := p.order[i];
    var a, b, c := CoreValue(p, k.core, x, w), CoreValue(p, k.core, y, w), CoreValue(p, k.core, z, w);
    BeforeTotal(k, a, b);
    BeforeTotal(k, b, c);
    BeforeTotal(k, a, c);
    if Before(k, b, c) && Before(k, c, a) { BeforeTransitive(k, b, c, a); }
    if Before(k, c, a) && Before(k, a, b) { BeforeTransitive(k, c, a, b); }
    if !Before(k, c, a) {
      PrecedesWeak(p, i + 1, x, y, z, w);
    }
  }

  ghost predicate InOrder(p: Plan, xs: seq<Context>, w: World) {
    forall i, j | 0 <= i < j < |xs| :: !Precedes(p, 0, xs[j], xs[i], w)
  }

  lemma InsertFirst(p: Plan, x: Context, xs: seq<Context>, w: World)
    requires InOrder(p, xs, w) && (xs == [] || !Precedes(p, 0, xs[0], x, w))
    ensures InOrder(p, [x] + xs, w)
  {
    var ys := [x] + xs;
    forall j | 0 < j < |ys| ensures !Precedes(p, 0, ys[j], ys[0], w) {
      if Precedes(p, 0, xs[j - 1], x, w) && j > 1 {
        PrecedesWeak(p, 0, x, xs[0], xs[j - 1], w);
      }
    }
  }

  lemma {:induction false} Insert(p: Plan, x: Context, xs: seq<Context>, w: World) returns (ys: seq<Context>)
    requires InOrder(p, xs, w)
    ensures InOrder(p, ys, w) && multiset(ys) == multiset([x]) + multiset(xs)
  {
    if xs == [] || !Precedes(p, 0, xs[0], x, w) {
      ys := [x] + xs;
      InsertFirst(p, x, xs, w);
    } else {
      var zs := Insert(p, x, xs[1..], w);
      ys := [xs[0]] + zs;
      assert xs == [xs[0]] + xs[1..];
      forall j | 0 < j < |ys| ensures !Precedes(p, 0, ys[j], ys[0], w) {
        assert zs[j - 1] in multiset(zs);
        if zs[j - 1] == x { PrecedesAsymmetric(p, 0, x, xs[0], w); }
        else { var k :| 0 <= k < |xs[1..]| && xs[1..][k] == zs[j - 1]; }
      }
    }
  }

  lemma {:induction false} SortExists(p: Plan, xs: seq<Context>, w: World) returns (ys: seq<Context>)
    ensures InOrder(p, ys, w) && multiset(ys) == multiset(xs)
  {
    if xs == [] { ys := []; }
    else {
      var rest := SortExists(p, xs[1..], w);
      ys := Insert(p, xs[0], rest, w);
      assert xs == [xs[0]] + xs[1..];
    }
  }

  lemma RepresentativeAdded(p: Plan, x: Context, xs: seq<Context>, w: World, rest: seq<Context>)
    requires Representatives(p, xs, w, rest) && !Stands(p, rest, x, w)
    ensures Representatives(p, [x] + xs, w, [x] + rest)
  {
    var ys := [x] + rest;
    forall y | y in [x] + xs ensures Stands(p, ys, y, w) {
      if y == x { assert ys[0] == x; }
      else {
        assert Stands(p, rest, y, w);
        var i :| 0 <= i < |rest| && RenderRow(p, rest[i], w) == RenderRow(p, y, w);
        assert ys[i + 1] == rest[i];
      }
    }
  }

  /** DISTINCT can always choose. */
  lemma {:induction false} RepresentativesExist(p: Plan, xs: seq<Context>, w: World) returns (ys: seq<Context>)
    ensures Representatives(p, xs, w, ys)
  {
    if xs == [] { ys := []; }
    else {
      ys := RepresentativesExist(p, xs[1..], w);
      assert xs == [xs[0]] + xs[1..];
      if !Stands(p, ys, xs[0], w) {
        RepresentativeAdded(p, xs[0], xs[1..], w, ys);
        ys := [xs[0]] + ys;
      }
    }
  }

  lemma RepresentativesPermuted(p: Plan, population: seq<Context>, w: World, ys: seq<Context>, zs: seq<Context>)
    requires Representatives(p, population, w, ys) && multiset(zs) == multiset(ys)
    ensures Representatives(p, population, w, zs)
  {
    SameSize(zs, ys);
    SameSize(ys, zs);
    NoDuplicates(zs, ys);
    forall x | x in population ensures Stands(p, zs, x, w) {
      assert Stands(p, ys, x, w);
      var i :| 0 <= i < |ys| && RenderRow(p, ys[i], w) == RenderRow(p, x, w);
      assert ys[i] in zs;
    }
    forall i, j | 0 <= i < j < |zs| ensures RenderRow(p, zs[i], w) != RenderRow(p, zs[j], w) {
      assert zs[i] in ys && zs[j] in ys && zs[i] != zs[j];
    }
  }

  /** Without DISTINCT and OFFSET, a result is the population in order, cut by LIMIT. */
  ghost predicate Plain(p: Plan) { !p.distinct && p.offset == None }

  lemma PlainArrangement(p: Plan, db: Database, w: World, arranged: seq<Context>)
    requires !p.distinct
    ensures Arrangement(p, db, w, arranged) <==> multiset(arranged) == multiset(Population(p, db, w)) && InOrder(p, arranged, w)
  {
  }

  lemma PlainReturned(p: Plan, arranged: seq<Context>, w: World)
    requires p.offset == None
    ensures Returned(p, arranged, w) == TakeLimit(arranged, LimitOf(p.limit, w))
  {
    if arranged != [] { assert arranged[0..] == arranged; }
  }

  /** A group of one row is read from that row. */
  lemma OneRow(p: Plan, x: Row, w: World)
    ensures BareRow(p, [x], w) == x
  {
    OnlyZero(w.pick(PlanFolds(p), [x]));
  }

  lemma OnlyZero(n: nat)
    ensures n % 1 == 0
  {
  }

  /** Every prepared statement has an answer on every database. */
  lemma AnswerExists(p: Plan, db: Database, w: World)
    ensures exists answer :: IsAnswer(p, db, w, answer)
  {
    var population := Population(p, db, w);
    var kept := population;
    if p.distinct { kept := RepresentativesExist(p, population, w); }
    var arranged := SortExists(p, kept, w);
    if p.distinct { RepresentativesPermuted(p, population, w, kept, arranged); }
    assert Selected(p, population, w, arranged);
    assert Arrangement(p, db, w, arranged);
    assert IsAnswer(p, db, w, Render(p, Returned(p, arranged, w), w));
  }
}
