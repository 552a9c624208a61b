/** Exactly when a captured alias in ORDER BY changes what the projection edit answers. */
module CaptureExact {
  import opened Prelude
  import opened Orders
  import opened Sql
  import opened SqlFacts
  import opened OutputContract
  import opened ProjectionPlan
  import opened ProjectionMeaning
  import opened ProjectionLimits
  import opened ProjectionExact
  import opened Marked
  import opened SortKeys

  // -------------------------------------------------------------- answers row by row

  /** Every row is one result row, and no aggregate is computed. */
  ghost predicate Rowwise(p: Plan) { !p.grouped && !AnyFold(p.outputs) && p.having == None && Plain(p) }

  ghost function Shown(outputs: seq<Core>, rows: seq<Row>, w: World): (r: seq<seq<Value>>)
    ensures |r| == |rows|
  {
    seq(|rows|, i requires 0 <= i < |rows| => EvalAll(outputs, [rows[i]], rows[i], w))
  }

  /** `rows` in this order yield `answer`. */
  ghost predicate Yields(p: Plan, db: Database, w: World, rows: seq<Row>, answer: seq<seq<Value>>) {
    && multiset(rows) == multiset(SourceRows(p, db, w)) && Sorted(p.order, rows, w)
    && answer == Shown(p.outputs, TakeLimit(rows, LimitOf(p.limit, w)), w)
  }

  lemma {:induction false} PrecedesSooner(p: Plan, i: nat, x: Row, y: Row, w: World)
    requires i <= |p.order|
    ensures Precedes(p, i, [x], [y], w) <==> Sooner(p.order[i..], x, y, w)
    decreases |p.order| - i
  {
    if i < |p.order| {
      OneRow(p, x, w);
      OneRow(p, y, w);
      assert p.order[i..][1..] == p.order[i + 1..];
      PrecedesSooner(p, i + 1, x, y, w);
    }
  }

  lemma {:induction false} SingletonCount(rows: seq<Row>, z: Context)
    ensures multiset(Singletons(rows))[z] == if |z| == 1 then multiset(rows)[z[0]] else 0
  {
    if rows != [] {
      SingletonCount(rows[1..], z);
      assert rows == [rows[0]] + rows[1..];
      assert Singletons(rows) == [[rows[0]]] + Singletons(rows[1..]);
      assert |z| == 1 ==> z == [z[0]];
    }
  }

  lemma SingletonsPermute(xs: seq<Row>, ys: seq<Row>)
    ensures multiset(Singletons(xs)) == multiset(Singletons(ys)) <==> multiset(xs) == multiset(ys)
  {
    forall z ensures multiset(xs) == multiset(ys) ==> multiset(Singletons(xs))[z] == multiset(Singletons(ys))[z] {
      SingletonCount(xs, z);
      SingletonCount(ys, z);
    }
    forall r ensures multiset(Singletons(xs)) == multiset(Singletons(ys)) ==> multiset(xs)[r] == multiset(ys)[r] {
      SingletonCount(xs, [r]);
      SingletonCount(ys, [r]);
    }
  }

  lemma RowsArranged(p: Plan, db: Database, w: World, rows: seq<Row>)
    requires Rowwise(p)
    ensures Arrangement(p, db, w, Singletons(rows)) <==> multiset(rows) == multiset(SourceRows(p, db, w)) && Sorted(p.order, rows, w)
  {
    HavingNone(p, Singletons(SourceRows(p, db, w)), w);
    PlainArrangement(p, db, w, Singletons(rows));
    SingletonsPermute(rows, SourceRows(p, db, w));
    assert p.order[0..] == p.order;
    forall i, j | 0 <= i < j < |rows|
      ensures Precedes(p, 0, Singletons(rows)[j], Singletons(rows)[i], w) <==> Sooner(p.order, rows[j], rows[i], w)
    {
      PrecedesSooner(p, 0, rows[j], rows[i], w);
    }
  }

  lemma RowsRendered(p: Plan, rows: seq<Row>, w: World)
    requires Rowwise(p)
    ensures Render(p, Returned(p, Singletons(rows), w), w) == Shown(p.outputs, TakeLimit(rows, LimitOf(p.limit, w)), w)
  {
    PlainReturned(p, Singletons(rows), w);
    var cut := TakeLimit(rows, LimitOf(p.limit, w));
    assert Returned(p, Singletons(rows), w) == Singletons(cut);
    forall i | 0 <= i < |cut| ensures RenderRow(p, [cut[i]], w) == Shown(p.outputs, cut, w)[i] { OneRow(p, cut[i], w); }
  }

  /** The answers of a row-by-row plan, in terms of its source rows. */
  lemma RowAnswers(p: Plan, db: Database, w: World, answer: seq<seq<Value>>)
    requires Rowwise(p)
    ensures IsAnswer(p, db, w, answer) <==> exists rows :: Yields(p, db, w, rows, answer)
  {
    if IsAnswer(p, db, w, answer) {
      var arranged :| Arrangement(p, db, w, arranged) && answer == Render(p, Returned(p, arranged, w), w);
      var rows := ArrangedRows(p, db, w, arranged);
      RowsArranged(p, db, w, rows);
      RowsRendered(p, rows, w);
      assert Yields(p, db, w, rows, answer);
    }
    if rows :| Yields(p, db, w, rows, answer) {
      RowsArranged(p, db, w, rows);
      RowsRendered(p, rows, w);
    }
  }

  lemma ArrangedRows(p: Plan, db: Database, w: World, arranged: seq<Context>) returns (rows: seq<Row>)
    requires Rowwise(p) && Arrangement(p, db, w, arranged)
    ensures arranged == Singletons(rows)
  {
    HavingNone(p, Singletons(SourceRows(p, db, w)), w);
    PlainArrangement(p, db, w, arranged);
    SameSize(arranged, Singletons(SourceRows(p, db, w)));
    forall i | 0 <= i < |arranged| ensures |arranged[i]| == 1 { assert arranged[i] in arranged; }
    rows := seq(|arranged|, i requires 0 <= i < |arranged| => arranged[i][0]);
    assert forall i | 0 <= i < |arranged| :: arranged[i] == [rows[i]] == Singletons(rows)[i];
  }

  // --------------------------------------------------------- the same visible keys

  function Outputs(p: Plan): set<Core> { set c | c in p.outputs }

  predicate SameVisible(p: Plan, r: Plan) { Visible(p.order, {}, Outputs(p)) == Visible(r.order, {}, Outputs(p)) }

  lemma {:induction false} TiesShown(outputs: seq<Core>, cs: set<Core>, a: Row, b: Row, w: World)
    requires Ties(cs, a, b, w) && forall c | c in outputs :: c in cs
    ensures EvalAll(outputs, [a], a, w) == EvalAll(outputs, [b], b, w)
  {
    if outputs != [] {
      assert outputs[0] in outputs;
      TiesShown(outputs[1..], cs, a, b, w);
    }
  }

  lemma SortedVisible(order: seq<SortKey>, kept: set<Core>, rows: seq<Row>, w: World)
    requires Sorted(order, rows, w)
    ensures Sorted(Visible(order, {}, kept), rows, w)
  {
    forall i, j | 0 <= i < j < |rows| ensures !Sooner(Visible(order, {}, kept), rows[j], rows[i], w) {
      VisibleSooner(order, {}, kept, rows[j], rows[i], w);
    }
  }

  lemma VisibleSorted(order: seq<SortKey>, kept: set<Core>, rows: seq<Row>, w: World)
    requires Sorted(Visible(order, {}, kept), rows, w) && !Covers(order, {}, kept)
    ensures Sorted(order, rows, w)
  {
    forall i, j | 0 <= i < j < |rows| ensures !Sooner(order, rows[j], rows[i], w) {
      VisibleSooner(order, {}, kept, rows[j], rows[i], w);
    }
  }

  /** Where the visible keys decide every output, all orders of the rows look the same. */
  lemma CoveredShown(p: Plan, visible: seq<SortKey>, xs: seq<Row>, ys: seq<Row>, w: World)
    requires multiset(xs) == multiset(ys) && Sorted(visible, xs, w) && Sorted(visible, ys, w) && Outputs(p) <= Cores(visible)
    ensures Shown(p.outputs, TakeLimit(xs, LimitOf(p.limit, w)), w) == Shown(p.outputs, TakeLimit(ys, LimitOf(p.limit, w)), w)
  {
    OrdersTie(visible, xs, ys, w);
    var limit := LimitOf(p.limit, w);
    var n := |TakeLimit(xs, limit)|;
    assert TakeLimit(xs, limit) == xs[..n] && TakeLimit(ys, limit) == ys[..n];
    forall i | 0 <= i < n ensures EvalAll(p.outputs, [xs[i]], xs[i], w) == EvalAll(p.outputs, [ys[i]], ys[i], w) {
      TiesShown(p.outputs, Cores(visible), xs[i], ys[i], w);
    }
  }

  /** Orders with the same visible keys have the same answers. */
  lemma SameVisibleAnswers(p: Plan, r: Plan, db: Database, w: World, answer: seq<seq<Value>>)
    requires Rowwise(p) && r == p.(order := r.order) && SameVisible(p, r) && IsAnswer(p, db, w, answer)
    ensures IsAnswer(r, db, w, answer)
  {
    var kept := Outputs(p);
    var visible := Visible(p.order, {}, kept);
    RowAnswers(p, db, w, answer);
    var rows :| Yields(p, db, w, rows, answer);
    SortedVisible(p.order, kept, rows, w);
    if Covers(r.order, {}, kept) {
      AnswerExists(r, db, w);
      var some :| IsAnswer(r, db, w, some);
      RowAnswers(r, db, w, some);
      var others :| Yields(r, db, w, others, some);
      SortedVisible(r.order, kept, others, w);
      CoveredShown(p, visible, rows, others, w);
    } else {
      VisibleSorted(r.order, kept, rows, w);
      RowAnswers(r, db, w, answer);
      assert Yields(r, db, w, rows, answer);
    }
  }

  // ------------------------------------------------------- different visible keys

  /** Every key is a column of `s`, or has one value for all rows. */
  predicate PlainKeys(order: seq<SortKey>, s: string) {
    forall i | 0 <= i < |order| :: Inert(order[i].core) || (order[i].core.Src? && order[i].core.source == s)
  }

  /** The keys are active and new, and before each an output is left to decide. */
  ghost predicate Shaped(v: seq<SortKey>, seen: set<Core>, kept: set<Core>, s: string) {
    forall i | 0 <= i < |v| ::
      v[i].core.Src? && v[i].core.source == s && v[i].core !in seen + Cores(v[..i]) && !(kept <= seen + Cores(v[..i]))
  }

  lemma {:induction false} VisibleShape(order: seq<SortKey>, seen: set<Core>, kept: set<Core>, s: string)
    requires PlainKeys(order, s)
    ensures Shaped(Visible(order, seen, kept), seen, kept, s)
  {
    if order != [] && !(kept <= seen) {
      if Inert(order[0].core) || order[0].core in seen {
        VisibleShape(order[1..], seen, kept, s);
        assert Visible(order, seen, kept) == Visible(order[1..], seen, kept);
      } else {
        HeadVisible(order, seen, kept);
        VisibleShape(order[1..], seen + {order[0].core}, kept, s);
        ShapedCons(order[0], Visible(order[1..], seen + {order[0].core}, kept), seen, kept, s);
      }
    }
  }

  lemma ShapedCons(k: SortKey, rest: seq<SortKey>, seen: set<Core>, kept: set<Core>, s: string)
    requires k.core.Src? && k.core.source == s && k.core !in seen && !(kept <= seen)
    requires Shaped(rest, seen + {k.core}, kept, s)
    ensures Shaped([k] + rest, seen, kept, s)
  {
    var v := [k] + rest;
    forall i | 0 <= i < |v|
      ensures v[i].core.Src? && v[i].core.source == s && v[i].core !in seen + Cores(v[..i]) && !(kept <= seen + Cores(v[..i]))
    {
      if i > 0 {
        assert v[..i] == [k] + rest[..i - 1];
        CoresCons(k, rest[..i - 1]);
        assert seen + Cores(v[..i]) == (seen + {k.core}) + Cores(rest[..i - 1]);
      }
    }
  }

  lemma {:induction false} SoonerAt(order: seq<SortKey>, n: nat, a: Row, b: Row, w: World)
    requires n <= |order| && Ties(Cores(order[..n]), a, b, w)
    ensures n < |order| && Before(order[n], Eval(order[n].core, [a], a, w), Eval(order[n].core, [b], b, w)) ==> Sooner(order, a, b, w)
    ensures n == |order| ==> !Sooner(order, a, b, w)
  {
    if n > 0 {
      assert order[..n] == [order[0]] + order[1..][..n - 1];
      CoresCons(order[0], order[1..][..n - 1]);
      BeforeTotal(order[0], Eval(order[0].core, [a], a, w), Eval(order[0].core, [b], b, w));
      SoonerAt(order[1..], n - 1, a, b, w);
    }
  }

  /** Two records that differ in up to three columns only. */
  function Cells(k: string, u: Value, l: string, v: Value, y: string, z: Value): Record { map[y := z][l := v][k := u] }

  lemma CellsBound(s: string, k: string, u: Value, l: string, v: Value, y: string, z: Value, n: string)
    ensures var r := Bind(s, Cells(k, u, l, v, y, z));
      && ((s, n) in r <==> n in {k, l, y})
      && (n == k ==> r[(s, n)] == u) && (n != k && n == l ==> r[(s, n)] == v) && (n != k && n != l && n == y ==> r[(s, n)] == z)
  {
    BindCell(s, Cells(k, u, l, v, y, z), n);
  }

  /** Two values that `k` puts in this order and `l`, when it is another key, in the other. */
  lemma KeyValues(k: SortKey, l: SortKey) returns (u: Value, x: Value, v: Value, z: Value)
    requires k != l
    ensures Before(k, u, x) && Before(l, z, v) && u != x && v != z && (k.core == l.core ==> v == u && z == x)
  {
    if k.core == l.core && k.desc == l.desc {
      if k.nullsFirst { u, x := Null, Num(1.0); } else { u, x := Num(1.0), Null; }
      v, z := u, x;
    } else {
      if k.desc { u, x := Num(2.0), Num(1.0); } else { u, x := Num(1.0), Num(2.0); }
      if l.desc { z, v := Num(2.0), Num(1.0); } else { z, v := Num(1.0), Num(2.0); }
    }
  }

  lemma TwoRows(p: Plan, a: Record, b: Record, w: World)
    requires |p.joins| == 1 && Accepts(w)
    ensures SourceRows(p, map[p.joins[0].table := [a, b]], w) == [Bind(p.joins[0].source, a), Bind(p.joins[0].source, b)]
  {
    AcceptedSource(p, map[p.joins[0].table := [a, b]], w);
  }

  /** An order that allows the second of two rows first has the answer that starts with it. */
  lemma AllowedFirst(r: Plan, x: Row, y: Row, db: Database, w: World)
    requires Rowwise(r) && SourceRows(r, db, w) == [x, y] && !Sooner(r.order, x, y, w)
    ensures IsAnswer(r, db, w, Shown(r.outputs, TakeLimit([y, x], LimitOf(r.limit, w)), w))
  {
    var answer := Shown(r.outputs, TakeLimit([y, x], LimitOf(r.limit, w)), w);
    assert multiset([y, x]) == multiset([x, y]);
    assert Yields(r, db, w, [y, x], answer);
    RowAnswers(r, db, w, answer);
  }

  /** An order that puts the first row first has no answer that starts otherwise. */
  lemma ForcedFirst(p: Plan, x: Row, y: Row, db: Database, w: World, answer: seq<seq<Value>>)
    requires Rowwise(p) && SourceRows(p, db, w) == [x, y] && Sooner(p.order, x, y, w) && IsAnswer(p, db, w, answer)
    requires LimitOf(p.limit, w).None? || LimitOf(p.limit, w).value > 0
    ensures answer != [] && answer[0] == EvalAll(p.outputs, [x], x, w)
  {
    RowAnswers(p, db, w, answer);
    var rows :| Yields(p, db, w, rows, answer);
    OnlyOrder(p.order, rows, x, y, w);
  }

  /** One order puts `a` before `b`, the other allows `b` first: then it has an answer that
      the first has not. */
  lemma ForcedBetrays(p: Plan, r: Plan, a: Record, b: Record, o: nat, db: Database, w: World)
    requires Rowwise(p) && r == p.(order := r.order) && |p.joins| == 1 && Accepts(w)
    requires db == map[p.joins[0].table := [a, b]]
    requires LimitOf(p.limit, w).None? || LimitOf(p.limit, w).value > 0
    requires var x, y := Bind(p.joins[0].source, a), Bind(p.joins[0].source, b);
      && Sooner(p.order, x, y, w) && !Sooner(r.order, x, y, w)
      && o < |p.outputs| && Eval(p.outputs[o], [x], x, w) != Eval(p.outputs[o], [y], y, w)
    ensures exists answer :: IsAnswer(r, db, w, answer) && !IsAnswer(p, db, w, answer)
  {
    var x, y := Bind(p.joins[0].source, a), Bind(p.joins[0].source, b);
    TwoRows(p, a, b, w);
    TwoRows(r, a, b, w);
    AllowedFirst(r, x, y, db, w);
    var answer := Shown(r.outputs, TakeLimit([y, x], LimitOf(r.limit, w)), w);
    EvalAt(p.outputs, [x], x, w, o);
    EvalAt(p.outputs, [y], y, w, o);
    assert answer[0] == EvalAll(p.outputs, [y], y, w);
    if IsAnswer(p, db, w, answer) { ForcedFirst(p, x, y, db, w, answer); }
  }

  lemma OnlyOrder(order: seq<SortKey>, rows: seq<Row>, x: Row, y: Row, w: World)
    requires multiset(rows) == multiset([x, y]) && Sorted(order, rows, w) && Sooner(order, x, y, w)
    ensures rows == [x, y]
  {
    SameSize(rows, [x, y]);
    SameSize([x, y], rows);
    assert [x, y][0] in rows && [x, y][1] in rows;
    assert rows[0] in rows && rows[1] in rows;
    SoonerAsymmetric(order, x, x, w);
  }

  /** The two rows have the same cells, and differ in those of `columns` only. */
  ghost predicate Parted(x: Row, z: Row, s: string, columns: set<string>) {
    forall c :: ((s, c) in x <==> c in columns) && ((s, c) in z <==> c in columns) && (c in columns ==> x[(s, c)] != z[(s, c)])
  }

  lemma PartedTies(x: Row, z: Row, s: string, columns: set<string>, cs: set<Core>, w: World)
    requires Parted(x, z, s, columns) && forall c | c in cs :: c.Src? && c.source == s && c.column !in columns
    ensures Ties(cs, x, z, w) && Ties(cs, z, x, w)
  {
  }

  /** The two records: equal but for the two keys and one output. */
  lemma CellsParted(s: string, k: string, u: Value, x: Value, l: string, v: Value, z: Value, y: string)
    requires u != x && v != z && (k == l ==> v == u && z == x)
    ensures var a, b := Bind(s, Cells(k, u, l, v, y, Num(1.0))), Bind(s, Cells(k, x, l, z, y, Num(2.0)));
      Parted(a, b, s, {k, l, y}) && a[(s, k)] == u && b[(s, k)] == x && a[(s, l)] == v && b[(s, l)] == z
  {
    var a, b := Bind(s, Cells(k, u, l, v, y, Num(1.0))), Bind(s, Cells(k, x, l, z, y, Num(2.0)));
    forall c
      ensures ((s, c) in a <==> c in {k, l, y}) && ((s, c) in b <==> c in {k, l, y}) && (c in {k, l, y} ==> a[(s, c)] != b[(s, c)])
    {
      CellsBound(s, k, u, l, v, y, Num(1.0), c);
      CellsBound(s, k, x, l, z, y, Num(2.0), c);
    }
    CellsBound(s, k, u, l, v, y, Num(1.0), k);
    CellsBound(s, k, u, l, v, y, Num(1.0), l);
    CellsBound(s, k, x, l, z, y, Num(2.0), k);
    CellsBound(s, k, x, l, z, y, Num(2.0), l);
  }

  /** Where the first different visible key of an order puts `x` first, so does the order. */
  lemma KeyForces(order: seq<SortKey>, kept: set<Core>, n: nat, x: Row, z: Row, w: World)
    requires var v := Visible(order, {}, kept);
      && n < |v| && Ties(Cores(v[..n]), x, z, w)
      && Before(v[n], Eval(v[n].core, [x], x, w), Eval(v[n].core, [z], z, w))
    ensures Sooner(order, x, z, w)
  {
    SoonerAt(Visible(order, {}, kept), n, x, z, w);
    VisibleSooner(order, {}, kept, x, z, w);
  }

  /** Where an order has no further visible key, and does not decide every output, it lets
      any of the two come first. */
  lemma NoKeyAllows(order: seq<SortKey>, kept: set<Core>, x: Row, z: Row, w: World)
    requires var v := Visible(order, {}, kept); Ties(Cores(v), x, z, w) && !(kept <= Cores(v))
    ensures !Sooner(order, x, z, w)
  {
    var v := Visible(order, {}, kept);
    assert v[..|v|] == v && {} + Cores(v) == Cores(v);
    SoonerAt(v, |v|, x, z, w);
    VisibleSooner(order, {}, kept, x, z, w);
  }

  /** At the first difference one order has a visible key: some database tells them apart. */
  lemma KeyBetrays(p: Plan, r: Plan, s: string, n: nat)
    requires Rowwise(p) && r == p.(order := r.order) && |p.joins| == 1 && p.joins[0].source == s && p.limit != Some(IntLit(0))
    requires PlainKeys(p.order, s) && PlainKeys(r.order, s)
    requires forall c | c in p.outputs :: c.Src? && c.source == s
    requires var v, u := Visible(p.order, {}, Outputs(p)), Visible(r.order, {}, Outputs(p));
      n < |v| && n <= |u| && v[..n] == u[..n] && (n < |u| ==> v[n] != u[n])
    ensures exists db, w, answer :: IsAnswer(r, db, w, answer) && !IsAnswer(p, db, w, answer)
  {
    var kept := Outputs(p);
    var v, u := Visible(p.order, {}, kept), Visible(r.order, {}, kept);
    VisibleShape(p.order, {}, kept, s);
    VisibleShape(r.order, {}, kept, s);
    assert {} + Cores(v[..n]) == Cores(v[..n]);
    var y :| y in kept && y !in Cores(v[..n]);
    var o :| 0 <= o < |p.outputs| && p.outputs[o] == y;
    var l := if n < |u| then u[n] else SortKey(v[n].core, !v[n].desc, v[n].nullsFirst);
    var a, b, w := TwoRecords(p, r, s, n, l, y);
    ForcedBetrays(p, r, a, b, o, map[p.joins[0].table := [a, b]], w);
  }

  /** Two records: tied before, ordered by the first key, and not so by the other. */
  lemma TwoRecords(p: Plan, r: Plan, s: string, n: nat, l: SortKey, y: Core) returns (a: Record, b: Record, w: World)
    requires var v, u := Visible(p.order, {}, Outputs(p)), Visible(r.order, {}, Outputs(p));
      && Shaped(v, {}, Outputs(p), s) && Shaped(u, {}, Outputs(p), s)
      && n < |v| && n <= |u| && v[..n] == u[..n] && (n < |u| ==> u[n] == l) && (n == |u| ==> l.core == v[n].core)
      && y in Outputs(p) && y !in Cores(v[..n]) && y.Src? && y.source == s && l != v[n]
    ensures Accepts(w) && w.limit == MarkWorld(Num(9.0)).limit
    ensures var x, z := Bind(s, a), Bind(s, b);
      && Sooner(p.order, x, z, w) && !Sooner(r.order, x, z, w) && Eval(y, [x], x, w) != Eval(y, [z], z, w)
  {
    w := MarkWorld(Num(9.0));
    var v, u := Visible(p.order, {}, Outputs(p)), Visible(r.order, {}, Outputs(p));
    var k := v[n];
    var a1, b1, a2, b2 := KeyValues(k, l);
    a := Cells(k.core.column, a1, l.core.column, a2, y.column, Num(1.0));
    b := Cells(k.core.column, b1, l.core.column, b2, y.column, Num(2.0));
    var x, z := Bind(s, a), Bind(s, b);
    CellsParted(s, k.core.column, a1, b1, l.core.column, a2, b2, y.column);
    PrefixFresh(v, u, Outputs(p), s, n, l, y);
    PartedTies(x, z, s, {k.core.column, l.core.column, y.column}, Cores(v[..n]), w);
    KeyForces(p.order, Outputs(p), n, x, z, w);
    if n < |u| {
      KeyForces(r.order, Outputs(p), n, z, x, w);
      SoonerAsymmetric(r.order, x, z, w);
    } else {
      assert u[..n] == u;
      NoKeyAllows(r.order, Outputs(p), x, z, w);
    }
  }

  /** The common keys are none of the columns in which the records differ. */
  lemma PrefixFresh(v: seq<SortKey>, u: seq<SortKey>, kept: set<Core>, s: string, n: nat, l: SortKey, y: Core)
    requires Shaped(v, {}, kept, s) && Shaped(u, {}, kept, s)
    requires n < |v| && n <= |u| && v[..n] == u[..n] && (n < |u| ==> u[n] == l) && (n == |u| ==> l.core == v[n].core)
    requires y !in Cores(v[..n]) && y.Src? && y.source == s
    ensures v[n].core.Src? && v[n].core.source == s && l.core.Src? && l.core.source == s
    ensures forall c | c in Cores(v[..n]) :: c.Src? && c.source == s && c.column !in {v[n].core.column, l.core.column, y.column}
  {
    assert v[n].core !in Cores(v[..n]) && l.core !in Cores(v[..n]);
  }

  lemma {:induction false} FirstDifference<T>(s: seq<T>, t: seq<T>) returns (n: nat)
    requires s != t
    ensures n <= |s| && n <= |t| && s[..n] == t[..n] && (n < |s| || n < |t|) && (n < |s| && n < |t| ==> s[n] != t[n])
  {
    if s == [] || t == [] || s[0] != t[0] { n := 0; }
    else {
      n := FirstDifference(s[1..], t[1..]);
      n := n + 1;
      assert s[..n] == [s[0]] + s[1..][..n - 1] && t[..n] == [t[0]] + t[1..][..n - 1];
    }
  }

  /** Two orders of the rows of one source have the same answers on every database exactly
      when they have the same visible keys. */
  lemma VisibleExactly(p: Plan, r: Plan, s: string)
    requires Rowwise(p) && r == p.(order := r.order) && |p.joins| == 1 && p.joins[0].source == s && p.limit != Some(IntLit(0))
    requires PlainKeys(p.order, s) && PlainKeys(r.order, s)
    requires forall c | c in p.outputs :: c.Src? && c.source == s
    ensures (forall db, w, answer :: IsAnswer(p, db, w, answer) <==> IsAnswer(r, db, w, answer)) <==> SameVisible(p, r)
  {
    assert p == r.(order := p.order) && Outputs(r) == Outputs(p);
    if SameVisible(p, r) {
      forall db, w, answer ensures IsAnswer(p, db, w, answer) <==> IsAnswer(r, db, w, answer) {
        if IsAnswer(p, db, w, answer) { SameVisibleAnswers(p, r, db, w, answer); }
        if IsAnswer(r, db, w, answer) { SameVisibleAnswers(r, p, db, w, answer); }
      }
    } else {
      var v, u := Visible(p.order, {}, Outputs(p)), Visible(r.order, {}, Outputs(p));
      var n := FirstDifference(v, u);
      if n < |v| { KeyBetrays(p, r, s, n); } else { KeyBetrays(r, p, s, n); }
    }
  }

  // ------------------------------------------------------------------ the theorem

  /** The edited plan answers, on every database, just what the draft's plan answers without
      the dropped outputs. */
  ghost predicate EditKeeps(p: Plan, r: Plan, mask: seq<bool>)
    requires |mask| == |p.outputs|
  {
    forall db, w, answer :: IsAnswer(r, db, w, answer) <==> exists full :: IsAnswer(p, db, w, full) && DropsTo(full, mask, answer)
  }

  /** An edit that prepares changes nothing but the outputs and the sort keys. */
  lemma PreparedEdit(q: Select, cat: Catalog, mask: seq<bool>)
    requires Guarded(q, cat, mask) && Compile(q, cat).Some? && q.group == [] && Compile(EditOf(q, mask), cat).Some?
    ensures |Compile(q, cat).value.outputs| == |q.items|
    ensures var p, r := Compile(q, cat).value, Compile(EditOf(q, mask), cat).value;
      r == p.(outputs := Pick(p.outputs, mask), order := r.order)
  {
    var x := TheEdit(q, cat, mask);
    var r := EditOf(q, mask);
    AggregationKept(q, cat, mask);
    PickElab(q.items, mask, x.outputs, x.src);
    ExpandKeepsItems(q, x.dropped);
    ClausesKept(q, cat, mask);
    KeysKept(q, cat, mask);
    if AliasLeak(q, x.dropped) { LeakFails(q, cat, mask); }
    assert WhereFree(q, x.dropped) && SourcesFree(q.sources, x.dropped);
    assert r.group == [] && ElabGroup(r.group, x.small, x.keptOutputs) == Some([]);
    assert Compile(r, cat) == CompileClauses(r, x.keptOutputs, x.small);
    assert Compile(q, cat) == CompileClauses(q, x.outputs, x.full);
  }

  /** A captured alias in the ORDER BY of a draft without groups: when the edited statement
      prepares, it keeps the meaning if the sort keys that its outputs can show are those of
      the draft; and only if, where one source is ordered by columns and constants and
      LIMIT is not literally 0. */
  lemma CaptureExactly(requested: set<string>, words: string -> set<string>, q: Select, cat: Catalog)
    requires Licensed(requested, words, q, cat.tables) && Compile(q, cat).Some? && q.group == []
    requires Compile(Edited(requested, words, q, cat.tables), cat).Some?
    ensures var p, mask := Compile(q, cat).value, EditMask(requested, words, q, cat.tables);
      var r := Compile(Edited(requested, words, q, cat.tables), cat).value;
      && |p.outputs| == |mask|
      && (SameVisible(r.(order := p.order), r) ==> EditKeeps(p, r, mask))
      && (|q.sources| == 1 && PlainKeys(p.order, q.sources[0].Name()) && PlainKeys(r.order, q.sources[0].Name()) && q.limit != Some(IntLit(0)) ==>
            (EditKeeps(p, r, mask) <==> SameVisible(r.(order := p.order), r)))
  {
    var p, mask := Compile(q, cat).value, EditMask(requested, words, q, cat.tables);
    var r := Compile(Edited(requested, words, q, cat.tables), cat).value;
    LicenseGuards(requested, words, q, cat);
    PreparedEdit(q, cat, mask);
    var d := p.(outputs := Pick(p.outputs, mask));
    RowwiseDraft(q, cat, mask);
    EditAsOrder(p, r, mask);
    if SameVisible(d, r) {
      forall db, w, answer ensures IsAnswer(d, db, w, answer) <==> IsAnswer(r, db, w, answer) {
        if IsAnswer(d, db, w, answer) { SameVisibleAnswers(d, r, db, w, answer); }
        if IsAnswer(r, db, w, answer) { SameVisibleAnswers(r, d, db, w, answer); }
      }
    }
    if |q.sources| == 1 && PlainKeys(p.order, q.sources[0].Name()) && PlainKeys(r.order, q.sources[0].Name()) && q.limit != Some(IntLit(0)) {
      LicensedSource(q, cat, mask);
      VisibleExactly(d, r, q.sources[0].Name());
    }
  }

  lemma RowwiseDraft(q: Select, cat: Catalog, mask: seq<bool>)
    requires Guarded(q, cat, mask) && Simple(q) && Compile(q, cat).Some? && q.group == [] && |Compile(q, cat).value.outputs| == |mask|
    ensures var p := Compile(q, cat).value; Rowwise(p) && Rowwise(p.(outputs := Pick(p.outputs, mask)))
  {
    AggregationKept(q, cat, mask);
  }

  /** Dropping outputs first, the question is about the order alone. */
  lemma EditAsOrder(p: Plan, r: Plan, mask: seq<bool>)
    requires Rowwise(p) && |mask| == |p.outputs| && Rowwise(p.(outputs := Pick(p.outputs, mask)))
    ensures EditKeeps(p, r, mask) <==>
      forall db, w, answer :: IsAnswer(p.(outputs := Pick(p.outputs, mask)), db, w, answer) <==> IsAnswer(r, db, w, answer)
  {
    forall db, w, answer
      ensures IsAnswer(p.(outputs := Pick(p.outputs, mask)), db, w, answer) <==> exists full :: IsAnswer(p, db, w, full) && DropsTo(full, mask, answer)
    {
      AnswersKept(p, mask, db, w, answer);
    }
  }

  /** With one source the kept outputs are its columns. */
  lemma LicensedSource(q: Select, cat: Catalog, mask: seq<bool>)
    requires Guarded(q, cat, mask) && Compile(q, cat).Some? && |q.sources| == 1 && |Compile(q, cat).value.outputs| == |mask|
    ensures var p := Compile(q, cat).value;
      && |p.joins| == 1 && p.joins[0].source == q.sources[0].Name()
      && forall c | c in Pick(p.outputs, mask) :: c.Src? && c.source == q.sources[0].Name()
  {
    var p := Compile(q, cat).value;
    LicensedColumns(q, cat, mask);
    assert q.sources[1..] == [];
  }
}
