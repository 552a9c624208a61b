/** Worlds chosen to tell rows apart: conditions hold, and operators carry a mark. */
module Marked {
  import opened Prelude
  import opened Sql
  import opened SqlFacts
  import opened ProjectionPlan

  // ------------------------------------------------------------ accepting worlds

  /** A world whose conditions all hold. */
  ghost predicate Accepts(w: World) { forall v :: w.truth(v) }

  lemma {:induction false} AcceptedRows(rows: seq<Row>, c: Option<Core>, w: World)
    requires Accepts(w)
    ensures Filter(rows, c, w) == rows
  {
    if rows != [] { AcceptedRows(rows[1..], c, w); }
  }

  lemma {:induction false} AcceptedContexts(p: Plan, xs: seq<Context>, w: World)
    requires Accepts(w)
    ensures Having(p, xs, w) == xs
  {
    if xs != [] { AcceptedContexts(p, xs[1..], w); }
  }

  /** Then a join is a product. */
  lemma {:induction false} AcceptedMatches(left: Row, j: JoinPlan, records: seq<Record>, w: World)
    requires Accepts(w)
    ensures Matches(left, j, records, w) == seq(|records|, i requires 0 <= i < |records| => left + Bind(j.source, records[i]))
  {
    if records != [] {
      AcceptedMatches(left, j, records[1..], w);
      var all := seq(|records|, i requires 0 <= i < |records| => left + Bind(j.source, records[i]));
      var rest := seq(|records[1..]|, i requires 0 <= i < |records[1..]| => left + Bind(j.source, records[1..][i]));
      assert all == [left + Bind(j.source, records[0])] + rest;
    }
  }

  /** One source: the rows are its records. */
  lemma AcceptedSource(p: Plan, db: Database, w: World)
    requires Accepts(w) && |p.joins| == 1 && RecordsOf(db, p.joins[0].table) != []
    ensures SourceRows(p, db, w) == BindAll(p.joins[0].source, RecordsOf(db, p.joins[0].table))
  {
    var j := p.joins[0];
    var records := RecordsOf(db, j.table);
    var none: Row := map[];
    AcceptedMatches(none, j, records, w);
    assert forall i | 0 <= i < |records| :: none + Bind(j.source, records[i]) == Bind(j.source, records[i]);
    assert Matches(none, j, records, w) == BindAll(j.source, records);
    assert [none][1..] == [] && p.joins[1..] == [];
    assert JoinOne([none], j, records, w) == BindAll(j.source, records) + JoinOne([none][1..], j, records, w);
    assert JoinOne([none], j, records, w) == BindAll(j.source, records);
    assert JoinAll([none], p.joins, db, w) == JoinAll(BindAll(j.source, records), p.joins[1..], db, w);
    AcceptedRows(BindAll(j.source, records), p.where, w);
  }

  // ------------------------------------------------------------------- the mark

  /** Operators answer the mark exactly when an argument is the mark. */
  function MarkWorld(m: Value): World {
    World((op, vs: seq<Value>) => if m in vs then m else Null, (fn, vs) => Null, v => true, e => None, (fs, x) => 0)
  }

  /** Whether a core reads a cell outside its aggregates. */
  predicate Reads(c: Core) {
    match c
    case Src(_, _) => true
    case Op(_, args) => exists i | 0 <= i < |args| :: Reads(args[i])
    case _ => false
  }

  predicate AnyReads(cs: seq<Core>) { exists i | 0 <= i < |cs| :: Reads(cs[i]) }

  /** Whether it reads a marked cell of `r`. */
  predicate ReadsMark(c: Core, r: Row, m: Value) {
    match c
    case Src(s, n) => (s, n) in r && r[(s, n)] == m
    case Op(_, args) => exists i | 0 <= i < |args| :: ReadsMark(args[i], r, m)
    case _ => false
  }

  /** No constant of the core is the mark. */
  predicate Avoids(c: Core, m: Value) {
    match c
    case Const(v) => v != m
    case Op(_, args) => forall i | 0 <= i < |args| :: Avoids(args[i], m)
    case _ => true
  }

  /** In a group of one row, a core has the mark as its value exactly when it reads it. */
  lemma {:induction false} MarkedValue(c: Core, r: Row, k: real)
    requires k > 1.0 && Avoids(c, Num(k))
    ensures Eval(c, [r], r, MarkWorld(Num(k))) == Num(k) <==> ReadsMark(c, r, Num(k))
    decreases c, 1
  {
    match c
    case Op(_, args) => MarkedValues(args, r, k);
    case Fold(fn, a) =>
      assert [r][1..] == [];
      assert |EvalRows(a, [r], MarkWorld(Num(k)))| == 1;
      CountOne(EvalRows(a, [r], MarkWorld(Num(k))));
    case _ =>
  }

  lemma CountOne(vs: seq<Value>)
    requires |vs| == 1
    ensures NonNull(vs) <= 1
  {
    assert vs[1..] == [];
  }

  lemma {:induction false} MarkedValues(cs: seq<Core>, r: Row, k: real)
    requires k > 1.0 && forall i | 0 <= i < |cs| :: Avoids(cs[i], Num(k))
    ensures Num(k) in EvalAll(cs, [r], r, MarkWorld(Num(k))) <==> exists i | 0 <= i < |cs| :: ReadsMark(cs[i], r, Num(k))
    decreases cs, 0
  {
    if cs != [] {
      MarkedValue(cs[0], r, k);
      MarkedValues(cs[1..], r, k);
      assert (exists i | 0 <= i < |cs| :: ReadsMark(cs[i], r, Num(k))) <==>
        ReadsMark(cs[0], r, Num(k)) || exists i | 0 <= i < |cs[1..]| :: ReadsMark(cs[1..][i], r, Num(k)) by {
        assert forall i | 0 < i < |cs| :: cs[i] == cs[1..][i - 1];
      }
    }
  }

  // ------------------------------------------------------------ an unused constant

  function Top(c: Core): real
    decreases c, 1
  {
    match c
    case Const(Num(x)) => x
    case Op(_, args) => TopAll(args)
    case _ => 1.0
  }

  function TopAll(cs: seq<Core>): real
    decreases cs, 0
  {
    if cs == [] then 1.0
    else
      var x, y := Top(cs[0]), TopAll(cs[1..]);
      if x < y then y else x
  }

  lemma {:induction false} AboveTop(c: Core, k: real)
    requires k > Top(c)
    ensures Avoids(c, Num(k))
    decreases c, 1
  {
    match c
    case Op(_, args) => AboveTopAll(args, k);
    case _ =>
  }

  lemma {:induction false} AboveTopAll(cs: seq<Core>, k: real)
    requires k > TopAll(cs)
    ensures k > 1.0 && forall i | 0 <= i < |cs| :: Avoids(cs[i], Num(k))
    decreases cs, 0
  {
    if cs != [] {
      AboveTop(cs[0], k);
      AboveTopAll(cs[1..], k);
      assert forall i | 0 < i < |cs| :: cs[i] == cs[1..][i - 1];
    }
  }

  // ---------------------------------------------------------- a marked and a plain row

  /** Every cell a core reads is of source `s`. */
  predicate FromSource(c: Core, s: string) {
    match c
    case Src(t, _) => t == s
    case Op(_, args) => forall i | 0 <= i < |args| :: FromSource(args[i], s)
    case _ => true
  }

  /** The columns read outside aggregates. */
  function Columns(c: Core): set<string> {
    match c
    case Src(_, n) => {n}
    case Op(_, args) => set i, n | 0 <= i < |args| && n in Columns(args[i]) :: n
    case _ => {}
  }

  /** A row with the mark in every column read is marked for a core that reads at all. */
  lemma {:induction false} AllMarked(c: Core, r: Row, s: string, m: Value)
    requires FromSource(c, s) && forall n | n in Columns(c) :: (s, n) in r && r[(s, n)] == m
    ensures ReadsMark(c, r, m) <==> Reads(c)
  {
    match c
    case Op(_, args) =>
      forall i | 0 <= i < |args| ensures ReadsMark(args[i], r, m) <==> Reads(args[i]) {
        assert forall n | n in Columns(args[i]) :: n in Columns(c);
        AllMarked(args[i], r, s, m);
      }
    case _ =>
  }

  lemma {:induction false} NoneMarked(c: Core, r: Row, m: Value)
    requires forall k | k in r :: r[k] != m
    ensures !ReadsMark(c, r, m)
  {
    match c
    case Op(_, args) => forall i | 0 <= i < |args| ensures !ReadsMark(args[i], r, m) { NoneMarked(args[i], r, m); }
    case _ =>
  }

  /** An output that reads no cell and folds nothing is the same in every context. */
  lemma {:induction false} BlindValue(c: Core, x: Context, a: Row, y: Context, b: Row, w: World)
    requires !Reads(c) && !HasFold(c)
    ensures Eval(c, x, a, w) == Eval(c, y, b, w)
    decreases c, 1
  {
    if c.Op? { BlindValues(c.args, x, a, y, b, w); }
  }

  lemma {:induction false} BlindValues(cs: seq<Core>, x: Context, a: Row, y: Context, b: Row, w: World)
    requires !AnyReads(cs) && !AnyFold(cs)
    ensures EvalAll(cs, x, a, w) == EvalAll(cs, y, b, w)
    decreases cs, 0
  {
    if cs != [] {
      AnyFoldCons(cs);
      BlindValue(cs[0], x, a, y, b, w);
      assert forall i | 0 <= i < |cs[1..]| :: cs[1..][i] == cs[i + 1];
      BlindValues(cs[1..], x, a, y, b, w);
    }
  }

  // ------------------------------------------------------ what the outputs can show

  /** Whether an output shows anything of the row. */
  predicate ReadsRow(e: Expr) {
    match e
    case Column(_, _) => true
    case AllColumns => true
    case Call(_, args) => exists i | 0 <= i < |args| :: ReadsRow(args[i])
    case _ => false
  }

  predicate ShowsRows(q: Select) { exists i | 0 <= i < |q.items| :: ReadsRow(q.items[i].value) }

  lemma {:induction false} SomeColumn(tables: seq<TableInfo>, table: string, n: string)
    requires n in ColumnsOf(tables, table)
    ensures ColumnSeq(tables, table) != []
  {
    if tables[0].name != table { SomeColumn(tables[1..], table, n); }
  }

  /** Over one source with a column, a compiled output reads exactly what its expression
      names, and from that source. */
  lemma {:induction false} ElabReads(e: Expr, src: Scope, n: string)
    requires |src.sources| == 1 && src.aliases == [] && n in ColumnsOf(src.tables, src.sources[0].table)
    requires Elab(e, src, true).Some?
    ensures Reads(Elab(e, src, true).value) <==> ReadsRow(e)
    ensures FromSource(Elab(e, src, true).value, src.sources[0].Name())
    decreases e, 1
  {
    match e
    case Call(_, args) => ElabAllReads(args, src, n);
    case Column(t, m) =>
      assert src.sources[1..] == [];
      assert Owners(src.sources[1..], src.tables, t, m) == [];
    case AllColumns =>
      SomeColumn(src.tables, src.sources[0].table, n);
      assert src.sources[1..] == [] && StarCells(src.sources[1..], src.tables) == [];
      var cells := StarCells(src.sources, src.tables);
      assert Reads(cells[0]);
    case _ =>
  }

  lemma {:induction false} ElabAllReads(es: seq<Expr>, src: Scope, n: string)
    requires |src.sources| == 1 && src.aliases == [] && n in ColumnsOf(src.tables, src.sources[0].table)
    requires ElabAll(es, src, true).Some?
    ensures var cs := ElabAll(es, src, true).value;
      && AnyReads(cs) == (exists i | 0 <= i < |es| :: ReadsRow(es[i]))
      && forall i | 0 <= i < |cs| :: FromSource(cs[i], src.sources[0].Name())
    decreases es, 0
  {
    if es != [] {
      ElabReads(es[0], src, n);
      ElabAllReads(es[1..], src, n);
      var cs := ElabAll(es, src, true).value;
      assert cs[1..] == ElabAll(es[1..], src, true).value;
      assert AnyReads(cs) <==> Reads(cs[0]) || AnyReads(cs[1..]) by {
        assert forall i | 0 < i < |cs| :: cs[i] == cs[1..][i - 1];
      }
      assert (exists i | 0 <= i < |es| :: ReadsRow(es[i])) <==> ReadsRow(es[0]) || exists i | 0 <= i < |es[1..]| :: ReadsRow(es[1..][i]) by {
        assert forall i | 0 < i < |es| :: es[i] == es[1..][i - 1];
      }
    }
  }
}
