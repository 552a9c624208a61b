/** Exactly when a rank repair answers the asked top k. */
module RankExact {
  import opened Prelude
  import opened Orders
  import opened Sql
  import opened SqlFacts
  import opened ProjectionPlan
  import opened ProjectionMeaning
  import opened ClauseCritic
  import opened RepairContract
  import opened RankRepairMeaning
  import opened Marked

  // ---------------------------------------------------------- when every answer is a top k

  /** There always is an asked top k. */
  lemma SomeTopK(p: Plan, k: nat, source: string, column: string, descending: bool, db: Database, w: World) returns (other: seq<Context>)
    requires !p.grouped && !AnyFold(p.outputs) && p.having == None && p.limit == Some(IntLit(k)) && Plain(p)
    ensures TopK(p, k, source, column, descending, SourceRows(p, db, w), w, other)
  {
    var asked := p.(order := [SortKey(Src(source, column), descending, !descending)]);
    AnswerExists(asked, db, w);
    var some :| IsAnswer(asked, db, w, some);
    other :| Arrangement(asked, db, w, other) && some == Render(asked, Returned(asked, other, w), w);
    SortedTopK(asked, k, source, column, descending, db, w, other);
  }

  /** Outputs that show nothing let every answer pass for a top k. */
  lemma BlindTopK(p: Plan, k: nat, source: string, column: string, descending: bool, db: Database, w: World, answer: seq<seq<Value>>)
    requires !p.grouped && !AnyFold(p.outputs) && p.having == None && p.limit == Some(IntLit(k)) && Plain(p)
    requires !AnyReads(p.outputs) && IsAnswer(p, db, w, answer)
    ensures IsTopK(p, k, source, column, descending, SourceRows(p, db, w), w, answer)
  {
    var other := SomeTopK(p, k, source, column, descending, db, w);
    var arranged :| Arrangement(p, db, w, arranged) && answer == Render(p, Returned(p, arranged, w), w);
    RowByRow(p, k, db, w, arranged);
    BlindRender(p, Returned(p, arranged, w), Returned(p, other, w), w);
    assert TopK(p, k, source, column, descending, SourceRows(p, db, w), w, other);
  }

  lemma BlindRender(p: Plan, left: seq<Context>, right: seq<Context>, w: World)
    requires !AnyFold(p.outputs) && !AnyReads(p.outputs) && |left| == |right|
    ensures Render(p, left, w) == Render(p, right, w)
  {
    forall i | 0 <= i < |left| ensures RenderRow(p, left[i], w) == RenderRow(p, right[i], w) {
      BlindValues(p.outputs, left[i], BareRow(p, left[i], w), right[i], BareRow(p, right[i], w), w);
    }
  }

  /** Asked for no row, every answer is a top k. */
  lemma NoneAsked(p: Plan, source: string, column: string, descending: bool, db: Database, w: World, answer: seq<seq<Value>>)
    requires !p.grouped && !AnyFold(p.outputs) && p.having == None && p.limit == Some(IntLit(0)) && Plain(p) && IsAnswer(p, db, w, answer)
    ensures IsTopK(p, 0, source, column, descending, SourceRows(p, db, w), w, answer)
  {
    var arranged :| Arrangement(p, db, w, arranged) && answer == Render(p, Returned(p, arranged, w), w);
    RowByRow(p, 0, db, w, arranged);
    assert TopK(p, 0, source, column, descending, SourceRows(p, db, w), w, arranged);
  }

  // ------------------------------------------------------------- the beaten answer

  /** The record of metric `v`: with the mark, in all columns. */
  function Marking(v: Value, m: Value, columns: set<string>, column: string): Record {
    if v == m then map n | n in columns + {column} :: m else map[column := v]
  }

  /** `k` records of metric `a`, then one of metric `b`. */
  function OneBetter(k: nat, a: Value, b: Value, m: Value, columns: set<string>, column: string): seq<Record> {
    seq(k, i => Marking(a, m, columns, column)) + [Marking(b, m, columns, column)]
  }

  lemma MarkingMetric(v: Value, m: Value, columns: set<string>, column: string, s: string)
    ensures var r := Bind(s, Marking(v, m, columns, column));
      && (s, column) in r && r[(s, column)] == v
      && (v == m ==> forall n | n in columns :: (s, n) in r && r[(s, n)] == m)
      && (v != m ==> forall k | k in r :: r[k] != m)
  {
    var d := Marking(v, m, columns, column);
    BindCell(s, d, column);
    forall n | n in columns && v == m ensures (s, n) in Bind(s, d) && Bind(s, d)[(s, n)] == m { BindCell(s, d, n); }
  }

  /** An output that reads something tells a marked row from a plain one. */
  lemma OutputTells(c: Core, s: string, a: Value, b: Value, k: real, columns: set<string>, column: string)
    requires FromSource(c, s) && Reads(c) && k > 1.0 && Avoids(c, Num(k)) && Columns(c) <= columns
    requires (a == Num(k)) != (b == Num(k))
    ensures var x, y := Bind(s, Marking(a, Num(k), columns, column)), Bind(s, Marking(b, Num(k), columns, column));
      Eval(c, [x], x, MarkWorld(Num(k))) != Eval(c, [y], y, MarkWorld(Num(k)))
  {
    var x, y := Bind(s, Marking(a, Num(k), columns, column)), Bind(s, Marking(b, Num(k), columns, column));
    MarkingMetric(a, Num(k), columns, column, s);
    MarkingMetric(b, Num(k), columns, column, s);
    MarkedValue(c, x, k);
    MarkedValue(c, y, k);
    if a == Num(k) { AllMarked(c, x, s, Num(k)); NoneMarked(c, y, Num(k)); }
    else { AllMarked(c, y, s, Num(k)); NoneMarked(c, x, Num(k)); }
  }

  /** Rows of one source sorted by a key that puts `a` before the better `b`. */
  ghost predicate Misordered(p: Plan, k: nat, s: string, column: string, descending: bool, a: Value, b: Value) {
    && !p.grouped && !AnyFold(p.outputs) && p.having == None && p.limit == Some(IntLit(k)) && Plain(p)
    && |p.joins| == 1 && p.joins[0].source == s
    && p.order != [] && p.order[0].core == Src(s, column)
    && Before(p.order[0], a, b) && Better(b, a, descending)
  }

  /** The records as stored are in order. */
  lemma StoredInOrder(p: Plan, k: nat, s: string, column: string, descending: bool, a: Value, b: Value, x: Row, y: Row, w: World)
    requires Misordered(p, k, s, column, descending, a, b)
    requires (s, column) in x && x[(s, column)] == a && (s, column) in y && y[(s, column)] == b
    ensures InOrder(p, seq(k, i => [x]) + [[y]], w)
  {
    var arranged := seq(k, i => [x]) + [[y]];
    PrecedesAsymmetric(p, 0, [x], [x], w);
    BeforeTotal(p.order[0], a, b);
    assert CoreValue(p, p.order[0].core, [x], w) == a && CoreValue(p, p.order[0].core, [y], w) == b;
    assert !Precedes(p, 0, [y], [x], w);
  }

  /** A top k of those rows returns the one better row. */
  lemma TopKHasBest(p: Plan, k: nat, s: string, column: string, descending: bool, a: Value, b: Value, x: Row, y: Row, w: World,
                    arranged: seq<Context>) returns (j: nat)
    requires Misordered(p, k, s, column, descending, a, b) && k >= 1
    requires (s, column) in x && x[(s, column)] == a && (s, column) in y && y[(s, column)] == b
    requires TopK(p, k, s, column, descending, seq(k, i => x) + [y], w, arranged)
    ensures j < |Returned(p, arranged, w)| && Returned(p, arranged, w)[j] == [y]
  {
    var population := seq(k, i => x) + [y];
    BeforeTotal(p.order[0], a, b);
    assert Singletons(population)[k] == [y];
    SameSize(Singletons(population), arranged);
    SameSize(arranged, Singletons(population));
    assert [y] in Singletons(population);
    assert forall z | z in Singletons(population) :: z == [x] || z == [y];
    assert arranged[0] in Singletons(population);
    if arranged[0] == [y] {
      j := 0;
    } else {
      j :| 0 <= j < |arranged| && arranged[j] == [y];
      assert Metric([y], s, column) == b && Metric([x], s, column) == a;
    }
  }

  lemma AnswerHasBest(p: Plan, k: nat, s: string, column: string, descending: bool, a: Value, b: Value, x: Row, y: Row, w: World,
                      answer: seq<seq<Value>>)
    requires Misordered(p, k, s, column, descending, a, b) && k >= 1
    requires (s, column) in x && x[(s, column)] == a && (s, column) in y && y[(s, column)] == b
    requires IsTopK(p, k, s, column, descending, seq(k, i => x) + [y], w, answer)
    ensures RenderRow(p, [y], w) in answer
  {
    var arranged :| answer == Render(p, Returned(p, arranged, w), w)
                    && TopK(p, k, s, column, descending, seq(k, i => x) + [y], w, arranged);
    var j := TopKHasBest(p, k, s, column, descending, a, b, x, y, w, arranged);
    assert answer[j] == RenderRow(p, [y], w);
  }

  /** The planned statement returns the `k` worse rows. */
  lemma WorseReturned(p: Plan, k: nat, s: string, column: string, descending: bool, a: Value, b: Value, x: Row, y: Row,
                      db: Database, w: World)
    requires Misordered(p, k, s, column, descending, a, b)
    requires (s, column) in x && x[(s, column)] == a && (s, column) in y && y[(s, column)] == b
    requires SourceRows(p, db, w) == seq(k, i => x) + [y]
    ensures IsAnswer(p, db, w, seq(k, i => RenderRow(p, [x], w)))
  {
    var arranged := seq(k, i => [x]) + [[y]];
    assert Singletons(SourceRows(p, db, w)) == arranged;
    StoredInOrder(p, k, s, column, descending, a, b, x, y, w);
    RowsAnswer(p, k, arranged, db, w);
    assert arranged[..k] == seq(k, i => [x]);
    assert Render(p, arranged[..k], w) == seq(k, i => RenderRow(p, [x], w));
  }

  /** The stored rows in order: the first `k` are an answer. */
  lemma RowsAnswer(p: Plan, k: nat, arranged: seq<Context>, db: Database, w: World)
    requires !p.grouped && !AnyFold(p.outputs) && p.having == None && p.limit == Some(IntLit(k)) && Plain(p) && k < |arranged|
    requires arranged == Singletons(SourceRows(p, db, w)) && InOrder(p, arranged, w)
    ensures IsAnswer(p, db, w, Render(p, arranged[..k], w))
  {
    HavingNone(p, arranged, w);
    PlainArrangement(p, db, w, arranged);
    PlainReturned(p, arranged, w);
    assert Returned(p, arranged, w) == arranged[..k];
  }

  lemma StoredRows(p: Plan, k: nat, a: Value, b: Value, m: Value, columns: set<string>, column: string, w: World)
    requires Accepts(w) && |p.joins| == 1
    ensures var s := p.joins[0].source;
      SourceRows(p, map[p.joins[0].table := OneBetter(k, a, b, m, columns, column)], w)
      == seq(k, i => Bind(s, Marking(a, m, columns, column))) + [Bind(s, Marking(b, m, columns, column))]
  {
    var s := p.joins[0].source;
    var db: Database := map[p.joins[0].table := OneBetter(k, a, b, m, columns, column)];
    AcceptedSource(p, db, w);
    assert BindAll(s, OneBetter(k, a, b, m, columns, column))
        == seq(k, i => Bind(s, Marking(a, m, columns, column))) + [Bind(s, Marking(b, m, columns, column))];
  }

  /** The answer of `k` rows of value `a`, and whether an output tells the two values apart. */
  ghost predicate Told(c: Core, s: string, a: Value, b: Value, m: Value, columns: set<string>, column: string, w: World) {
    var x, y := Bind(s, Marking(a, m, columns, column)), Bind(s, Marking(b, m, columns, column));
    Eval(c, [x], x, w) != Eval(c, [y], y, w)
  }

  /** A key that puts a worse value first, an output that tells the two values apart and a
      positive count: in a world whose conditions hold, on some database SQLite may return
      an answer that is no asked top k. */
  lemma MisorderedBetrays(p: Plan, k: nat, s: string, column: string, descending: bool, a: Value, b: Value, m: Value,
                          columns: set<string>, o: nat, w: World) returns (db: Database, answer: seq<seq<Value>>)
    requires Misordered(p, k, s, column, descending, a, b) && k >= 1 && Accepts(w)
    requires o < |p.outputs| && Told(p.outputs[o], s, a, b, m, columns, column, w)
    ensures IsAnswer(p, db, w, answer) && !IsTopK(p, k, s, column, descending, SourceRows(p, db, w), w, answer)
  {
    db := map[p.joins[0].table := OneBetter(k, a, b, m, columns, column)];
    var x, y := Bind(s, Marking(a, m, columns, column)), Bind(s, Marking(b, m, columns, column));
    StoredRows(p, k, a, b, m, columns, column, w);
    MarkingMetric(a, m, columns, column, s);
    MarkingMetric(b, m, columns, column, s);
    WorseReturned(p, k, s, column, descending, a, b, x, y, db, w);
    answer := seq(k, i => RenderRow(p, [x], w));
    RowsTold(p, x, y, o, w);
    assert forall z | z in answer :: z == RenderRow(p, [x], w);
    if IsTopK(p, k, s, column, descending, SourceRows(p, db, w), w, answer) {
      AnswerHasBest(p, k, s, column, descending, a, b, x, y, w, answer);
    }
  }

  lemma RowsTold(p: Plan, x: Row, y: Row, o: nat, w: World)
    requires o < |p.outputs| && Eval(p.outputs[o], [x], x, w) != Eval(p.outputs[o], [y], y, w)
    ensures RenderRow(p, [x], w) != RenderRow(p, [y], w)
  {
    OneRow(p, x, w);
    OneRow(p, y, w);
    EvalAt(p.outputs, [x], x, w, o);
    EvalAt(p.outputs, [y], y, w, o);
    assert RenderRow(p, [x], w)[o] != RenderRow(p, [y], w)[o];
  }

  /** A plain column tells them apart in every world. */
  lemma ColumnTells(s: string, n: string, a: Value, b: Value, m: Value, columns: set<string>, column: string, w: World)
    requires n in columns && (a == m) != (b == m) && m != Null
    ensures Told(Src(s, n), s, a, b, m, columns, column, w)
  {
    MarkingMetric(a, m, columns, column, s);
    MarkingMetric(b, m, columns, column, s);
  }

  // ---------------------------------------------------------------------- the theorem

  /** Every answer of the planned statement, on every database, is an asked top k. */
  ghost predicate AlwaysTopK(p: Plan, k: nat, s: string, column: string, descending: bool) {
    forall db, w, answer | IsAnswer(p, db, w, answer) :: IsTopK(p, k, s, column, descending, SourceRows(p, db, w), w, answer)
  }

  /** A sort key on the metric that is not the asked one, and two values it misorders. */
  lemma MisorderedValues(key: SortKey, descending: bool, mark: real) returns (a: Value, b: Value)
    requires key.desc != descending || key.nullsFirst == descending
    ensures Before(key, a, b) && Better(b, a, descending) && (a == Num(mark)) != (b == Num(mark))
  {
    if key.desc != descending {
      b := Num(mark);
      a := Num(if descending then mark - 1.0 else mark + 1.0);
    } else if descending {
      a, b := Null, Num(mark);
    } else {
      a, b := Num(mark), Null;
    }
  }

  lemma WrongKeyBetrays(p: Plan, k: nat, s: string, column: string, descending: bool, o: nat)
    requires !p.grouped && !AnyFold(p.outputs) && p.having == None && p.limit == Some(IntLit(k)) && Plain(p) && k >= 1
    requires |p.joins| == 1 && p.joins[0].source == s && p.order != [] && p.order[0].core == Src(s, column)
    requires p.order[0].desc != descending || p.order[0].nullsFirst == descending
    requires o < |p.outputs| && Reads(p.outputs[o]) && FromSource(p.outputs[o], s)
    ensures !AlwaysTopK(p, k, s, column, descending)
  {
    var top := Top(p.outputs[o]);
    var mark := if top > 1.0 then top + 1.0 else 2.0;
    AboveTop(p.outputs[o], mark);
    var a, b := MisorderedValues(p.order[0], descending, mark);
    OutputTells(p.outputs[o], s, a, b, mark, Columns(p.outputs[o]), column);
    var db, answer := MisorderedBetrays(p, k, s, column, descending, a, b, Num(mark), Columns(p.outputs[o]), o, MarkWorld(Num(mark)));
  }

  /** The same in every world whose conditions hold, when an output is a plain column. */
  lemma WrongKeyBetraysIn(p: Plan, k: nat, s: string, column: string, descending: bool, n: string, o: nat, w: World)
    returns (db: Database, answer: seq<seq<Value>>)
    requires !p.grouped && !AnyFold(p.outputs) && p.having == None && p.limit == Some(IntLit(k)) && Plain(p) && k >= 1
    requires |p.joins| == 1 && p.joins[0].source == s && p.order != [] && p.order[0].core == Src(s, column)
    requires p.order[0].desc != descending || p.order[0].nullsFirst == descending
    requires o < |p.outputs| && p.outputs[o] == Src(s, n) && Accepts(w)
    ensures IsAnswer(p, db, w, answer) && !IsTopK(p, k, s, column, descending, SourceRows(p, db, w), w, answer)
  {
    var a, b := MisorderedValues(p.order[0], descending, 2.0);
    ColumnTells(s, n, a, b, Num(2.0), {n}, column, w);
    db, answer := MisorderedBetrays(p, k, s, column, descending, a, b, Num(2.0), {n}, o, w);
  }

  /** The parts of a planned statement that the exact condition needs. */
  lemma PlannedShape(question: Question, words: string -> set<string>, q: Select, cat: Catalog)
    requires ContractOf(question, words, q, cat).Some? && q.sources[0].Name() != ""
    requires Compile(q, cat).Some? && DistinctTables(cat.tables)
    ensures var c := ContractOf(question, words, q, cat).value;
      && Compile(c.planned, cat).Some? && HasDirection(question)
      && var p := Compile(c.planned, cat).value;
      && !p.grouped && !AnyFold(p.outputs) && p.having == None && p.limit == Some(IntLit(question.rank.value.count)) && Plain(p)
      && |p.joins| == 1 && p.joins[0].source == q.sources[0].Name()
      && p.order != [] && p.order[0].core == Src(q.sources[0].Name(), c.metric.1)
      && (OrderAsked(question, words, q, cat) <==>
            p.order[0].desc == AskedDirection(question) && p.order[0].nullsFirst == !AskedDirection(question))
  {
    PlannedPlan(question, words, q, cat);
    PlannedNulls(question, words, q, cat);
    PlannedDirection(question, words, q, cat);
    NoFolds(q, cat);
  }

  /** The outputs of the draft show rows exactly when its compiled outputs do. */
  lemma ShownOutputs(question: Question, words: string -> set<string>, q: Select, cat: Catalog)
    requires ContractOf(question, words, q, cat).Some? && q.sources[0].Name() != ""
    requires Compile(q, cat).Some? && DistinctTables(cat.tables)
    ensures var outputs := Compile(q, cat).value.outputs;
      && (AnyReads(outputs) <==> ShowsRows(q))
      && forall i | 0 <= i < |outputs| :: FromSource(outputs[i], q.sources[0].Name())
  {
    var c := ContractOf(question, words, q, cat).value;
    MetricColumn(cat.tables, question.words, words, c.metric);
    assert forall i | 0 <= i < |q.items| :: Values(q.items)[i] == q.items[i].value && !HasAgg(q.items[i].value);
    ElabAllReads(Values(q.items), SourceScope(q, cat), c.metric.1);
  }

  /** A rank repair answers the asked top k on every database if and only if the planned
      order is the asked one, or no row is asked for, or the outputs show nothing of a
      row; all of it can be read off the question and the draft. */
  lemma RankRepairExactly(question: Question, words: string -> set<string>, q: Select, cat: Catalog)
    requires ContractOf(question, words, q, cat).Some? && q.sources[0].Name() != ""
    requires Compile(q, cat).Some? && DistinctTables(cat.tables)
    ensures var c := ContractOf(question, words, q, cat).value;
      && Compile(c.planned, cat).Some? && HasDirection(question)
      && (AlwaysTopK(Compile(c.planned, cat).value, question.rank.value.count, q.sources[0].Name(), c.metric.1, AskedDirection(question))
          <==> OrderAsked(question, words, q, cat) || question.rank.value.count == 0 || !ShowsRows(q))
  {
    var c := ContractOf(question, words, q, cat).value;
    var k, s := question.rank.value.count, q.sources[0].Name();
    PlannedShape(question, words, q, cat);
    PlannedPlan(question, words, q, cat);
    ShownOutputs(question, words, q, cat);
    var p := Compile(c.planned, cat).value;
    var asked := AskedDirection(question);
    if OrderAsked(question, words, q, cat) || k == 0 || !ShowsRows(q) {
      forall db, w, answer | IsAnswer(p, db, w, answer) ensures IsTopK(p, k, s, c.metric.1, asked, SourceRows(p, db, w), w, answer) {
        if k == 0 { NoneAsked(p, s, c.metric.1, asked, db, w, answer); }
        else if !ShowsRows(q) { BlindTopK(p, k, s, c.metric.1, asked, db, w, answer); }
        else { RankRepairTopK(question, words, q, cat, db, w, answer); }
      }
    } else {
      var o :| 0 <= o < |p.outputs| && Reads(p.outputs[o]);
      WrongKeyBetrays(p, k, s, c.metric.1, asked, o);
    }
  }

  /** When an output is a plain column, the other direction needs no choice of SQLite's
      operators: in every world whose conditions hold, a planned order that is not the
      asked one returns, on some database, rows that are no asked top k. */
  lemma RankRepairFailsIn(question: Question, words: string -> set<string>, q: Select, cat: Catalog, i: nat, w: World)
    returns (db: Database, answer: seq<seq<Value>>)
    requires ContractOf(question, words, q, cat).Some? && q.sources[0].Name() != ""
    requires Compile(q, cat).Some? && DistinctTables(cat.tables)
    requires !OrderAsked(question, words, q, cat) && question.rank.value.count > 0
    requires i < |q.items| && q.items[i].value.Column? && Accepts(w)
    ensures var c := ContractOf(question, words, q, cat).value;
      && Compile(c.planned, cat).Some? && HasDirection(question)
      && var p := Compile(c.planned, cat).value;
      && IsAnswer(p, db, w, answer)
      && !IsTopK(p, question.rank.value.count, q.sources[0].Name(), c.metric.1, AskedDirection(question), SourceRows(p, db, w), w, answer)
  {
    var c := ContractOf(question, words, q, cat).value;
    PlannedShape(question, words, q, cat);
    PlannedPlan(question, words, q, cat);
    ShownOutputs(question, words, q, cat);
    var p := Compile(c.planned, cat).value;
    ElabEach(Values(q.items), SourceScope(q, cat), p.outputs, i);
    db, answer := WrongKeyBetraysIn(p, question.rank.value.count, q.sources[0].Name(), c.metric.1, AskedDirection(question),
                                    p.outputs[i].column, i, w);
  }
}
