/** Exactly when dropping outputs keeps the meaning of a grouped statement. */
module ProjectionExact {
  import opened Prelude
  import opened Sql
  import opened SqlFacts
  import opened OutputContract
  import opened ProjectionPlan
  import opened ProjectionMeaning
  import opened GroupRankMeaning
  import opened Marked

  ghost predicate Joined(r: Row, lefts: seq<Row>, j: JoinPlan, records: seq<Record>) {
    exists l, d :: l in lefts && d in records && r == l + Bind(j.source, d)
  }

  lemma {:induction false} ProductMembers(lefts: seq<Row>, j: JoinPlan, records: seq<Record>, w: World)
    requires Accepts(w) && records != []
    ensures forall r :: r in JoinOne(lefts, j, records, w) <==> Joined(r, lefts, j, records)
    ensures lefts != [] ==> JoinOne(lefts, j, records, w) != []
  {
    if lefts != [] {
      AcceptedMatches(lefts[0], j, records, w);
      ProductMembers(lefts[1..], j, records, w);
      var found := Matches(lefts[0], j, records, w);
      assert found[0] in found;
      forall r ensures r in JoinOne(lefts, j, records, w) <==> Joined(r, lefts, j, records) {
        if r in found {
          var i :| 0 <= i < |found| && found[i] == r;
          assert lefts[0] in lefts && records[i] in records && r == lefts[0] + Bind(j.source, records[i]);
        }
        if Joined(r, lefts, j, records) {
          var l, d :| l in lefts && d in records && r == l + Bind(j.source, d);
          if l == lefts[0] {
            var i :| 0 <= i < |records| && records[i] == d;
            assert found[i] == r;
          } else {
            assert l in lefts[1..];
          }
        }
        if r in JoinOne(lefts[1..], j, records, w) {
          var l, d :| l in lefts[1..] && d in records && r == l + Bind(j.source, d);
          assert l in lefts;
        }
      }
    }
  }

  // --------------------------------------------------- a column varying in each group

  const ONE := Num(1.0)
  const TWO := Num(2.0)

  /** Two records that differ in column `c` in table `t`, one empty record elsewhere. */
  function Varying(joins: seq<JoinPlan>, t: string, c: string): Database {
    map j | j in joins :: j.table := if j.table == t then [map[c := ONE], map[c := TWO]] else [map[]]
  }

  /** Rows come in variants of the cell. */
  ghost predicate Varied(rows: seq<Row>, cell: (string, string)) {
    forall r | r in rows && cell in r :: r[cell := ONE] in rows && r[cell := TWO] in rows
  }

  ghost predicate AllHave(rows: seq<Row>, cell: (string, string)) { forall r | r in rows :: cell in r }

  lemma OneCell(source: string, c: string, v: Value)
    ensures Bind(source, map[c := v]) == map[(source, c) := v]
  {
    BindCell(source, map[c := v], c);
  }

  lemma NoCell(source: string)
    ensures Bind(source, map[]) == map[]
  {
  }

  lemma EmptyVariant(lefts: seq<Row>, j: JoinPlan, l: Row, v: Value, cell: (string, string))
    requires Varied(lefts, cell) && l in lefts && cell in l && (v == ONE || v == TWO)
    ensures Joined(l[cell := v], lefts, j, [map[]])
  {
    NoCell(j.source);
    var d: Record := map[];
    assert d in [d] && l[cell := v] in lefts;
    assert l[cell := v] + Bind(j.source, d) == l[cell := v];
  }

  /** The varying table under the name `s` itself: the new cell overrides. */
  lemma OwnVariant(lefts: seq<Row>, j: JoinPlan, l: Row, u: Value, v: Value, c: string)
    requires l in lefts && (v == ONE || v == TWO)
    ensures Joined((l + Bind(j.source, map[c := u]))[(j.source, c) := v], lefts, j, [map[c := ONE], map[c := TWO]])
  {
    OneCell(j.source, c, u);
    OneCell(j.source, c, v);
    Overridden(l, (j.source, c), u, v);
    var records: seq<Record> := [map[c := ONE], map[c := TWO]];
    assert records[0] == map[c := ONE] && records[1] == map[c := TWO];
    var d: Record := map[c := v];
    assert d in records;
  }

  lemma Overridden(l: Row, cell: (string, string), u: Value, v: Value)
    ensures (l + map[cell := u])[cell := v] == l + map[cell := v]
  {
  }

  /** The varying table under another name: the cell came from the left. */
  lemma OtherVariant(lefts: seq<Row>, j: JoinPlan, l: Row, d: Record, v: Value, s: string, c: string)
    requires Varied(lefts, (s, c)) && l in lefts && j.source != s && (v == ONE || v == TWO)
    requires d == map[c := ONE] || d == map[c := TWO]
    requires (s, c) in l + Bind(j.source, d)
    ensures Joined((l + Bind(j.source, d))[(s, c) := v], lefts, j, [map[c := ONE], map[c := TWO]])
  {
    OneCell(j.source, c, d[c]);
    var records: seq<Record> := [map[c := ONE], map[c := TWO]];
    assert records[0] == map[c := ONE] && records[1] == map[c := TWO];
    assert (s, c) in l && l[(s, c) := v] in lefts;
    assert (l + Bind(j.source, d))[(s, c) := v] == l[(s, c) := v] + Bind(j.source, d);
    assert d in records;
  }

  /** A variant of a joined row is a joined row. */
  lemma JoinVariant(lefts: seq<Row>, j: JoinPlan, l: Row, d: Record, v: Value, s: string, c: string)
    requires Varied(lefts, (s, c)) && l in lefts && (s, c) in l + Bind(j.source, d) && (v == ONE || v == TWO)
    requires d == map[c := ONE] || d == map[c := TWO]
    ensures Joined((l + Bind(j.source, d))[(s, c) := v], lefts, j, [map[c := ONE], map[c := TWO]])
  {
    if j.source == s {
      assert d == map[c := d[c]];
      OwnVariant(lefts, j, l, d[c], v, c);
    } else {
      OtherVariant(lefts, j, l, d, v, s, c);
    }
  }

  lemma OneOfTwo(d: Record, c: string)
    requires d in [map[c := ONE], map[c := TWO]]
    ensures d == map[c := ONE] || d == map[c := TWO]
  {
  }

  lemma JoinedVaried(lefts: seq<Row>, j: JoinPlan, r: Row, v: Value, s: string, c: string)
    requires Varied(lefts, (s, c)) && (s, c) in r && (v == ONE || v == TWO)
    requires Joined(r, lefts, j, [map[c := ONE], map[c := TWO]])
    ensures Joined(r[(s, c) := v], lefts, j, [map[c := ONE], map[c := TWO]])
  {
    var l, d :| l in lefts && d in [map[c := ONE], map[c := TWO]] && r == l + Bind(j.source, d);
    OneOfTwo(d, c);
    JoinVariant(lefts, j, l, d, v, s, c);
  }

  lemma JoinedEmpty(lefts: seq<Row>, j: JoinPlan, r: Row, v: Value, s: string, c: string)
    requires Varied(lefts, (s, c)) && (s, c) in r && (v == ONE || v == TWO) && Joined(r, lefts, j, [map[]])
    ensures Joined(r[(s, c) := v], lefts, j, [map[]])
  {
    var none: Record := map[];
    var l, d :| l in lefts && d in [none] && r == l + Bind(j.source, d);
    NoCell(j.source);
    assert r == l;
    EmptyVariant(lefts, j, l, v, (s, c));
  }

  lemma JoinedHas(lefts: seq<Row>, j: JoinPlan, records: seq<Record>, r: Row, t: string, s: string, c: string)
    requires Joined(r, lefts, j, records) && (AllHave(lefts, (s, c)) || (j.table == t && j.source == s))
    requires records == if j.table == t then [map[c := ONE], map[c := TWO]] else [map[]]
    ensures (s, c) in r
  {
    var l, d :| l in lefts && d in records && r == l + Bind(j.source, d);
    if (s, c) !in l {
      assert c in d;
      BindCell(j.source, d, c);
    }
  }

  lemma JoinVaried(lefts: seq<Row>, j: JoinPlan, records: seq<Record>, w: World, t: string, s: string, c: string)
    requires Accepts(w) && Varied(lefts, (s, c)) && lefts != []
    requires records == if j.table == t then [map[c := ONE], map[c := TWO]] else [map[]]
    ensures var rows := JoinOne(lefts, j, records, w);
      && rows != [] && Varied(rows, (s, c))
      && (AllHave(lefts, (s, c)) || (j.table == t && j.source == s) ==> AllHave(rows, (s, c)))
  {
    var rows := JoinOne(lefts, j, records, w);
    ProductMembers(lefts, j, records, w);
    forall r | r in rows && (s, c) in r ensures r[(s, c) := ONE] in rows && r[(s, c) := TWO] in rows {
      if j.table == t {
        JoinedVaried(lefts, j, r, ONE, s, c);
        JoinedVaried(lefts, j, r, TWO, s, c);
      } else {
        JoinedEmpty(lefts, j, r, ONE, s, c);
        JoinedEmpty(lefts, j, r, TWO, s, c);
      }
    }
    if AllHave(lefts, (s, c)) || (j.table == t && j.source == s) {
      forall r | r in rows ensures (s, c) in r { JoinedHas(lefts, j, records, r, t, s, c); }
    }
  }

  lemma {:induction false} ProductVaried(lefts: seq<Row>, joins: seq<JoinPlan>, db: Database, w: World, t: string, s: string, c: string)
    requires Accepts(w) && Varied(lefts, (s, c)) && lefts != []
    requires forall j | j in joins :: j.table in db && db[j.table] == if j.table == t then [map[c := ONE], map[c := TWO]] else [map[]]
    requires AllHave(lefts, (s, c)) || exists j :: j in joins && j.table == t && j.source == s
    ensures var rows := JoinAll(lefts, joins, db, w); rows != [] && Varied(rows, (s, c)) && AllHave(rows, (s, c))
    decreases |joins|
  {
    if joins != [] {
      JoinVaried(lefts, joins[0], db[joins[0].table], w, t, s, c);
      ProductVaried(JoinOne(lefts, joins[0], db[joins[0].table], w), joins[1..], db, w, t, s, c);
    }
  }

  // ------------------------------------------------------------- the two bare rows

  function FirstWith(x: Context, cell: (string, string), v: Value): nat {
    if x == [] then 0 else if cell in x[0] && x[0][cell] == v then 0 else 1 + FirstWith(x[1..], cell, v)
  }

  lemma {:induction false} FirstWithFinds(x: Context, cell: (string, string), v: Value)
    requires exists r :: r in x && cell in r && r[cell] == v
    ensures FirstWith(x, cell, v) < |x| && cell in x[FirstWith(x, cell, v)] && x[FirstWith(x, cell, v)][cell] == v
  {
    if !(cell in x[0] && x[0][cell] == v) {
      var r :| r in x && cell in r && r[cell] == v;
      assert r in x[1..];
      FirstWithFinds(x[1..], cell, v);
    }
  }

  /** The bare row shows ONE under the aggregates `fs`, and TWO under all others. */
  ghost function SplitWorld(fs: set<Core>, cell: (string, string)): World {
    World((op, vs) => Null, (fn, vs) => Null, v => true, e => None, (gs: set<Core>, x: Context) => FirstWith(x, cell, if gs == fs then ONE else TWO))
  }

  /** With constant operators a key that is not the varying cell does not vary. */
  lemma {:induction false} KeysSteady(keys: seq<Core>, r: Row, cell: (string, string), v: Value, w: World)
    requires forall op, vs :: w.op(op, vs) == Null
    requires !AnyFold(keys) && Src(cell.0, cell.1) !in keys
    ensures GroupKey(keys, r[cell := v], w) == GroupKey(keys, r, w)
  {
    if keys != [] {
      AnyFoldCons(keys);
      var a := r[cell := v];
      KeySteady(keys[0], r, cell, v, w);
      KeysSteady(keys[1..], r, cell, v, w);
      RestOfKey(keys, a, w);
      RestOfKey(keys, r, w);
    }
  }

  lemma KeySteady(c: Core, r: Row, cell: (string, string), v: Value, w: World)
    requires (forall op, vs :: w.op(op, vs) == Null) && !HasFold(c) && c != Src(cell.0, cell.1)
    ensures Eval(c, [r[cell := v]], r[cell := v], w) == Eval(c, [r], r, w)
  {
  }

  /** The key of a row is made of the values of its parts, read from that row alone. */
  lemma {:induction false} RestOfKey(keys: seq<Core>, r: Row, w: World)
    requires keys != []
    ensures GroupKey(keys, r, w) == [Eval(keys[0], [r], r, w)] + GroupKey(keys[1..], r, w)
  {
  }

  /** Every group holds a row with ONE and a row with TWO. */
  lemma GroupVaries(rows: seq<Row>, keys: seq<Core>, x: Context, cell: (string, string), v: Value, w: World)
    requires forall op, vs :: w.op(op, vs) == Null
    requires !AnyFold(keys) && Src(cell.0, cell.1) !in keys && Varied(rows, cell) && AllHave(rows, cell) && (v == ONE || v == TWO)
    requires |x| > 0 && x[0] in rows && x == WithKey(rows, keys, GroupKey(keys, x[0], w), true, w)
    ensures FirstWith(x, cell, v) < |x| && cell in x[FirstWith(x, cell, v)] && x[FirstWith(x, cell, v)][cell] == v
  {
    var r := x[0][cell := v];
    assert r in rows;
    KeysSteady(keys, x[0], cell, v, w);
    WithKeyRows(rows, keys, GroupKey(keys, x[0], w), true, w);
    assert r in x && r[cell] == v;
    FirstWithFinds(x, cell, v);
  }

  /** What a plan shows in the cell. */
  ghost predicate Shows(p: Plan, db: Database, w: World, cell: (string, string), v: Value) {
    forall x | x in Population(p, db, w) :: Eval(Src(cell.0, cell.1), x, BareRow(p, x, w), w) == v
  }

  /** The rows of the varying database, and their groups. */
  lemma SplitGroups(p: Plan, fs: set<Core>, t: string, s: string, c: string)
    requires p.grouped && exists j :: j in p.joins && j.table == t && j.source == s
    ensures var w, db := SplitWorld(fs, (s, c)), Varying(p.joins, t, c);
      var rows := SourceRows(p, db, w);
      && Varied(rows, (s, c)) && AllHave(rows, (s, c))
      && Population(p, db, w) == Groups(rows, p.group, w) != []
      && WholeGroups(Groups(rows, p.group, w), rows, p.group, w)
  {
    var w, db := SplitWorld(fs, (s, c)), Varying(p.joins, t, c);
    var none: Row := map[];
    ProductVaried([none], p.joins, db, w, t, s, c);
    var rows := JoinAll([none], p.joins, db, w);
    AcceptedRows(rows, p.where, w);
    GroupsComplete(rows, p.group, w);
    AcceptedContexts(p, Groups(rows, p.group, w), w);
  }

  lemma SplitShows(p: Plan, fs: set<Core>, t: string, s: string, c: string)
    requires p.grouped && !AnyFold(p.group) && Src(s, c) !in p.group
    requires exists j :: j in p.joins && j.table == t && j.source == s
    ensures var w, db := SplitWorld(fs, (s, c)), Varying(p.joins, t, c);
      Population(p, db, w) != [] && Shows(p, db, w, (s, c), if PlanFolds(p) == fs then ONE else TWO)
  {
    var w, db := SplitWorld(fs, (s, c)), Varying(p.joins, t, c);
    SplitGroups(p, fs, t, s, c);
    var rows := SourceRows(p, db, w);
    var xs := Groups(rows, p.group, w);
    var v := if PlanFolds(p) == fs then ONE else TWO;
    forall x | x in Population(p, db, w) ensures Eval(Src(s, c), x, BareRow(p, x, w), w) == v {
      var i :| 0 <= i < |xs| && xs[i] == x;
      GroupShows(p, rows, x, (s, c), v, w);
    }
  }

  lemma GroupShows(p: Plan, rows: seq<Row>, x: Context, cell: (string, string), v: Value, w: World)
    requires forall op, vs :: w.op(op, vs) == Null
    requires !AnyFold(p.group) && Src(cell.0, cell.1) !in p.group && Varied(rows, cell) && AllHave(rows, cell) && (v == ONE || v == TWO)
    requires |x| > 0 && x[0] in rows && x == WithKey(rows, p.group, GroupKey(p.group, x[0], w), true, w)
    requires w.pick(PlanFolds(p), x) == FirstWith(x, cell, v)
    ensures Eval(Src(cell.0, cell.1), x, BareRow(p, x, w), w) == v
  {
    GroupVaries(rows, p.group, x, cell, v, w);
    PickedRow(p, x, w, FirstWith(x, cell, v));
  }

  lemma PickedRow(p: Plan, x: Context, w: World, i: nat)
    requires i < |x| && w.pick(PlanFolds(p), x) == i
    ensures BareRow(p, x, w) == x[i]
  {
    SmallRemainder(i, |x|);
  }

  lemma SmallRemainder(i: nat, n: nat)
    requires i < n
    ensures i % n == i
  {
  }

  // ------------------------------------------------------------------ the theorem

  /** The plan with the outputs of `mask` answers just what the plan answers without the others. */
  ghost predicate KeepsMeaning(p: Plan, mask: seq<bool>)
    requires |mask| == |p.outputs|
  {
    forall db, w, answer ::
      IsAnswer(p.(outputs := Pick(p.outputs, mask)), db, w, answer) <==> exists full :: IsAnswer(p, db, w, full) && DropsTo(full, mask, answer)
  }

  /** Every answer of `p` shows `v` in output `j` of its first row, and has one. */
  lemma AnswerShows(p: Plan, db: Database, w: World, cell: (string, string), v: Value, cs: seq<Core>, j: nat, answer: seq<seq<Value>>)
    returns (x: Context)
    requires Plain(p) && p.limit != Some(IntLit(0)) && (forall e :: w.limit(e) == None)
    requires Population(p, db, w) != [] && Shows(p, db, w, cell, v) && IsAnswer(p, db, w, answer)
    requires j < |cs| && cs[j] == Src(cell.0, cell.1)
    ensures |answer| > 0 && answer[0] == RenderRow(p, x, w) && EvalAll(cs, x, BareRow(p, x, w), w)[j] == v
  {
    var arranged :| Arrangement(p, db, w, arranged) && answer == Render(p, Returned(p, arranged, w), w);
    PlainArrangement(p, db, w, arranged);
    PlainReturned(p, arranged, w);
    assert |arranged| == |multiset(arranged)| == |multiset(Population(p, db, w))| > 0;
    x := arranged[0];
    assert x in multiset(arranged);
    assert x in Population(p, db, w);
    assert Returned(p, arranged, w)[0] == x;
    EvalAt(cs, x, BareRow(p, x, w), w, j);
  }

  lemma FirstDropped(full: seq<seq<Value>>, mask: seq<bool>, answer: seq<seq<Value>>)
    requires DropsTo(full, mask, answer)
    ensures |full| > 0 ==> |answer| > 0 && |full[0]| == |mask| && answer[0] == Pick(full[0], mask)
  {
  }

  /** A kept bare column, a dropped aggregate, and a limit that lets a row through:
      on some database every answer of the edit shows another value than the draft's. */
  lemma BareBetrays(p: Plan, mask: seq<bool>, j: nat, t: string) returns (db: Database, w: World)
    requires |mask| == |p.outputs| && p.grouped && !AnyFold(p.group) && Plain(p) && p.limit != Some(IntLit(0))
    requires j < |Pick(p.outputs, mask)| && Pick(p.outputs, mask)[j].Src? && Pick(p.outputs, mask)[j] !in p.group
    requires exists k :: k in p.joins && k.table == t && k.source == Pick(p.outputs, mask)[j].source
    requires PlanFolds(p.(outputs := Pick(p.outputs, mask))) != PlanFolds(p)
    ensures forall full, answer | IsAnswer(p, db, w, full) && IsAnswer(p.(outputs := Pick(p.outputs, mask)), db, w, answer) ::
      !DropsTo(full, mask, answer)
  {
    var kept := Pick(p.outputs, mask);
    var r := p.(outputs := kept);
    var s, c := kept[j].source, kept[j].column;
    w, db := SplitWorld(PlanFolds(p), (s, c)), Varying(p.joins, t, c);
    SplitShows(p, PlanFolds(p), t, s, c);
    SplitShows(r, PlanFolds(p), t, s, c);
    forall full, answer | IsAnswer(p, db, w, full) && IsAnswer(r, db, w, answer) ensures !DropsTo(full, mask, answer) {
      if DropsTo(full, mask, answer) { FirstDropped(full, mask, answer); }
      var x := AnswerShows(p, db, w, (s, c), ONE, kept, j, full);
      var y := AnswerShows(r, db, w, (s, c), TWO, kept, j, answer);
      EvalPick(p.outputs, mask, x, BareRow(p, x, w), w);
    }
  }

  lemma BareBreaks(p: Plan, mask: seq<bool>, j: nat, t: string)
    requires |mask| == |p.outputs| && p.grouped && !AnyFold(p.group) && Plain(p) && p.limit != Some(IntLit(0))
    requires j < |Pick(p.outputs, mask)| && Pick(p.outputs, mask)[j].Src? && Pick(p.outputs, mask)[j] !in p.group
    requires exists k :: k in p.joins && k.table == t && k.source == Pick(p.outputs, mask)[j].source
    requires PlanFolds(p.(outputs := Pick(p.outputs, mask))) != PlanFolds(p)
    ensures !KeepsMeaning(p, mask)
  {
    var db, w := BareBetrays(p, mask, j, t);
    var r := p.(outputs := Pick(p.outputs, mask));
    AnswerExists(r, db, w);
    var answer :| IsAnswer(r, db, w, answer);
    assert !exists full :: IsAnswer(p, db, w, full) && DropsTo(full, mask, answer);
  }

  /** LIMIT 0 returns nothing, whatever is dropped. */
  lemma NothingKept(p: Plan, mask: seq<bool>)
    requires |mask| == |p.outputs| && p.limit == Some(IntLit(0))
    ensures KeepsMeaning(p, mask)
  {
    var r := p.(outputs := Pick(p.outputs, mask));
    forall db, w, answer
      ensures IsAnswer(r, db, w, answer) <==> exists full :: IsAnswer(p, db, w, full) && DropsTo(full, mask, answer)
    {
      NoRows(p, db, w);
      NoRows(r, db, w);
      var none: seq<seq<Value>> := [];
      assert DropsTo(none, mask, none);
    }
  }

  lemma NoRows(p: Plan, db: Database, w: World)
    requires p.limit == Some(IntLit(0))
    ensures forall answer :: IsAnswer(p, db, w, answer) <==> answer == []
  {
    AnswerExists(p, db, w);
    forall arranged ensures Render(p, Returned(p, arranged, w), w) == [] {}
    assert IsAnswer(p, db, w, []);
  }

  /** The kept outputs are columns of the sources. */
  ghost predicate KeptColumns(p: Plan, kept: seq<Core>) {
    forall i | 0 <= i < |kept| :: kept[i].Src? && exists k :: k in p.joins && k.source == kept[i].source
  }

  /** HAVING and ORDER BY have one value per group. */
  ghost predicate SteadyClauses(p: Plan) {
    p.grouped ==> AllGrounded(OrderCores(p.order), p.group) && (p.having.Some? ==> Grounded(p.having.value, p.group))
  }

  /** No bare column can show, or no aggregate is dropped, or no row is returned. */
  ghost predicate BareExact(p: Plan, kept: seq<Core>) {
    !p.grouped || PlanFolds(p.(outputs := kept)) == PlanFolds(p) || AllGrounded(kept, p.group) || p.limit == Some(IntLit(0))
  }

  /** Whatever HAVING and ORDER BY read, a kept bare column breaks the meaning as soon
      as an aggregate is dropped and LIMIT is not literally 0. */
  lemma BareNeeded(p: Plan, mask: seq<bool>)
    requires |mask| == |p.outputs| && Plain(p) && (p.grouped ==> !AnyFold(p.group)) && KeptColumns(p, Pick(p.outputs, mask))
    requires KeepsMeaning(p, mask)
    ensures BareExact(p, Pick(p.outputs, mask))
  {
    var kept := Pick(p.outputs, mask);
    if !BareExact(p, kept) {
      var j :| 0 <= j < |kept| && !Grounded(kept[j], p.group);
      var k :| k in p.joins && k.source == kept[j].source;
      BareBreaks(p, mask, j, k.table);
    }
  }

  /** When HAVING and ORDER BY are steady, the condition is exact. */
  lemma BareDecides(p: Plan, mask: seq<bool>)
    requires |mask| == |p.outputs| && Plain(p) && (p.grouped ==> !AnyFold(p.group)) && KeptColumns(p, Pick(p.outputs, mask))
    requires !p.grouped ==> !AnyFold(p.outputs) && !AnyFold(Pick(p.outputs, mask))
    requires SteadyClauses(p)
    ensures KeepsMeaning(p, mask) <==> BareExact(p, Pick(p.outputs, mask))
  {
    var kept := Pick(p.outputs, mask);
    if KeepsMeaning(p, mask) { BareNeeded(p, mask); }
    if BareExact(p, kept) {
      if p.limit == Some(IntLit(0)) {
        NothingKept(p, mask);
      } else {
        forall db, w, answer
          ensures IsAnswer(p.(outputs := kept), db, w, answer) <==> exists full :: IsAnswer(p, db, w, full) && DropsTo(full, mask, answer)
        {
          AnswersKept(p, mask, db, w, answer);
        }
      }
    }
  }

  // ------------------------------------------------------------- the edited statement

  lemma {:induction false} SourceJoined(sources: seq<Source>, s: Scope, o: Source)
    requires ElabSources(sources, s).Some? && o in sources
    ensures exists k :: k in ElabSources(sources, s).value && k.source == o.Name()
  {
    var joins := ElabSources(sources, s).value;
    if o == sources[0] {
      assert joins[0] in joins && joins[0].source == o.Name();
    } else {
      SourceJoined(sources[1..], s, o);
      var k :| k in ElabSources(sources[1..], s).value && k.source == o.Name();
      assert k in joins;
    }
  }

  lemma {:induction false} OwnersIn(sources: seq<Source>, tables: seq<TableInfo>, t: string, n: string)
    ensures forall o | o in Owners(sources, tables, t, n) :: o in sources
  {
    if sources != [] { OwnersIn(sources[1..], tables, t, n); }
  }

  /** The outputs a licensed edit keeps are columns of its sources. */
  lemma LicensedColumns(q: Select, cat: Catalog, mask: seq<bool>)
    requires Guarded(q, cat, mask) && Compile(q, cat).Some? && |Compile(q, cat).value.outputs| == |mask|
    ensures KeptColumns(Compile(q, cat).value, Pick(Compile(q, cat).value.outputs, mask))
  {
    var p, x := Compile(q, cat).value, TheEdit(q, cat, mask);
    KeptAreColumns(q, cat, mask);
    forall i | 0 <= i < |x.keptOutputs| ensures x.keptOutputs[i].Src? && exists k :: k in p.joins && k.source == x.keptOutputs[i].source {
      var e := x.kept[i].value;
      var owners := Owners(q.sources, cat.tables, e.table, e.name);
      OwnersIn(q.sources, cat.tables, e.table, e.name);
      assert owners[0] in owners;
      SourceJoined(q.sources, x.full, owners[0]);
    }
  }

  /** The licensed projection edit without captures: SQLite answers the edited statement,
      on every database, just with the draft's answers without the dropped columns, only
      if the draft is not grouped, or no aggregate is dropped, or every kept output is a
      group key, or LIMIT is literally 0; and if one of these holds and HAVING and ORDER
      BY have one value per group, it does. */
  lemma ProjectionExactly(requested: set<string>, words: string -> set<string>, q: Select, cat: Catalog)
    requires Licensed(requested, words, q, cat.tables) && Compile(q, cat).Some?
    requires CaptureFree(q, EditMask(requested, words, q, cat.tables))
    ensures var p, mask := Compile(q, cat).value, EditMask(requested, words, q, cat.tables);
      && |p.outputs| == |mask|
      && Compile(Edited(requested, words, q, cat.tables), cat) == Some(p.(outputs := Pick(p.outputs, mask)))
      && (KeepsMeaning(p, mask) ==> BareExact(p, Pick(p.outputs, mask)))
      && (SteadyClauses(p) ==> (KeepsMeaning(p, mask) <==> BareExact(p, Pick(p.outputs, mask))))
  {
    var p, mask := Compile(q, cat).value, EditMask(requested, words, q, cat.tables);
    LicenseGuards(requested, words, q, cat);
    EditedPlan(q, cat, mask);
    if q.group == [] { AggregationKept(q, cat, mask); }
    GroupHasNoFold(q.group, TheEdit(q, cat, mask).full, p.outputs);
    LicensedColumns(q, cat, mask);
    if KeepsMeaning(p, mask) { BareNeeded(p, mask); }
    if SteadyClauses(p) { BareDecides(p, mask); }
  }
}
