/** Exactly when a group-count ranking answers with the winning group. */
module GroupRankExact {
  import opened Prelude
  import opened Orders
  import opened Sql
  import opened SqlFacts
  import opened OutputContract
  import opened ProjectionPlan
  import opened ProjectionMeaning
  import opened GroupRank
  import opened GroupRankMeaning
  import opened Marked

  // --------------------------------------------------- the one aggregate of the outputs

  /** Every aggregate in `c` is `f`. */
  predicate OnlyFold(c: Core, f: Core) {
    match c
    case Op(_, args) => forall i | 0 <= i < |args| :: OnlyFold(args[i], f)
    case Fold(_, _) => c == f
    case _ => true
  }

  lemma {:induction false} StarFolds(sources: seq<Source>, tables: seq<TableInfo>, f: Core)
    ensures forall i | 0 <= i < |StarCells(sources, tables)| :: OnlyFold(StarCells(sources, tables)[i], f)
  {
    if sources != [] { StarFolds(sources[1..], tables, f); }
  }

  /** An expression whose only aggregate is `count` compiles to one whose only fold is its fold. */
  lemma {:induction false} ElabFolds(e: Expr, src: Scope, count: Expr, f: Core)
    requires src.aliases == [] && Elab(e, src, true).Some? && AggsIn(e) <= {count} && Elab(count, src, true) == Some(f)
    ensures OnlyFold(Elab(e, src, true).value, f)
    decreases e, 1
  {
    match e
    case Call(_, args) => ElabAllFolds(args, src, count, f);
    case Agg(_, _) => assert e in AggsIn(e);
    case AllColumns => StarFolds(src.sources, src.tables, f);
    case _ =>
  }

  lemma {:induction false} ElabAllFolds(es: seq<Expr>, src: Scope, count: Expr, f: Core)
    requires src.aliases == [] && ElabAll(es, src, true).Some? && Elab(count, src, true) == Some(f)
    requires forall i | 0 <= i < |es| :: AggsIn(es[i]) <= {count}
    ensures forall i | 0 <= i < |es| :: OnlyFold(ElabAll(es, src, true).value[i], f)
    decreases es, 0
  {
    if es != [] {
      ElabFolds(es[0], src, count, f);
      ElabAllFolds(es[1..], src, count, f);
      var cs := ElabAll(es, src, true).value;
      assert forall i | 0 < i < |es| :: cs[i] == ElabAll(es[1..], src, true).value[i - 1];
    }
  }

  lemma {:induction false} OnlyCounts(c: Core, arg: Core)
    requires OnlyFold(c, Fold("count", arg))
    ensures CountsOnly(c)
  {
    match c
    case Op(_, args) => forall i | 0 <= i < |args| ensures CountsOnly(args[i]) { OnlyCounts(args[i], arg); }
    case _ =>
  }

  /** COUNT of rows means the same with and without the output aliases. */
  lemma CountUnaliased(count: Expr, primary: string, columns: seq<ColumnInfo>, q: Select, cat: Catalog, s: Scope)
    requires |q.sources| == 1 && s.sources == q.sources && s.tables == cat.tables
    requires TableNamed(cat.tables, q.sources[0].table).Some? && columns == TableNamed(cat.tables, q.sources[0].table).value.columns
    requires CountsRows(count, primary, columns) && Elab(count, s, true).Some?
    ensures Elab(count, SourceScope(q, cat), true) == Elab(count, s, true)
  {
    if count.arg.Column? {
      var i :| 0 <= i < |columns| && columns[i].name == count.arg.name && !columns[i].nullable;
      PrimaryColumn(cat.tables, q.sources[0].table, columns[i]);
      OneOwner(q, cat, count.arg.table, count.arg.name);
    }
  }

  // ------------------------------------------------------------------ the edited plan

  /** Groups by one key, ordered by a row count and then by `other`, one row kept; the
      outputs hold no other aggregate. */
  ghost predicate CountedPlan(p: Plan, arg: Core, key: Core, other: Core, most: bool, descending: bool) {
    && p.grouped && p.group == [key] && p.having == None && !HasFold(key)
    && p.order == [SortKey(Fold("count", arg), most, false), SortKey(other, descending, true)]
    && p.limit == Some(IntLit(1)) && Plain(p)
    && forall i | 0 <= i < |p.outputs| :: OnlyFold(p.outputs[i], Fold("count", arg))
  }

  /** What the edit compiles to: the second key is the group key exactly when they do not clash. */
  lemma EditedRank(request: Option<RankRequest>, words: string -> set<string>, q: Select, cat: Catalog, p: Plan)
    returns (arg: Core, key: Core, other: Core)
    requires GroupCountRank(request, words, q, cat).Some?
    requires Compile(GroupCountRank(request, words, q, cat).value, cat) == Some(p)
    requires |q.sources| == 1 && |q.group| == 1 && (q.group[0].Column? ==> q.group[0].name != "")
    ensures CountedPlan(p, arg, key, other, request.value.most, request.value.descending) && CountArg(arg, q, cat)
    ensures other == key <==> !KeyClash(q, cat)
    ensures p.joins == [JoinPlan(q.sources[0].table, q.sources[0].Name(), false, None)]
    ensures ElabAll(Values(q.items), SourceScope(q, cat), true) == Some(p.outputs)
    ensures Elab(GroupCountRank(request, words, q, cat).value.order[0].key, SourceScope(q, cat), true) == Some(Fold("count", arg))
    ensures var s := Scope(q.sources, cat.tables, Aliases(q.items, p.outputs));
            KeyOf(q).Some? && ElabOrderKey(KeyOf(q).value, s, p.outputs, true) == Some(other) && ElabGroupKey(q.group[0], s, p.outputs) == Some(key)
  {
    var r := GroupCountRank(request, words, q, cat).value;
    var count, keyExpr, columns, primary := RankParts(request, words, q, cat);
    var outputs := ElabAll(Values(r.items), SourceScope(r, cat), true).value;
    var s := Scope(r.sources, cat.tables, Aliases(r.items, outputs));
    RankedKey(q, r, cat);
    SameKey(r, cat, outputs, s);
    key := p.group[0];
    GroupHasNoFold(r.group, s, outputs);
    ElabTwoKeys(r.order[0], r.order[1], s, outputs, true);
    other := p.order[1].core;
    arg := CountCore(count, primary, columns, r, cat, s);
    CountUnaliased(count, primary, columns, r, cat, s);
    OutputFolds(request, words, q, cat, count, Fold("count", arg));
    OneJoin(r, cat);
  }

  lemma OutputFolds(request: Option<RankRequest>, words: string -> set<string>, q: Select, cat: Catalog, count: Expr, f: Core)
    requires GroupCountRank(request, words, q, cat).Some? && GroupCountRank(request, words, q, cat).value.order[0].key == count
    requires ElabAll(Values(q.items), SourceScope(q, cat), true).Some? && Elab(count, SourceScope(q, cat), true) == Some(f)
    ensures var outputs := ElabAll(Values(q.items), SourceScope(q, cat), true).value;
            forall i | 0 <= i < |outputs| :: OnlyFold(outputs[i], f)
  {
    var columns := TableNamed(cat.tables, q.sources[0].table).value.columns;
    assert count == CountOf(q, PrimaryKey(columns)[0], columns).value;
    OnlyElement(AggSet(q));
    forall i | 0 <= i < |q.items| ensures AggsIn(Values(q.items)[i]) <= {count} {
      assert forall a | a in AggsIn(q.items[i].value) :: a in AggSet(q);
    }
    ElabAllFolds(Values(q.items), SourceScope(q, cat), count, f);
  }

  /** Clashing keys: SQLite groups by a plain column. */
  lemma ClashingKey(q: Select, cat: Catalog, outputs: seq<Core>, s: Scope)
    requires Prepared(q, cat, outputs, s) && |q.group| == 1 && KeyClash(q, cat) && q.group[0].name != ""
    requires ElabGroupKey(q.group[0], s, outputs).Some?
    ensures ElabGroupKey(q.group[0], s, outputs).value.Src? && ElabGroupKey(q.group[0], s, outputs).value.source == q.sources[0].Name()
  {
    var n := q.group[0].name;
    var i := FirstOutputIn(q.items, n);
    ElabEach(Values(q.items), SourceScope(q, cat), outputs, i);
    GroupCore(q, cat, outputs, s, n);
    if n !in ColumnsOf(cat.tables, q.sources[0].table) {
      var v := KeyOf(q).value;
      OneOwner(q, cat, v.table, v.name);
    }
  }

  // ------------------------------------------------------------------ the stored order

  /** The tables hold the same records in another order. */
  ghost predicate Reordered(db: Database, other: Database) {
    forall t :: multiset(RecordsOf(db, t)) == multiset(RecordsOf(other, t))
  }

  lemma {:induction false} BindReordered(source: string, a: seq<Record>, b: seq<Record>)
    requires multiset(a) == multiset(b)
    ensures multiset(BindAll(source, a)) == multiset(BindAll(source, b))
  {
    SameSize(a, b);
    if a != [] {
      assert a[0] in a && a[0] in b;
      var i :| 0 <= i < |b| && b[i] == a[0];
      RemoveOne(a, b, i);
      BindReordered(source, a[1..], b[..i] + b[i + 1..]);
      BindWithout(source, a, b, i);
    }
  }

  lemma BindWithout(source: string, a: seq<Record>, b: seq<Record>, i: nat)
    requires a != [] && i < |b| && b[i] == a[0]
    requires multiset(BindAll(source, a[1..])) == multiset(BindAll(source, b[..i] + b[i + 1..]))
    ensures multiset(BindAll(source, a)) == multiset(BindAll(source, b))
  {
    assert a[1..] == a[..0] + a[1..];
    BindRemoved(source, a, 0, a[1..]);
    BindRemoved(source, b, i, b[..i] + b[i + 1..]);
  }

  lemma BindRemoved(source: string, a: seq<Record>, i: nat, rest: seq<Record>)
    requires i < |a| && rest == a[..i] + a[i + 1..]
    ensures multiset(BindAll(source, a)) == multiset{Bind(source, a[i])} + multiset(BindAll(source, rest))
  {
    var rows := BindAll(source, a);
    Removed(rows, i);
    assert BindAll(source, rest) == rows[..i] + rows[i + 1..];
  }

  lemma {:induction false} FilterCount(rows: seq<Row>, c: Option<Core>, w: World, r: Row)
    ensures multiset(Filter(rows, c, w))[r] == if Holds(c, [r], r, w) then multiset(rows)[r] else 0
  {
    if rows != [] {
      FilterCount(rows[1..], c, w, r);
      assert rows == [rows[0]] + rows[1..];
    }
  }

  lemma RowsReordered(p: Plan, db: Database, other: Database, w: World)
    requires |p.joins| == 1 && p.joins[0].on == None && !p.joins[0].outer && Reordered(db, other)
    ensures multiset(SourceRows(p, db, w)) == multiset(SourceRows(p, other, w))
  {
    var j := p.joins[0];
    SingleSourceRows(p, db, w);
    SingleSourceRows(p, other, w);
    var a, b := BindAll(j.source, RecordsOf(db, j.table)), BindAll(j.source, RecordsOf(other, j.table));
    BindReordered(j.source, RecordsOf(db, j.table), RecordsOf(other, j.table));
    forall r ensures multiset(Filter(a, p.where, w))[r] == multiset(Filter(b, p.where, w))[r] {
      FilterCount(a, p.where, w, r);
      FilterCount(b, p.where, w, r);
    }
  }

  /** The edited statement has one and the same answer however the records are stored,
      when its outputs are group keys and counts. */
  lemma StoredOrderIrrelevant(request: Option<RankRequest>, words: string -> set<string>, q: Select, cat: Catalog, db: Database,
                              other: Database, w: World, answer: seq<seq<Value>>, again: seq<seq<Value>>)
    requires GroupCountRank(request, words, q, cat).Some?
    requires |q.sources| == 1 && |q.group| == 1 && !KeyClash(q, cat) && (q.group[0].Column? ==> q.group[0].name != "")
    requires Compile(GroupCountRank(request, words, q, cat).value, cat).Some?
    requires var p := Compile(GroupCountRank(request, words, q, cat).value, cat).value;
      AllGrounded(p.outputs, p.group) && IsAnswer(p, db, w, answer) && IsAnswer(p, other, w, again)
    requires Conforms(db, cat.tables) && Reordered(db, other)
    ensures answer == again
  {
    var p := Compile(GroupCountRank(request, words, q, cat).value, cat).value;
    var arg, key, second := EditedRank(request, words, q, cat, p);
    RowsReordered(p, db, other, w);
    AllCounted(p, q, cat, arg, db, w);
    forall i | 0 <= i < |p.outputs| ensures CountsOnly(p.outputs[i]) { OnlyCounts(p.outputs[i], arg); }
    SameRowsSameAnswer(p, arg, key, request.value.most, request.value.descending, db, other, w, answer, again);
  }

  // ------------------------------------------------------------------ clashing keys

  /** `answer` is what the winning group renders to, or nothing when no row passes WHERE. */
  ghost predicate IsWinner(p: Plan, most: bool, descending: bool, db: Database, w: World, answer: seq<seq<Value>>)
    requires |p.group| == 1
  {
    var rows := SourceRows(p, db, w);
    if rows == [] then answer == []
    else exists k ::
      Wins(rows, p.group[0], k, most, descending, w) && answer == Render(p, [Members(rows, p.group[0], k, w)], w)
  }

  /** Every answer, on every conforming database, is the winning group. */
  ghost predicate AlwaysWinner(p: Plan, cat: Catalog, most: bool, descending: bool)
    requires |p.group| == 1
  {
    forall db, w, answer | Conforms(db, cat.tables) && IsAnswer(p, db, w, answer) :: IsWinner(p, most, descending, db, w, answer)
  }

  /** Outputs that show counts only are the same in groups of one size. */
  lemma {:induction false} BlindCount(c: Core, arg: Core, x: Context, a: Row, y: Context, b: Row, w: World)
    requires !Reads(c) && OnlyFold(c, Fold("count", arg)) && NonNull(EvalRows(arg, x, w)) == NonNull(EvalRows(arg, y, w))
    ensures Eval(c, x, a, w) == Eval(c, y, b, w)
    decreases c, 1
  {
    if c.Op? { BlindCounts(c.args, arg, x, a, y, b, w); }
  }

  lemma {:induction false} BlindCounts(cs: seq<Core>, arg: Core, x: Context, a: Row, y: Context, b: Row, w: World)
    requires !AnyReads(cs) && (forall i | 0 <= i < |cs| :: OnlyFold(cs[i], Fold("count", arg)))
    requires NonNull(EvalRows(arg, x, w)) == NonNull(EvalRows(arg, y, w))
    ensures EvalAll(cs, x, a, w) == EvalAll(cs, y, b, w)
    decreases cs, 0
  {
    if cs != [] {
      BlindCount(cs[0], arg, x, a, y, b, w);
      assert forall i | 0 <= i < |cs[1..]| :: cs[1..][i] == cs[i + 1];
      BlindCounts(cs[1..], arg, x, a, y, b, w);
    }
  }

  /** A group that comes first has the extreme count, whatever the second key. */
  lemma FirstHasExtreme(p: Plan, arg: Core, key: Core, other: Core, most: bool, descending: bool, x: Context, y: Context, w: World)
    requires CountedPlan(p, arg, key, other, most, descending) && CountsAll(arg, x, w) && CountsAll(arg, y, w)
    requires !Precedes(p, 0, y, x, w)
    ensures if most then |x| >= |y| else |x| <= |y|
  {
    CountIsSize(arg, x, w);
    CountIsSize(arg, y, w);
    assert CoreValue(p, p.order[0].core, x, w) == Num(|x| as real) && CoreValue(p, p.order[0].core, y, w) == Num(|y| as real);
    assert !Before(p.order[0], CoreValue(p, p.order[0].core, y, w), CoreValue(p, p.order[0].core, x, w));
  }

  /** The same plan with the group key as its second sort key has a winner. */
  lemma SomeWinner(p: Plan, arg: Core, key: Core, other: Core, most: bool, descending: bool, db: Database, w: World) returns (k: Value)
    requires CountedPlan(p, arg, key, other, most, descending) && CountsAll(arg, SourceRows(p, db, w), w) && SourceRows(p, db, w) != []
    ensures Wins(SourceRows(p, db, w), key, k, most, descending, w)
  {
    var ranked := p.(order := [p.order[0], SortKey(key, descending, true)]);
    AnswerExists(ranked, db, w);
    var answer :| IsAnswer(ranked, db, w, answer);
    k := ExtremeGroupWins(ranked, arg, key, most, descending, db, w, answer);
  }

  /** The group of the winner, among the groups in order. */
  lemma WinnerIsGroup(p: Plan, key: Core, k: Value, rows: seq<Row>, w: World)
    requires p.group == [key] && exists r :: r in rows && KeyValue(key, r, w) == k
    ensures Members(rows, key, k, w) in Groups(rows, p.group, w)
  {
    var groups := Groups(rows, p.group, w);
    GroupsComplete(rows, p.group, w);
    var r :| r in rows && KeyValue(key, r, w) == k;
    var i :| 0 <= i < |groups| && GroupKey(p.group, groups[i][0], w) == GroupKey(p.group, r, w);
    KeyIsOne(key, r, w);
    assert groups[i] == Members(rows, key, k, w);
  }

  lemma SubsetCounts(arg: Core, rows: seq<Row>, x: Context, group: seq<Core>, w: World)
    requires CountsAll(arg, rows, w) && |x| > 0 && x == WithKey(rows, group, GroupKey(group, x[0], w), true, w)
    ensures CountsAll(arg, x, w)
  {
    WithKeyRows(rows, group, GroupKey(group, x[0], w), true, w);
  }

  /** The group that comes first and the winner's are whole groups, and the first comes first. */
  lemma FirstAndWinner(p: Plan, key: Core, rows: seq<Row>, arranged: seq<Context>, k: Value, w: World)
    requires p.group == [key] && (exists r :: r in rows && KeyValue(key, r, w) == k)
    requires multiset(arranged) == multiset(Groups(rows, p.group, w)) && InOrder(p, arranged, w) && arranged != []
    ensures var x, y := arranged[0], Members(rows, key, k, w);
      && x in Groups(rows, p.group, w) && y in Groups(rows, p.group, w)
      && (x == y || !Precedes(p, 0, y, x, w))
  {
    var groups := Groups(rows, p.group, w);
    SameSize(arranged, groups);
    SameSize(groups, arranged);
    WinnerIsGroup(p, key, k, rows, w);
    var j :| 0 <= j < |arranged| && arranged[j] == Members(rows, key, k, w);
    assert arranged[0] in arranged;
  }

  /** A group holds rows of `rows`, all with the key of its first. */
  lemma GroupMembers(arg: Core, key: Core, rows: seq<Row>, x: Context, w: World)
    requires x in Groups(rows, [key], w) && CountsAll(arg, rows, w)
    ensures |x| > 0 && x[0] in rows && x == Members(rows, key, KeyValue(key, x[0], w), w) && CountsAll(arg, x, w)
  {
    GroupsComplete(rows, [key], w);
    KeyIsOne(key, x[0], w);
    SubsetCounts(arg, rows, x, [key], w);
  }

  /** The winner's group is no larger (smaller) than the group that comes first. */
  lemma FirstIsExtreme(p: Plan, arg: Core, key: Core, other: Core, most: bool, descending: bool, rows: seq<Row>, arranged: seq<Context>, k: Value, w: World)
    requires CountedPlan(p, arg, key, other, most, descending) && CountsAll(arg, rows, w)
    requires multiset(arranged) == multiset(Groups(rows, p.group, w)) && InOrder(p, arranged, w) && arranged != []
    requires Wins(rows, key, k, most, descending, w)
    ensures |arranged[0]| == |Members(rows, key, k, w)| > 0 && CountsAll(arg, arranged[0], w) && CountsAll(arg, Members(rows, key, k, w), w)
  {
    var x, y := arranged[0], Members(rows, key, k, w);
    FirstAndWinner(p, key, rows, arranged, k, w);
    GroupMembers(arg, key, rows, x, w);
    GroupMembers(arg, key, rows, y, w);
    if x != y {
      FirstHasExtreme(p, arg, key, other, most, descending, x, y, w);
      assert Beats(rows, key, k, KeyValue(key, x[0], w), most, descending, w);
    }
  }

  /** Outputs that show counts only let every answer pass for the winner's. */
  lemma BlindWinner(p: Plan, arg: Core, key: Core, other: Core, most: bool, descending: bool, db: Database, w: World, answer: seq<seq<Value>>)
    requires CountedPlan(p, arg, key, other, most, descending) && CountsAll(arg, SourceRows(p, db, w), w)
    requires !AnyReads(p.outputs) && IsAnswer(p, db, w, answer)
    ensures IsWinner(p, most, descending, db, w, answer)
  {
    var rows := SourceRows(p, db, w);
    var arranged := FirstGroupAnswers(p, db, w, answer);
    SameSize(arranged, Groups(rows, p.group, w));
    if rows != [] {
      var k := SomeWinner(p, arg, key, other, most, descending, db, w);
      FirstIsExtreme(p, arg, key, other, most, descending, rows, arranged, k, w);
      var x, y := arranged[0], Members(rows, key, k, w);
      CountIsSize(arg, x, w);
      CountIsSize(arg, y, w);
      BlindCounts(p.outputs, arg, x, BareRow(p, x, w), y, BareRow(p, y, w), w);
      assert Render(p, [x], w) == Render(p, [y], w);
    }
  }

  // ---------------------------------------------------------------- a wrong winner

  /** Two rows that are two groups: `t` has the better key, and the second sort key does
      not put it first. */
  ghost predicate TwoSingles(p: Plan, arg: Core, key: Core, other: Core, most: bool, descending: bool, t: Row, u: Row, w: World) {
    && CountedPlan(p, arg, key, other, most, descending) && CountsAll(arg, [t, u], w)
    && Before(SortKey(key, descending, true), KeyValue(key, t, w), KeyValue(key, u, w))
    && !Before(p.order[1], Eval(other, [t], t, w), Eval(other, [u], u, w))
  }

  lemma TwoGroups(key: Core, t: Row, u: Row, w: World)
    requires KeyValue(key, t, w) != KeyValue(key, u, w)
    ensures Groups([t, u], [key], w) == [[t], [u]]
    ensures Members([t, u], key, KeyValue(key, t, w), w) == [t] && Members([t, u], key, KeyValue(key, u, w), w) == [u]
  {
    KeyIsOne(key, t, w);
    KeyIsOne(key, u, w);
    var k, l := GroupKey([key], t, w), GroupKey([key], u, w);
    assert k[0] != l[0];
    assert [t, u][1..] == [u] && [u][1..] == [];
    assert WithKey([u], [key], k, true, w) == [] && WithKey([u], [key], k, false, w) == [u];
    assert WithKey([u], [key], l, true, w) == [u] && WithKey([u], [key], l, false, w) == [];
    assert WithKey([t, u], [key], k, true, w) == [t] && WithKey([t, u], [key], l, true, w) == [u];
    assert Groups([u], [key], w) == [[u]];
  }

  lemma NotSooner(p: Plan, arg: Core, key: Core, other: Core, most: bool, descending: bool, t: Row, u: Row, w: World)
    requires TwoSingles(p, arg, key, other, most, descending, t, u, w)
    ensures !Precedes(p, 0, [t], [u], w)
  {
    OneRow(p, t, w);
    OneRow(p, u, w);
    CountIsSize(arg, [t], w);
    CountIsSize(arg, [u], w);
    assert CoreValue(p, p.order[0].core, [t], w) == Num(1.0) == CoreValue(p, p.order[0].core, [u], w);
    assert !Precedes(p, 2, [t], [u], w);
    assert !Precedes(p, 1, [t], [u], w);
  }

  /** Any order of the groups that the plan allows yields an answer. */
  lemma GroupsAnswer(p: Plan, arranged: seq<Context>, db: Database, w: World)
    requires p.grouped && p.having == None && p.limit == Some(IntLit(1)) && Plain(p) && arranged != []
    requires multiset(arranged) == multiset(Groups(SourceRows(p, db, w), p.group, w)) && InOrder(p, arranged, w)
    ensures IsAnswer(p, db, w, Render(p, [arranged[0]], w))
  {
    HavingNone(p, Groups(SourceRows(p, db, w), p.group, w), w);
    PlainArrangement(p, db, w, arranged);
    PlainReturned(p, arranged, w);
    assert Returned(p, arranged, w) == [arranged[0]];
  }

  /** The group of the worse key may come first. */
  lemma WorseInOrder(p: Plan, arg: Core, key: Core, other: Core, most: bool, descending: bool, t: Row, u: Row, w: World)
    requires TwoSingles(p, arg, key, other, most, descending, t, u, w)
    ensures multiset([[u], [t]]) == multiset(Groups([t, u], p.group, w)) && InOrder(p, [[u], [t]], w)
  {
    TwoSinglesGroups(p, arg, key, other, most, descending, t, u, w);
    NotSooner(p, arg, key, other, most, descending, t, u, w);
    assert multiset([[u], [t]]) == multiset([[t], [u]]);
  }

  lemma TwoSinglesGroups(p: Plan, arg: Core, key: Core, other: Core, most: bool, descending: bool, t: Row, u: Row, w: World)
    requires TwoSingles(p, arg, key, other, most, descending, t, u, w)
    ensures Groups([t, u], p.group, w) == [[t], [u]]
  {
    BeforeTotal(SortKey(key, descending, true), KeyValue(key, t, w), KeyValue(key, u, w));
    TwoGroups(key, t, u, w);
  }

  /** The row with the worse key may be returned. */
  lemma WorseFirst(p: Plan, arg: Core, key: Core, other: Core, most: bool, descending: bool, t: Row, u: Row, db: Database, w: World)
    requires TwoSingles(p, arg, key, other, most, descending, t, u, w) && SourceRows(p, db, w) == [t, u]
    ensures IsAnswer(p, db, w, [RenderRow(p, [u], w)])
  {
    WorseInOrder(p, arg, key, other, most, descending, t, u, w);
    GroupsAnswer(p, [[u], [t]], db, w);
    assert Render(p, [[u]], w) == [RenderRow(p, [u], w)];
  }

  /** The only winner is the row with the better key. */
  lemma BetterWins(p: Plan, arg: Core, key: Core, other: Core, most: bool, descending: bool, t: Row, u: Row, k: Value, w: World)
    requires TwoSingles(p, arg, key, other, most, descending, t, u, w) && Wins([t, u], key, k, most, descending, w)
    ensures Members([t, u], key, k, w) == [t]
  {
    BeforeTotal(SortKey(key, descending, true), KeyValue(key, t, w), KeyValue(key, u, w));
    TwoGroups(key, t, u, w);
    var r :| r in [t, u] && KeyValue(key, r, w) == k;
    assert t in [t, u];
  }

  /** ... so when an output tells the two rows apart, the answer is not the winner's. */
  lemma WrongWinner(p: Plan, arg: Core, key: Core, other: Core, most: bool, descending: bool, t: Row, u: Row, o: nat, db: Database, w: World)
    requires TwoSingles(p, arg, key, other, most, descending, t, u, w) && SourceRows(p, db, w) == [t, u]
    requires o < |p.outputs| && Eval(p.outputs[o], [t], t, w) != Eval(p.outputs[o], [u], u, w)
    ensures IsAnswer(p, db, w, [RenderRow(p, [u], w)]) && !IsWinner(p, most, descending, db, w, [RenderRow(p, [u], w)])
  {
    var answer := [RenderRow(p, [u], w)];
    WorseFirst(p, arg, key, other, most, descending, t, u, db, w);
    OneRow(p, t, w);
    OneRow(p, u, w);
    EvalAt(p.outputs, [t], t, w, o);
    EvalAt(p.outputs, [u], u, w, o);
    assert RenderRow(p, [t], w)[o] != RenderRow(p, [u], w)[o];
    assert Render(p, [[t]], w)[0] == RenderRow(p, [t], w);
    if k :| Wins([t, u], key, k, most, descending, w) && answer == Render(p, [Members([t, u], key, k, w)], w) {
      BetterWins(p, arg, key, other, most, descending, t, u, k, w);
      assert answer[0] == RenderRow(p, [t], w);
    }
  }

  // ------------------------------------------------------------- the marked database

  /** Two records of the same columns: all marked; the key `u` and the rest `z`. */
  function MarkedPair(names: set<string>, g: string, m: Value, u: Value, z: Value): seq<Record> {
    [map n | n in names :: m, map n | n in names :: if n == g then u else z]
  }

  lemma PairRows(p: Plan, table: string, s: string, names: set<string>, g: string, m: Value, u: Value, z: Value, w: World)
    requires Accepts(w) && p.joins == [JoinPlan(table, s, false, None)]
    ensures var ds := MarkedPair(names, g, m, u, z);
            SourceRows(p, map[table := ds], w) == [Bind(s, ds[0]), Bind(s, ds[1])]
  {
    var ds := MarkedPair(names, g, m, u, z);
    AcceptedSource(p, map[table := ds], w);
    assert BindAll(s, ds) == [Bind(s, ds[0]), Bind(s, ds[1])];
  }

  /** The cells of the two rows. */
  lemma PairCells(s: string, names: set<string>, g: string, m: Value, u: Value, z: Value)
    requires m != u && m != z
    ensures var ds := MarkedPair(names, g, m, u, z);
      var t, v := Bind(s, ds[0]), Bind(s, ds[1]);
      && (forall n :: n in names <==> (s, n) in t) && (forall n :: n in names <==> (s, n) in v)
      && (forall n | n in names :: t[(s, n)] == m && v[(s, n)] == if n == g then u else z)
      && (forall k | k in v :: v[k] != m)
  {
    var ds := MarkedPair(names, g, m, u, z);
    forall n ensures n in names <==> (s, n) in Bind(s, ds[0]) { BindCell(s, ds[0], n); }
    forall n ensures n in names <==> (s, n) in Bind(s, ds[1]) { BindCell(s, ds[1], n); }
    forall n | n in names ensures Bind(s, ds[0])[(s, n)] == m && Bind(s, ds[1])[(s, n)] == if n == g then u else z {
      BindCell(s, ds[0], n);
      BindCell(s, ds[1], n);
    }
  }

  /** The two records conform when no value is NULL and no declared column is missing. */
  lemma PairConforms(tables: seq<TableInfo>, table: string, names: set<string>, g: string, m: Value, u: Value, z: Value)
    requires TableNamed(tables, table).Some? && ColumnNames(TableNamed(tables, table).value.columns) <= names
    requires m != Null && u != Null && z != Null
    ensures Conforms(map[table := MarkedPair(names, g, m, u, z)], tables)
  {
  }

  /** The second sort key does not put the marked row first. */
  lemma SecondKeyLate(other: Core, arg: Core, s: string, g: string, names: set<string>, descending: bool, k: real, t: Row, v: Row)
    requires OnlyFold(other, Fold("count", arg)) && FromSource(other, s) && other != Src(s, g)
    requires k > 1.0 && Avoids(other, Num(k)) && Columns(other) <= names
    requires var w := MarkWorld(Num(k)); CountsAll(arg, [t, v], w)
    requires forall n | n in names :: (s, n) in t && (s, n) in v && t[(s, n)] == Num(k)
                                      && (n != g ==> v[(s, n)] == Num(if descending then k + 1.0 else k - 1.0))
    requires forall c | c in v :: v[c] != Num(k)
    ensures var w := MarkWorld(Num(k));
      !Before(SortKey(other, descending, true), Eval(other, [t], t, w), Eval(other, [v], v, w))
  {
    var w := MarkWorld(Num(k));
    match other
    case Src(_, n) =>
    case Const(c) => BeforeTotal(SortKey(other, descending, true), c, c);
    case Op(_, _) =>
      MarkedValue(other, v, k);
      NoneMarked(other, v, Num(k));
    case Fold(_, _) =>
      assert CountsAll(arg, [t], w) && CountsAll(arg, [v], w) by { assert t in [t, v] && v in [t, v]; }
      CountIsSize(arg, [t], w);
      CountIsSize(arg, [v], w);
  }

  /** The outputs of the edited statement read just what the draft's expressions name. */
  lemma OutputsRead(request: Option<RankRequest>, words: string -> set<string>, q: Select, cat: Catalog, outputs: seq<Core>)
    returns (n: string)
    requires GroupCountRank(request, words, q, cat).Some? && |q.sources| == 1
    requires ElabAll(Values(q.items), SourceScope(q, cat), true) == Some(outputs)
    ensures n in ColumnsOf(cat.tables, q.sources[0].table)
    ensures AnyReads(outputs) <==> ShowsRows(q)
    ensures forall i | 0 <= i < |outputs| :: FromSource(outputs[i], q.sources[0].Name())
  {
    var columns := TableNamed(cat.tables, q.sources[0].table).value.columns;
    var some := PrimaryName(columns);
    PrimaryColumn(cat.tables, q.sources[0].table, some);
    n := some.name;
    ElabAllReads(Values(q.items), SourceScope(q, cat), n);
    assert forall i | 0 <= i < |q.items| :: Values(q.items)[i] == q.items[i].value;
  }

  /** The second sort key of a clashing statement is an output expression. */
  lemma OtherShape(request: Option<RankRequest>, words: string -> set<string>, q: Select, cat: Catalog, outputs: seq<Core>, s: Scope,
                   f: Core, other: Core)
    requires GroupCountRank(request, words, q, cat).Some? && |q.group| == 1 && KeyClash(q, cat)
    requires Prepared(q, cat, outputs, s) && ElabOrderKey(KeyOf(q).value, s, outputs, true) == Some(other)
    requires Elab(GroupCountRank(request, words, q, cat).value.order[0].key, SourceScope(q, cat), true) == Some(f)
    ensures OnlyFold(other, f) && FromSource(other, q.sources[0].Name())
  {
    var count := GroupCountRank(request, words, q, cat).value.order[0].key;
    var i := FirstOutputIn(q.items, q.group[0].name);
    var n := OutputsRead(request, words, q, cat, outputs);
    OrderCore(q, cat, outputs, s, i);
    var read := OrderReads(q.items, q.items[i].value);
    ElabReads(read, SourceScope(q, cat), n);
    ReadAggs(request, words, q, cat, count, i);
    ElabFolds(read, SourceScope(q, cat), count, f);
  }

  /** The parts of a clashing statement. */
  lemma ClashParts(request: Option<RankRequest>, words: string -> set<string>, q: Select, cat: Catalog, p: Plan)
    returns (arg: Core, g: string, other: Core)
    requires GroupCountRank(request, words, q, cat).Some?
    requires Compile(GroupCountRank(request, words, q, cat).value, cat) == Some(p)
    requires |q.sources| == 1 && |q.group| == 1 && KeyClash(q, cat) && q.group[0].name != ""
    ensures CountedPlan(p, arg, Src(q.sources[0].Name(), g), other, request.value.most, request.value.descending)
    ensures CountArg(arg, q, cat) && other != Src(q.sources[0].Name(), g)
    ensures OnlyFold(other, Fold("count", arg)) && FromSource(other, q.sources[0].Name())
  {
    var key;
    arg, key, other := EditedRank(request, words, q, cat, p);
    var s := Scope(q.sources, cat.tables, Aliases(q.items, p.outputs));
    ClashingKey(q, cat, p.outputs, s);
    g := key.column;
    OtherShape(request, words, q, cat, p.outputs, s, Fold("count", arg), other);
  }

  lemma ReadAggs(request: Option<RankRequest>, words: string -> set<string>, q: Select, cat: Catalog, count: Expr, i: nat)
    requires GroupCountRank(request, words, q, cat).Some? && GroupCountRank(request, words, q, cat).value.order[0].key == count
    requires i < |q.items|
    ensures AggsIn(OrderReads(q.items, q.items[i].value)) <= {count}
  {
    var columns := TableNamed(cat.tables, q.sources[0].table).value.columns;
    assert count == CountOf(q, PrimaryKey(columns)[0], columns).value;
    OnlyElement(AggSet(q));
    var key := q.items[i].value;
    if key.Column? && key.table == "" && FirstNamed(q.items, key.name).Some? {
      var j := FirstNamedIn(q.items, key.name);
      assert forall a | a in AggsIn(q.items[j].value) :: a in AggSet(q);
    } else {
      assert forall a | a in AggsIn(key) :: a in AggSet(q);
    }
  }

  lemma {:induction false} PrimaryName(columns: seq<ColumnInfo>) returns (c: ColumnInfo)
    requires PrimaryKey(columns) != []
    ensures c in columns
  {
    if columns[0].primaryKeyPosition != 0 { c := columns[0]; } else { c := PrimaryName(columns[1..]); }
  }

  /** The two marked rows under a clashing plan. */
  lemma PairSingles(p: Plan, q: Select, cat: Catalog, arg: Core, g: string, other: Core, most: bool, descending: bool, k: real,
                    names: set<string>, db: Database, t: Row, v: Row, w: World)
    requires Accepts(w) && (w == MarkWorld(Num(k)) || other.Src?)
    requires |q.sources| == 1 && p.joins == [JoinPlan(q.sources[0].table, q.sources[0].Name(), false, None)]
    requires CountedPlan(p, arg, Src(q.sources[0].Name(), g), other, most, descending) && CountArg(arg, q, cat)
    requires OnlyFold(other, Fold("count", arg)) && FromSource(other, q.sources[0].Name()) && other != Src(q.sources[0].Name(), g)
    requires k > 1.0 && Avoids(other, Num(k)) && Columns(other) <= names && g in names && Conforms(db, cat.tables)
    requires var (u, z) := if descending then (k - 1.0, k + 1.0) else (k + 1.0, k - 1.0);
      var ds := MarkedPair(names, g, Num(k), Num(u), Num(z));
      db == map[q.sources[0].table := ds] && t == Bind(q.sources[0].Name(), ds[0]) && v == Bind(q.sources[0].Name(), ds[1])
    ensures SourceRows(p, db, w) == [t, v] && TwoSingles(p, arg, Src(q.sources[0].Name(), g), other, most, descending, t, v, w)
  {
    var s := q.sources[0].Name();
    var (u, z) := if descending then (k - 1.0, k + 1.0) else (k + 1.0, k - 1.0);
    PairRows(p, q.sources[0].table, s, names, g, Num(k), Num(u), Num(z), w);
    PairCells(s, names, g, Num(k), Num(u), Num(z));
    AllCounted(p, q, cat, arg, db, w);
    if !other.Src? { SecondKeyLate(other, arg, s, g, names, descending, k, t, v); }
  }

  /** A number that is no constant of either core. */
  lemma FreshMark(a: Core, b: Core) returns (k: real)
    ensures k > 1.0 && Avoids(a, Num(k)) && Avoids(b, Num(k))
  {
    var top := if Top(a) < Top(b) then Top(b) else Top(a);
    k := if top > 1.0 then top + 1.0 else 2.0;
    AboveTop(a, k);
    AboveTop(b, k);
  }

  lemma ClashWitness(p: Plan, q: Select, cat: Catalog, arg: Core, g: string, other: Core, most: bool, descending: bool, o: nat)
    returns (db: Database, w: World, answer: seq<seq<Value>>)
    requires |q.sources| == 1 && p.joins == [JoinPlan(q.sources[0].table, q.sources[0].Name(), false, None)]
    requires TableNamed(cat.tables, q.sources[0].table).Some?
    requires CountedPlan(p, arg, Src(q.sources[0].Name(), g), other, most, descending) && CountArg(arg, q, cat)
    requires OnlyFold(other, Fold("count", arg)) && FromSource(other, q.sources[0].Name()) && other != Src(q.sources[0].Name(), g)
    requires o < |p.outputs| && Reads(p.outputs[o]) && FromSource(p.outputs[o], q.sources[0].Name())
    ensures Conforms(db, cat.tables) && IsAnswer(p, db, w, answer) && !IsWinner(p, most, descending, db, w, answer)
  {
    var table, s := q.sources[0].table, q.sources[0].Name();
    var k := FreshMark(other, p.outputs[o]);
    var (u, z) := if descending then (k - 1.0, k + 1.0) else (k + 1.0, k - 1.0);
    var names := ColumnNames(TableNamed(cat.tables, table).value.columns) + Columns(p.outputs[o]) + Columns(other) + {g};
    var ds := MarkedPair(names, g, Num(k), Num(u), Num(z));
    db := map[table := ds];
    w := MarkWorld(Num(k));
    var t, v := Bind(s, ds[0]), Bind(s, ds[1]);
    PairConforms(cat.tables, table, names, g, Num(k), Num(u), Num(z));
    PairSingles(p, q, cat, arg, g, other, most, descending, k, names, db, t, v, w);
    PairCells(s, names, g, Num(k), Num(u), Num(z));
    MarkedValue(p.outputs[o], t, k);
    MarkedValue(p.outputs[o], v, k);
    AllMarked(p.outputs[o], t, s, Num(k));
    NoneMarked(p.outputs[o], v, Num(k));
    WrongWinner(p, arg, Src(s, g), other, most, descending, t, v, o, db, w);
    answer := [RenderRow(p, [v], w)];
  }

  /** A clash and an output that shows something of a row: on some conforming database
      the edited statement may return a group that is not the winner. */
  lemma ClashBetrays(request: Option<RankRequest>, words: string -> set<string>, q: Select, cat: Catalog, p: Plan)
    requires GroupCountRank(request, words, q, cat).Some?
    requires Compile(GroupCountRank(request, words, q, cat).value, cat) == Some(p)
    requires |q.sources| == 1 && |q.group| == 1 && KeyClash(q, cat) && q.group[0].name != "" && ShowsRows(q)
    ensures |p.group| == 1 && !AlwaysWinner(p, cat, request.value.most, request.value.descending)
  {
    var arg, g, other := ClashParts(request, words, q, cat, p);
    var a, b, c := EditedRank(request, words, q, cat, p);
    var n := OutputsRead(request, words, q, cat, p.outputs);
    var o :| 0 <= o < |p.outputs| && Reads(p.outputs[o]);
    var db, w, answer := ClashWitness(p, q, cat, arg, g, other, request.value.most, request.value.descending, o);
  }

  /** With a plain column behind the clashing alias and a plain column among the outputs
      the wrong group needs no choice of SQLite's operators: every world whose conditions
      hold returns it on some conforming database. */
  lemma ClashBetraysIn(request: Option<RankRequest>, words: string -> set<string>, q: Select, cat: Catalog, p: Plan, o: nat, w: World)
    returns (db: Database, answer: seq<seq<Value>>)
    requires GroupCountRank(request, words, q, cat).Some?
    requires Compile(GroupCountRank(request, words, q, cat).value, cat) == Some(p)
    requires |q.sources| == 1 && |q.group| == 1 && KeyClash(q, cat) && q.group[0].name != ""
    requires |p.order| == 2 && p.order[1].core.Src? && o < |p.outputs| && p.outputs[o].Src? && Accepts(w)
    ensures |p.group| == 1 && Conforms(db, cat.tables) && IsAnswer(p, db, w, answer)
    ensures !IsWinner(p, request.value.most, request.value.descending, db, w, answer)
  {
    var arg, g, other := ClashParts(request, words, q, cat, p);
    var a, b, c := EditedRank(request, words, q, cat, p);
    var n := OutputsRead(request, words, q, cat, p.outputs);
    db, answer := ColumnWitness(p, q, cat, arg, g, other, request.value.most, request.value.descending, o, w);
  }

  lemma ColumnWitness(p: Plan, q: Select, cat: Catalog, arg: Core, g: string, other: Core, most: bool, descending: bool, o: nat, w: World)
    returns (db: Database, answer: seq<seq<Value>>)
    requires |q.sources| == 1 && p.joins == [JoinPlan(q.sources[0].table, q.sources[0].Name(), false, None)]
    requires TableNamed(cat.tables, q.sources[0].table).Some? && Accepts(w)
    requires CountedPlan(p, arg, Src(q.sources[0].Name(), g), other, most, descending) && CountArg(arg, q, cat)
    requires other.Src? && FromSource(other, q.sources[0].Name()) && other != Src(q.sources[0].Name(), g)
    requires o < |p.outputs| && p.outputs[o].Src? && FromSource(p.outputs[o], q.sources[0].Name())
    ensures Conforms(db, cat.tables) && IsAnswer(p, db, w, answer) && !IsWinner(p, most, descending, db, w, answer)
  {
    var table, s := q.sources[0].table, q.sources[0].Name();
    var (u, z) := if descending then (1.0, 3.0) else (3.0, 1.0);
    var names := ColumnNames(TableNamed(cat.tables, table).value.columns) + {p.outputs[o].column, other.column, g};
    var ds := MarkedPair(names, g, Num(2.0), Num(u), Num(z));
    db := map[table := ds];
    var t, v := Bind(s, ds[0]), Bind(s, ds[1]);
    PairConforms(cat.tables, table, names, g, Num(2.0), Num(u), Num(z));
    PairSingles(p, q, cat, arg, g, other, most, descending, 2.0, names, db, t, v, w);
    PairCells(s, names, g, Num(2.0), Num(u), Num(z));
    WrongWinner(p, arg, Src(s, g), other, most, descending, t, v, o, db, w);
    answer := [RenderRow(p, [v], w)];
  }

  /** The group-count ranking answers with the winning group on every conforming database
      if and only if its two keys do not clash or its outputs show nothing of a row. */
  lemma GroupRankingExactly(request: Option<RankRequest>, words: string -> set<string>, q: Select, cat: Catalog)
    requires GroupCountRank(request, words, q, cat).Some? && Compile(GroupCountRank(request, words, q, cat).value, cat).Some?
    requires |q.sources| == 1 && |q.group| == 1 && (q.group[0].Column? ==> q.group[0].name != "")
    ensures var p := Compile(GroupCountRank(request, words, q, cat).value, cat).value;
      && |p.group| == 1
      && (AlwaysWinner(p, cat, request.value.most, request.value.descending) <==> !KeyClash(q, cat) || !ShowsRows(q))
  {
    var p := Compile(GroupCountRank(request, words, q, cat).value, cat).value;
    var most, descending := request.value.most, request.value.descending;
    var arg, key, other := EditedRank(request, words, q, cat, p);
    var n := OutputsRead(request, words, q, cat, p.outputs);
    if KeyClash(q, cat) && ShowsRows(q) {
      ClashBetrays(request, words, q, cat, p);
    } else {
      forall db, w, answer | Conforms(db, cat.tables) && IsAnswer(p, db, w, answer)
        ensures IsWinner(p, most, descending, db, w, answer)
      {
        AllCounted(p, q, cat, arg, db, w);
        if KeyClash(q, cat) { BlindWinner(p, arg, key, other, most, descending, db, w, answer); }
        else { GroupRankingAnswers(request, words, q, cat, db, w, answer); }
      }
    }
  }
}
