/** What a group-count ranking answers, on every table content. */
module GroupRankMeaning {
  import opened Prelude
  import opened Orders
  import opened Sql
  import opened SqlFacts
  import opened ProjectionMeaning
  import opened GroupRank

  /** Groups by one key, ordered by a row count and then by that key, one row kept. */
  ghost predicate RankedPlan(p: Plan, arg: Core, key: Core, most: bool, descending: bool) {
    && p.grouped && p.group == [key] && p.having == None && !HasFold(key)
    && p.order == [SortKey(Fold("count", arg), most, false), SortKey(key, descending, true)]
    && p.limit == Some(IntLit(1)) && Plain(p)
  }

  /** The argument of COUNT is never NULL in `rows`. */
  ghost predicate CountsAll(arg: Core, rows: seq<Row>, w: World) {
    forall r | r in rows :: !Eval(arg, [r], r, w).Null?
  }

  lemma ElabTwoKeys(a: Ordered, b: Ordered, s: Scope, outputs: seq<Core>, aggOk: bool)
    requires ElabOrder([a, b], s, outputs, aggOk).Some?
    ensures ElabOrderKey(a.key, s, outputs, aggOk).Some? && ElabOrderKey(b.key, s, outputs, aggOk).Some?
    ensures ElabOrder([a, b], s, outputs, aggOk).value ==
      [SortKey(ElabOrderKey(a.key, s, outputs, aggOk).value, a.desc, a.nullsFirst),
       SortKey(ElabOrderKey(b.key, s, outputs, aggOk).value, b.desc, b.nullsFirst)]
  {
    assert [a, b][1..] == [b] && [b][1..] == [];
    assert ElabOrder([b], s, outputs, aggOk).Some?;
  }

  /** The parts of a ranking edit. */
  lemma RankParts(request: Option<RankRequest>, words: string -> set<string>, q: Select, cat: Catalog)
    returns (count: Expr, key: Expr, columns: seq<ColumnInfo>, primary: string)
    requires GroupCountRank(request, words, q, cat).Some?
    ensures |q.sources| == 1 && |q.group| == 1 && q.having == None && request.Some?
    ensures KeyOf(q) == Some(key) && !key.IntLit?
    ensures TableNamed(cat.tables, q.sources[0].table).Some? && columns == TableNamed(cat.tables, q.sources[0].table).value.columns
    ensures CountsRows(count, primary, columns)
    ensures GroupCountRank(request, words, q, cat).value ==
      q.(order := [Ordered(count, request.value.most, false), Ordered(key, request.value.descending, true)], limit := Some(IntLit(1)))
  {
    columns := TableNamed(cat.tables, q.sources[0].table).value.columns;
    primary := PrimaryKey(columns)[0];
    count := CountOf(q, primary, columns).value;
    key := KeyOf(q).value;
  }

  /** What COUNT counts in the ranked plan: everything, or a non-null column. */
  ghost predicate CountArg(arg: Core, q: Select, cat: Catalog) {
    arg == Const(Num(1.0)) ||
    exists c: ColumnInfo ::
      && |q.sources| == 1 && TableNamed(cat.tables, q.sources[0].table).Some?
      && c in TableNamed(cat.tables, q.sources[0].table).value.columns && !c.nullable && arg == Src(q.sources[0].Name(), c.name)
  }

  lemma CountCore(count: Expr, primary: string, columns: seq<ColumnInfo>, q: Select, cat: Catalog, s: Scope) returns (arg: Core)
    requires |q.sources| == 1 && s.sources == q.sources && s.tables == cat.tables
    requires TableNamed(cat.tables, q.sources[0].table).Some? && columns == TableNamed(cat.tables, q.sources[0].table).value.columns
    requires CountsRows(count, primary, columns) && Elab(count, s, true).Some?
    ensures Elab(count, s, true) == Some(Fold("count", arg)) && CountArg(arg, q, cat)
  {
    arg := Elab(count.arg, s, false).value;
    if count.arg.Column? {
      var i :| 0 <= i < |columns| && columns[i].name == count.arg.name && !columns[i].nullable;
      PrimaryColumn(cat.tables, q.sources[0].table, columns[i]);
      OneOwner(q, cat, count.arg.table, count.arg.name);
      assert columns[i] in columns;
    }
  }

  /** What the edit compiles to, when its key does not clash. */
  lemma RankPlan(request: Option<RankRequest>, words: string -> set<string>, q: Select, cat: Catalog, p: Plan)
    returns (arg: Core, key: Core)
    requires GroupCountRank(request, words, q, cat).Some?
    requires Compile(GroupCountRank(request, words, q, cat).value, cat) == Some(p)
    requires |q.sources| == 1 && |q.group| == 1 && !KeyClash(q, cat) && (q.group[0].Column? ==> q.group[0].name != "")
    ensures RankedPlan(p, arg, key, request.value.most, request.value.descending) && CountArg(arg, q, cat)
  {
    var r := GroupCountRank(request, words, q, cat).value;
    var count, keyExpr, columns, primary := RankParts(request, words, q, cat);
    var outputs := ElabAll(Values(r.items), SourceScope(r, cat), true).value;
    var s := Scope(r.sources, cat.tables, Aliases(r.items, outputs));
    RankedKey(q, r, cat);
    SameKey(r, cat, outputs, s);
    key := p.group[0];
    GroupHasNoFold(r.group, s, outputs);
    ElabTwoKeys(r.order[0], r.order[1], s, outputs, true);
    arg := CountCore(count, primary, columns, r, cat, s);
  }

  lemma {:induction false} PrimaryColumn(tables: seq<TableInfo>, n: string, c: ColumnInfo)
    requires TableNamed(tables, n).Some? && c in TableNamed(tables, n).value.columns
    ensures c.name in ColumnsOf(tables, n)
  {
    if tables[0].name != n { PrimaryColumn(tables[1..], n, c); }
  }

  // ------------------------------------------------------------- the groups

  /** The rows of one group. */
  function Members(rows: seq<Row>, key: Core, k: Value, w: World): seq<Row> { WithKey(rows, [key], [k], true, w) }

  function KeyValue(key: Core, r: Row, w: World): Value { Eval(key, [r], r, w) }

  lemma KeyIsOne(key: Core, r: Row, w: World)
    ensures GroupKey([key], r, w) == [KeyValue(key, r, w)]
  {
    assert [key][1..] == [];
  }

  lemma {:induction false} CountIsSize(arg: Core, x: Context, w: World)
    requires CountsAll(arg, x, w)
    ensures NonNull(EvalRows(arg, x, w)) == |x|
  {
    if x != [] {
      assert x[0] in x;
      assert EvalRows(arg, x, w)[1..] == EvalRows(arg, x[1..], w);
      CountIsSize(arg, x[1..], w);
    }
  }

  /** Filtering out one key does not change the group of another. */
  lemma {:induction false} MembersElsewhere(rows: seq<Row>, group: seq<Core>, gone: seq<Value>, k: seq<Value>, w: World)
    requires gone != k
    ensures WithKey(WithKey(rows, group, gone, false, w), group, k, true, w) == WithKey(rows, group, k, true, w)
  {
    if rows != [] { MembersElsewhere(rows[1..], group, gone, k, w); }
  }

  ghost predicate WholeGroups(xs: seq<Context>, rows: seq<Row>, group: seq<Core>, w: World) {
    forall i | 0 <= i < |xs| :: |xs[i]| > 0 && xs[i][0] in rows && xs[i] == WithKey(rows, group, GroupKey(group, xs[i][0], w), true, w)
  }

  ghost predicate DistinctGroups(xs: seq<Context>, group: seq<Core>, w: World) {
    && (forall i | 0 <= i < |xs| :: |xs[i]| > 0)
    && (forall i, j | 0 <= i < j < |xs| :: GroupKey(group, xs[i][0], w) != GroupKey(group, xs[j][0], w))
  }

  ghost predicate IsGroupList(xs: seq<Context>, rows: seq<Row>, group: seq<Core>, w: World) {
    && WholeGroups(xs, rows, group, w)
    && DistinctGroups(xs, group, w)
    && (forall r | r in rows :: exists i :: 0 <= i < |xs| && GroupKey(group, xs[i][0], w) == GroupKey(group, r, w))
  }

  /** A group of the rows with other keys is the group of its key among all rows. */
  lemma OtherGroup(rows: seq<Row>, group: seq<Core>, y: Context, w: World)
    requires rows != [] && |y| > 0
    requires var rest := WithKey(rows[1..], group, GroupKey(group, rows[0], w), false, w);
             y[0] in rest && y == WithKey(rest, group, GroupKey(group, y[0], w), true, w)
    ensures y[0] in rows && GroupKey(group, y[0], w) != GroupKey(group, rows[0], w)
    ensures y == WithKey(rows, group, GroupKey(group, y[0], w), true, w)
  {
    var key := GroupKey(group, rows[0], w);
    WithKeyRows(rows[1..], group, key, false, w);
    assert WithKey(rows, group, key, false, w) == WithKey(rows[1..], group, key, false, w);
    MembersElsewhere(rows, group, key, GroupKey(group, y[0], w), w);
  }

  lemma HeadFirst(rows: seq<Row>, group: seq<Core>, w: World)
    requires rows != []
    ensures var first := WithKey(rows, group, GroupKey(group, rows[0], w), true, w); |first| > 0 && first[0] == rows[0]
  {
  }

  lemma OtherGroups(rows: seq<Row>, group: seq<Core>, ys: seq<Context>, w: World)
    requires rows != [] && WholeGroups(ys, WithKey(rows[1..], group, GroupKey(group, rows[0], w), false, w), group, w)
    ensures WholeGroups(ys, rows, group, w)
    ensures forall i | 0 <= i < |ys| :: |ys[i]| > 0 && GroupKey(group, ys[i][0], w) != GroupKey(group, rows[0], w)
  {
    forall i | 0 <= i < |ys|
      ensures |ys[i]| > 0 && ys[i][0] in rows && GroupKey(group, ys[i][0], w) != GroupKey(group, rows[0], w)
      ensures ys[i] == WithKey(rows, group, GroupKey(group, ys[i][0], w), true, w)
    {
      OtherGroup(rows, group, ys[i], w);
    }
  }

  /** One group more, in front of the groups of the rows with other keys. */
  lemma FirstGroupWhole(rows: seq<Row>, group: seq<Core>, ys: seq<Context>, w: World)
    requires rows != []
    requires var rest := WithKey(rows[1..], group, GroupKey(group, rows[0], w), false, w);
             WholeGroups(ys, rest, group, w) && DistinctGroups(ys, group, w)
    ensures var xs := [WithKey(rows, group, GroupKey(group, rows[0], w), true, w)] + ys;
            WholeGroups(xs, rows, group, w) && DistinctGroups(xs, group, w)
  {
    var first := WithKey(rows, group, GroupKey(group, rows[0], w), true, w);
    HeadFirst(rows, group, w);
    OtherGroups(rows, group, ys, w);
    GroupsInFront(rows, group, first, ys, w);
  }

  lemma GroupsInFront(rows: seq<Row>, group: seq<Core>, first: Context, ys: seq<Context>, w: World)
    requires |first| > 0 && first[0] in rows && first == WithKey(rows, group, GroupKey(group, first[0], w), true, w)
    requires WholeGroups(ys, rows, group, w) && DistinctGroups(ys, group, w)
    requires forall i | 0 <= i < |ys| :: GroupKey(group, ys[i][0], w) != GroupKey(group, first[0], w)
    ensures WholeGroups([first] + ys, rows, group, w) && DistinctGroups([first] + ys, group, w)
  {
    var xs := [first] + ys;
    assert xs[0] == first && forall i | 0 < i < |xs| :: xs[i] == ys[i - 1];
  }

  /** GROUP BY yields every group of equal keys, each once and whole. */
  lemma {:induction false} GroupsComplete(rows: seq<Row>, group: seq<Core>, w: World)
    ensures IsGroupList(Groups(rows, group, w), rows, group, w)
    decreases |rows|
  {
    if rows != [] {
      var key := GroupKey(group, rows[0], w);
      var rest := WithKey(rows[1..], group, key, false, w);
      var xs, ys := Groups(rows, group, w), Groups(rest, group, w);
      GroupsComplete(rest, group, w);
      WithKeyRows(rows[1..], group, key, false, w);
      FirstGroupWhole(rows, group, ys, w);
      assert xs[0][0] == rows[0];
      forall r | r in rows ensures exists i :: 0 <= i < |xs| && GroupKey(group, xs[i][0], w) == GroupKey(group, r, w) {
        if GroupKey(group, r, w) != key {
          assert r in rest;
          var i :| 0 <= i < |ys| && GroupKey(group, ys[i][0], w) == GroupKey(group, r, w);
          assert xs[i + 1] == ys[i];
        }
      }
    }
  }

  // ------------------------------------------------------------- the winner

  /** The group of `k` has more (fewer) rows than that of `l`, or as many and the better key. */
  ghost predicate Beats(rows: seq<Row>, key: Core, k: Value, l: Value, most: bool, descending: bool, w: World) {
    var mine, other := |Members(rows, key, k, w)|, |Members(rows, key, l, w)|;
    (if most then mine > other else mine < other)
    || (mine == other && Before(SortKey(key, descending, true), k, l))
  }

  /** Key `k` has the extreme count, and among ties the extreme key, NULL first. */
  ghost predicate Wins(rows: seq<Row>, key: Core, k: Value, most: bool, descending: bool, w: World) {
    && (exists r :: r in rows && KeyValue(key, r, w) == k)
    && forall r | r in rows && KeyValue(key, r, w) != k :: Beats(rows, key, k, KeyValue(key, r, w), most, descending, w)
  }

  lemma WinnerUnique(rows: seq<Row>, key: Core, k: Value, l: Value, most: bool, descending: bool, w: World)
    requires Wins(rows, key, k, most, descending, w) && Wins(rows, key, l, most, descending, w)
    ensures k == l
  {
    BeforeTotal(SortKey(key, descending, true), k, l);
  }

  /** The two sort keys of a group. */
  lemma GroupValues(p: Plan, arg: Core, key: Core, most: bool, descending: bool, x: Context, rows: seq<Row>, w: World)
    requires RankedPlan(p, arg, key, most, descending) && |x| > 0 && CountsAll(arg, rows, w)
    requires x == WithKey(rows, p.group, GroupKey(p.group, x[0], w), true, w)
    ensures CoreValue(p, Fold("count", arg), x, w) == Num(|x| as real)
    ensures CoreValue(p, key, x, w) == KeyValue(key, x[0], w)
  {
    var b := BareRow(p, x, w);
    WithKeyRows(rows, p.group, GroupKey(p.group, x[0], w), true, w);
    assert b in x;
    CountIsSize(arg, x, w);
    KeyIsOne(key, b, w);
    KeyIsOne(key, x[0], w);
    FoldFree(key, x, b, w);
  }

  /** The group that comes first beats every other group. */
  lemma FirstWins(p: Plan, arg: Core, key: Core, most: bool, descending: bool, rows: seq<Row>, x: Context, y: Context, w: World)
    requires RankedPlan(p, arg, key, most, descending) && CountsAll(arg, rows, w) && |x| > 0 && |y| > 0
    requires x == WithKey(rows, p.group, GroupKey(p.group, x[0], w), true, w)
    requires y == WithKey(rows, p.group, GroupKey(p.group, y[0], w), true, w)
    requires !Precedes(p, 0, y, x, w) && GroupKey(p.group, x[0], w) != GroupKey(p.group, y[0], w)
    ensures (if most then |x| > |y| else |x| < |y|)
            || (|x| == |y| && Before(SortKey(key, descending, true), KeyValue(key, x[0], w), KeyValue(key, y[0], w)))
  {
    GroupValues(p, arg, key, most, descending, x, rows, w);
    GroupValues(p, arg, key, most, descending, y, rows, w);
    KeyIsOne(key, x[0], w);
    KeyIsOne(key, y[0], w);
    BeforeTotal(SortKey(key, descending, true), KeyValue(key, x[0], w), KeyValue(key, y[0], w));
    assert Precedes(p, 1, y, x, w) <==> Before(p.order[1], KeyValue(key, y[0], w), KeyValue(key, x[0], w)) by {
      assert !Precedes(p, 2, y, x, w);
    }
  }

  lemma HeadBeats(p: Plan, arg: Core, key: Core, most: bool, descending: bool, rows: seq<Row>, groups: seq<Context>, arranged: seq<Context>, r: Row, w: World)
    requires RankedPlan(p, arg, key, most, descending) && CountsAll(arg, rows, w)
    requires IsGroupList(groups, rows, p.group, w) && multiset(arranged) == multiset(groups) && InOrder(p, arranged, w)
    requires r in rows && arranged != [] && |arranged[0]| > 0 && KeyValue(key, r, w) != KeyValue(key, arranged[0][0], w)
    requires arranged[0] == WithKey(rows, p.group, GroupKey(p.group, arranged[0][0], w), true, w)
    ensures Beats(rows, key, KeyValue(key, arranged[0][0], w), KeyValue(key, r, w), most, descending, w)
  {
    var x := arranged[0];
    var j :| 0 <= j < |groups| && GroupKey(p.group, groups[j][0], w) == GroupKey(p.group, r, w);
    var y := groups[j];
    KeyIsOne(key, r, w);
    KeyIsOne(key, y[0], w);
    KeyIsOne(key, x[0], w);
    assert y in multiset(groups) && y in multiset(arranged);
    var m :| 0 <= m < |arranged| && arranged[m] == y;
    assert KeyValue(key, y[0], w) == KeyValue(key, r, w) by {
      assert [KeyValue(key, y[0], w)][0] == [KeyValue(key, r, w)][0];
    }
    assert !Precedes(p, 0, y, x, w);
    FirstWins(p, arg, key, most, descending, rows, x, y, w);
  }

  /** A grouped plan kept to one row answers with its first group. */
  lemma FirstGroupAnswers(p: Plan, db: Database, w: World, answer: seq<seq<Value>>) returns (arranged: seq<Context>)
    requires p.grouped && p.having == None && p.limit == Some(IntLit(1)) && Plain(p) && IsAnswer(p, db, w, answer)
    ensures multiset(arranged) == multiset(Groups(SourceRows(p, db, w), p.group, w)) && InOrder(p, arranged, w)
    ensures answer == Render(p, if arranged == [] then [] else [arranged[0]], w)
  {
    arranged :| Arrangement(p, db, w, arranged) && answer == Render(p, Returned(p, arranged, w), w);
    GroupsArranged(p, db, w, arranged);
    PlainReturned(p, arranged, w);
  }

  lemma GroupsArranged(p: Plan, db: Database, w: World, arranged: seq<Context>)
    requires p.grouped && p.having == None && Plain(p) && Arrangement(p, db, w, arranged)
    ensures multiset(arranged) == multiset(Groups(SourceRows(p, db, w), p.group, w)) && InOrder(p, arranged, w)
  {
    HavingNone(p, Groups(SourceRows(p, db, w), p.group, w), w);
    PlainArrangement(p, db, w, arranged);
  }

  lemma HeadWins(p: Plan, arg: Core, key: Core, most: bool, descending: bool, rows: seq<Row>, groups: seq<Context>, arranged: seq<Context>, w: World)
    returns (k: Value)
    requires RankedPlan(p, arg, key, most, descending) && CountsAll(arg, rows, w)
    requires IsGroupList(groups, rows, p.group, w) && multiset(arranged) == multiset(groups) && InOrder(p, arranged, w)
    requires arranged != []
    ensures Wins(rows, key, k, most, descending, w) && arranged[0] == Members(rows, key, k, w)
  {
    var x := arranged[0];
    SameSize(arranged, groups);
    assert x in groups;
    k := KeyValue(key, x[0], w);
    KeyIsOne(key, x[0], w);
    forall r | r in rows && KeyValue(key, r, w) != k ensures Beats(rows, key, k, KeyValue(key, r, w), most, descending, w) {
      HeadBeats(p, arg, key, most, descending, rows, groups, arranged, r, w);
    }
  }

  /** The ranked statement answers with the winning group, and with nothing else. */
  lemma ExtremeGroupWins(p: Plan, arg: Core, key: Core, most: bool, descending: bool, db: Database, w: World, answer: seq<seq<Value>>)
    returns (k: Value)
    requires RankedPlan(p, arg, key, most, descending) && CountsAll(arg, SourceRows(p, db, w), w)
    requires IsAnswer(p, db, w, answer)
    ensures SourceRows(p, db, w) == [] ==> answer == []
    ensures SourceRows(p, db, w) != [] ==>
              Wins(SourceRows(p, db, w), key, k, most, descending, w) && answer == Render(p, [Members(SourceRows(p, db, w), key, k, w)], w)
  {
    var rows := SourceRows(p, db, w);
    var groups := Groups(rows, p.group, w);
    GroupsComplete(rows, p.group, w);
    var arranged := FirstGroupAnswers(p, db, w, answer);
    SameSize(arranged, groups);
    k := Null;
    if rows != [] {
      assert rows[0] in rows;
      k := HeadWins(p, arg, key, most, descending, rows, groups, arranged, w);
    }
  }

  // --------------------------------------------------------- stored row order

  lemma {:induction false} MemberCount(rows: seq<Row>, group: seq<Core>, k: seq<Value>, r: Row, w: World)
    ensures multiset(WithKey(rows, group, k, true, w))[r] == if GroupKey(group, r, w) == k then multiset(rows)[r] else 0
  {
    if rows != [] {
      MemberCount(rows[1..], group, k, r, w);
      assert rows == [rows[0]] + rows[1..];
    }
  }

  lemma MembersPermuted(rows: seq<Row>, other: seq<Row>, key: Core, k: Value, w: World)
    requires multiset(rows) == multiset(other)
    ensures multiset(Members(rows, key, k, w)) == multiset(Members(other, key, k, w))
    ensures |Members(rows, key, k, w)| == |Members(other, key, k, w)|
  {
    forall r ensures multiset(Members(rows, key, k, w))[r] == multiset(Members(other, key, k, w))[r] {
      MemberCount(rows, [key], [k], r, w);
      MemberCount(other, [key], [k], r, w);
    }
    SameSize(Members(rows, key, k, w), Members(other, key, k, w));
  }

  /** Which key wins does not depend on the order the rows are stored in. */
  lemma WinnerPermuted(rows: seq<Row>, other: seq<Row>, key: Core, k: Value, most: bool, descending: bool, w: World)
    requires multiset(rows) == multiset(other) && Wins(rows, key, k, most, descending, w)
    ensures Wins(other, key, k, most, descending, w)
  {
    SameSize(rows, other);
    SameSize(other, rows);
    var r :| r in rows && KeyValue(key, r, w) == k;
    assert r in other;
    forall r | r in other && KeyValue(key, r, w) != k ensures Beats(other, key, k, KeyValue(key, r, w), most, descending, w) {
      MembersPermuted(rows, other, key, k, w);
      MembersPermuted(rows, other, key, KeyValue(key, r, w), w);
    }
  }

  lemma {:induction false} NonNullSplit(arg: Core, x: Context, y: Context, w: World)
    ensures NonNull(EvalRows(arg, x + y, w)) == NonNull(EvalRows(arg, x, w)) + NonNull(EvalRows(arg, y, w))
  {
    if x == [] { assert x + y == y; }
    else {
      assert (x + y)[1..] == x[1..] + y;
      NonNullSplit(arg, x[1..], y, w);
      NonNullHead(arg, x, w);
      NonNullHead(arg, x + y, w);
    }
  }

  lemma NonNullHead(arg: Core, x: Context, w: World)
    requires x != []
    ensures NonNull(EvalRows(arg, x, w)) == (if Eval(arg, [x[0]], x[0], w).Null? then 0 else 1) + NonNull(EvalRows(arg, x[1..], w))
  {
    assert EvalRows(arg, x, w)[1..] == EvalRows(arg, x[1..], w);
  }

  /** COUNT does not depend on the order of the rows. */
  lemma {:induction false} CountPermuted(arg: Core, x: Context, y: Context, w: World)
    requires multiset(x) == multiset(y)
    ensures NonNull(EvalRows(arg, x, w)) == NonNull(EvalRows(arg, y, w))
  {
    SameSize(x, y);
    if x != [] {
      assert x[0] in x && x[0] in y;
      var i :| 0 <= i < |y| && y[i] == x[0];
      RemoveOne(x, y, i);
      assert y == y[..i] + ([y[i]] + y[i + 1..]);
      CountPermuted(arg, x[1..], y[..i] + y[i + 1..], w);
      NonNullSplit(arg, y[..i], [y[i]] + y[i + 1..], w);
      NonNullSplit(arg, y[..i], y[i + 1..], w);
      NonNullHead(arg, x, w);
      NonNullHead(arg, [y[i]] + y[i + 1..], w);
      assert ([y[i]] + y[i + 1..])[1..] == y[i + 1..];
    }
  }

  predicate CountsOnly(c: Core) {
    match c
    case Op(_, args) => forall i | 0 <= i < |args| :: CountsOnly(args[i])
    case Fold(fn, _) => fn == "count"
    case _ => true
  }

  /** A grounded expression over counts has the same value in a permuted group. */
  lemma {:induction false} GroundedPermuted(c: Core, keys: seq<Core>, x: Context, y: Context, a: Row, b: Row, w: World)
    requires Grounded(c, keys) && CountsOnly(c) && !AnyFold(keys) && multiset(x) == multiset(y)
    requires GroupKey(keys, a, w) == GroupKey(keys, b, w)
    ensures Eval(c, x, a, w) == Eval(c, y, b, w)
    decreases c, 1
  {
    if c in keys {
      GroundedStable(c, keys, x, a, b, w);
      var i :| 0 <= i < |keys| && keys[i] == c;
      FoldFree(c, x, b, w);
      FoldFree(c, y, b, w);
    } else if c.Op? {
      AllGroundedPermuted(c.args, keys, x, y, a, b, w);
    } else if c.Fold? {
      CountPermuted(c.arg, x, y, w);
    }
  }

  lemma {:induction false} AllGroundedPermuted(cs: seq<Core>, keys: seq<Core>, x: Context, y: Context, a: Row, b: Row, w: World)
    requires AllGrounded(cs, keys) && (forall i | 0 <= i < |cs| :: CountsOnly(cs[i])) && !AnyFold(keys) && multiset(x) == multiset(y)
    requires GroupKey(keys, a, w) == GroupKey(keys, b, w)
    ensures EvalAll(cs, x, a, w) == EvalAll(cs, y, b, w)
    decreases cs, 0
  {
    if cs != [] {
      GroundedPermuted(cs[0], keys, x, y, a, b, w);
      AllGroundedPermuted(cs[1..], keys, x, y, a, b, w);
    }
  }

  lemma MembersRender(p: Plan, key: Core, k: Value, x: Context, y: Context, w: World)
    requires p.group == [key] && !HasFold(key) && AllGrounded(p.outputs, p.group) && forall i | 0 <= i < |p.outputs| :: CountsOnly(p.outputs[i])
    requires multiset(x) == multiset(y) && |x| == |y| > 0
    requires forall r | r in x || r in y :: GroupKey(p.group, r, w) == [k]
    ensures Render(p, [x], w) == Render(p, [y], w)
  {
    assert BareRow(p, x, w) in x && BareRow(p, y, w) in y;
    AllGroundedPermuted(p.outputs, p.group, x, y, BareRow(p, x, w), BareRow(p, y, w), w);
  }

  /** Two databases whose rows after WHERE differ only in their stored order get
      one and the same answer, when the outputs are keys and counts. */
  lemma SameRowsSameAnswer(p: Plan, arg: Core, key: Core, most: bool, descending: bool, db: Database, other: Database, w: World,
                              answer: seq<seq<Value>>, again: seq<seq<Value>>)
    requires RankedPlan(p, arg, key, most, descending) && CountsAll(arg, SourceRows(p, db, w), w)
    requires multiset(SourceRows(p, db, w)) == multiset(SourceRows(p, other, w))
    requires AllGrounded(p.outputs, p.group) && forall i | 0 <= i < |p.outputs| :: CountsOnly(p.outputs[i])
    requires IsAnswer(p, db, w, answer) && IsAnswer(p, other, w, again)
    ensures answer == again
  {
    var rows, rows' := SourceRows(p, db, w), SourceRows(p, other, w);
    SameSize(rows, rows');
    SameSize(rows', rows);
    var k := ExtremeGroupWins(p, arg, key, most, descending, db, w, answer);
    var l := ExtremeGroupWins(p, arg, key, most, descending, other, w, again);
    if rows != [] {
      WinnerPermuted(rows, rows', key, k, most, descending, w);
      WinnerUnique(rows', key, k, l, most, descending, w);
      MembersPermuted(rows, rows', key, k, w);
      WithKeyRows(rows, [key], [k], true, w);
      WithKeyRows(rows', [key], [k], true, w);
      var r :| r in rows && KeyValue(key, r, w) == k;
      KeyIsOne(key, r, w);
      assert r in Members(rows, key, k, w);
      MembersRender(p, key, k, Members(rows, key, k, w), Members(rows', key, k, w), w);
    }
  }

  // --------------------------------------------------------------- the theorem

  /** Non-null columns hold no NULL. */
  ghost predicate Conforms(db: Database, tables: seq<TableInfo>) {
    forall n, c, i | TableNamed(tables, n).Some? && c in TableNamed(tables, n).value.columns && !c.nullable
        && n in db && 0 <= i < |db[n]| :: c.name in db[n][i] && db[n][i][c.name] != Null
  }

  lemma {:induction false} FilterRows(rows: seq<Row>, c: Option<Core>, w: World)
    ensures forall r | r in Filter(rows, c, w) :: r in rows
  {
    if rows != [] { FilterRows(rows[1..], c, w); }
  }

  lemma AllCounted(p: Plan, q: Select, cat: Catalog, arg: Core, db: Database, w: World)
    requires CountArg(arg, q, cat) && Conforms(db, cat.tables)
    requires |q.sources| == 1 && p.joins == [JoinPlan(q.sources[0].table, q.sources[0].Name(), false, None)]
    ensures CountsAll(arg, SourceRows(p, db, w), w)
  {
    var source := q.sources[0];
    var records := RecordsOf(db, source.table);
    SingleSourceRows(p, db, w);
    FilterRows(BindAll(source.Name(), records), p.where, w);
    forall r | r in SourceRows(p, db, w) ensures !Eval(arg, [r], r, w).Null? {
      var i :| 0 <= i < |records| && BindAll(source.Name(), records)[i] == r;
      if arg.Src? { BindCell(source.Name(), records[i], arg.column); }
    }
  }

  lemma OneJoin(q: Select, cat: Catalog)
    requires |q.sources| == 1 && !q.sources[0].outer && q.sources[0].on == None && Compile(q, cat).Some?
    ensures Compile(q, cat).value.joins == [JoinPlan(q.sources[0].table, q.sources[0].Name(), false, None)]
  {
    var s := Scope(q.sources, cat.tables, Aliases(q.items, Compile(q, cat).value.outputs));
    assert ElabSources(q.sources[1..], s) == Some([]);
    assert [JoinPlan(q.sources[0].table, q.sources[0].Name(), false, None)] + [] == [JoinPlan(q.sources[0].table, q.sources[0].Name(), false, None)];
  }

  /** On any table content, the edited statement returns one row as soon as a row
      passes WHERE: the group with the extreme count and, among ties, the extreme
      key, NULL before every other key. */
  lemma GroupRankingAnswers(request: Option<RankRequest>, words: string -> set<string>, q: Select, cat: Catalog,
                            db: Database, w: World, answer: seq<seq<Value>>)
    requires GroupCountRank(request, words, q, cat).Some?
    requires |q.sources| == 1 && |q.group| == 1 && !KeyClash(q, cat) && (q.group[0].Column? ==> q.group[0].name != "")
    requires Compile(GroupCountRank(request, words, q, cat).value, cat).Some? && Conforms(db, cat.tables)
    requires IsAnswer(Compile(GroupCountRank(request, words, q, cat).value, cat).value, db, w, answer)
    ensures var p := Compile(GroupCountRank(request, words, q, cat).value, cat).value;
            var rows := SourceRows(p, db, w);
            |p.group| == 1 &&
            if rows == [] then answer == []
            else exists k :: Wins(rows, p.group[0], k, request.value.most, request.value.descending, w)
                          && answer == Render(p, [Members(rows, p.group[0], k, w)], w)
  {
    var r := GroupCountRank(request, words, q, cat).value;
    var p := Compile(r, cat).value;
    var arg, key := RankPlan(request, words, q, cat, p);
    OneJoin(r, cat);
    AllCounted(p, q, cat, arg, db, w);
    var k := ExtremeGroupWins(p, arg, key, request.value.most, request.value.descending, db, w, answer);
  }
}
