/** Which sort keys of a row-by-row plan its outputs can show. */
module SortKeys {
  import opened Orders
  import opened Sql
  import opened SqlFacts
  import opened Marked

  function Cores(order: seq<SortKey>): set<Core> { set i | 0 <= i < |order| :: order[i].core }

  /** Whether row `a` must come before row `b`. */
  ghost predicate Sooner(order: seq<SortKey>, a: Row, b: Row, w: World) {
    order != [] &&
    var u, v := Eval(order[0].core, [a], a, w), Eval(order[0].core, [b], b, w);
    Before(order[0], u, v) || (!Before(order[0], v, u) && Sooner(order[1..], a, b, w))
  }

  ghost predicate Sorted(order: seq<SortKey>, rows: seq<Row>, w: World) {
    forall i, j | 0 <= i < j < |rows| :: !Sooner(order, rows[j], rows[i], w)
  }

  ghost predicate Ties(cs: set<Core>, a: Row, b: Row, w: World) {
    forall c | c in cs :: Eval(c, [a], a, w) == Eval(c, [b], b, w)
  }

  /** A key with one value for all rows. */
  predicate Inert(c: Core) { !Reads(c) && !HasFold(c) }

  /** The keys left when constant and repeated ones are dropped, and all after the point
      from which the order decides every output. */
  function Visible(order: seq<SortKey>, seen: set<Core>, kept: set<Core>): seq<SortKey> {
    if order == [] || kept <= seen then []
    else if Inert(order[0].core) || order[0].core in seen then Visible(order[1..], seen, kept)
    else [order[0]] + Visible(order[1..], seen + {order[0].core}, kept)
  }

  /** The visible keys decide every output. */
  predicate Covers(order: seq<SortKey>, seen: set<Core>, kept: set<Core>) { kept <= seen + Cores(Visible(order, seen, kept)) }

  lemma CoresCons(k: SortKey, order: seq<SortKey>)
    ensures Cores([k] + order) == {k.core} + Cores(order)
  {
    var all := [k] + order;
    forall c | c in {k.core} + Cores(order) ensures c in Cores(all) {
      if c == k.core { assert all[0] == k; }
      else { var i :| 0 <= i < |order| && order[i].core == c; assert all[i + 1] == order[i]; }
    }
  }

  lemma {:induction false} SoonerAsymmetric(order: seq<SortKey>, a: Row, b: Row, w: World)
    ensures !(Sooner(order, a, b, w) && Sooner(order, b, a, w))
    ensures !Sooner(order, a, a, w)
  {
    if order != [] {
      var u, v := Eval(order[0].core, [a], a, w), Eval(order[0].core, [b], b, w);
      BeforeTotal(order[0], u, v);
      BeforeTotal(order[0], u, u);
      SoonerAsymmetric(order[1..], a, b, w);
    }
  }

  lemma {:induction false} NeitherSooner(order: seq<SortKey>, a: Row, b: Row, w: World)
    requires !Sooner(order, a, b, w) && !Sooner(order, b, a, w)
    ensures Ties(Cores(order), a, b, w)
  {
    if order != [] {
      BeforeTotal(order[0], Eval(order[0].core, [a], a, w), Eval(order[0].core, [b], b, w));
      NeitherSooner(order[1..], a, b, w);
      CoresCons(order[0], order[1..]);
      assert order == [order[0]] + order[1..];
    }
  }

  /** Among rows that tie in `seen`, the visible keys put nothing in an order the keys do
      not, and the other way round where they do not decide every output. */
  lemma {:induction false} VisibleSooner(order: seq<SortKey>, seen: set<Core>, kept: set<Core>, a: Row, b: Row, w: World)
    requires Ties(seen, a, b, w)
    ensures Sooner(Visible(order, seen, kept), a, b, w) ==> Sooner(order, a, b, w)
    ensures !Covers(order, seen, kept) && Sooner(order, a, b, w) ==> Sooner(Visible(order, seen, kept), a, b, w)
  {
    if order != [] && !(kept <= seen) {
      var k := order[0];
      var u, v := Eval(k.core, [a], a, w), Eval(k.core, [b], b, w);
      BeforeTotal(k, u, v);
      if Inert(k.core) || k.core in seen {
        if Inert(k.core) { BlindValue(k.core, [a], a, [b], b, w); }
        VisibleSooner(order[1..], seen, kept, a, b, w);
      } else {
        HeadVisible(order, seen, kept);
        if u == v { VisibleSooner(order[1..], seen + {k.core}, kept, a, b, w); }
      }
    }
  }

  lemma HeadVisible(order: seq<SortKey>, seen: set<Core>, kept: set<Core>)
    requires order != [] && !(kept <= seen) && !Inert(order[0].core) && order[0].core !in seen
    ensures var rest := Visible(order[1..], seen + {order[0].core}, kept);
      && Visible(order, seen, kept) == [order[0]] + rest && Visible(order, seen, kept)[1..] == rest
      && (Covers(order, seen, kept) <==> Covers(order[1..], seen + {order[0].core}, kept))
  {
    CoresCons(order[0], Visible(order[1..], seen + {order[0].core}, kept));
  }

  // ----------------------------------------------------------- one order of rows

  lemma TiesTransitive(cs: set<Core>, a: Row, b: Row, c: Row, w: World)
    requires Ties(cs, a, b, w) && Ties(cs, b, c, w)
    ensures Ties(cs, a, c, w)
  {
  }

  /** What comes before the first row of one order in another ties with it. */
  lemma BeforeFirst(order: seq<SortKey>, xs: seq<Row>, ys: seq<Row>, w: World, j: nat, i: nat)
    requires multiset(xs) == multiset(ys) && Sorted(order, xs, w) && Sorted(order, ys, w)
    requires xs != [] && j < |ys| && ys[j] == xs[0] && i <= j
    ensures Ties(Cores(order), xs[0], ys[i], w)
  {
    if i < j {
      SameSize(ys, xs);
      assert ys[i] in xs;
      var m :| 0 <= m < |xs| && xs[m] == ys[i];
      SoonerAsymmetric(order, xs[0], xs[0], w);
      NeitherSooner(order, xs[0], ys[i], w);
    }
  }

  /** Two orders of the same rows by the same keys tie row by row. */
  lemma {:induction false} OrdersTie(order: seq<SortKey>, xs: seq<Row>, ys: seq<Row>, w: World)
    requires multiset(xs) == multiset(ys) && Sorted(order, xs, w) && Sorted(order, ys, w)
    ensures |xs| == |ys| && forall i | 0 <= i < |xs| :: Ties(Cores(order), xs[i], ys[i], w)
  {
    SameSize(xs, ys);
    if xs != [] {
      assert xs[0] in xs && xs[0] in ys;
      var j :| 0 <= j < |ys| && ys[j] == xs[0];
      RemoveOne(xs, ys, j);
      var rest := ys[..j] + ys[j + 1..];
      SortedWithout(order, xs, 0, xs[1..], w);
      SortedWithout(order, ys, j, rest, w);
      OrdersTie(order, xs[1..], rest, w);
      forall i | 0 <= i < |xs| ensures Ties(Cores(order), xs[i], ys[i], w) { TiesAt(order, xs, ys, rest, w, j, i); }
    }
  }

  /** Before the place of the first row both orders tie with it; behind, they go on as
      without that row. */
  lemma TiesAt(order: seq<SortKey>, xs: seq<Row>, ys: seq<Row>, rest: seq<Row>, w: World, j: nat, i: nat)
    requires multiset(xs) == multiset(ys) && Sorted(order, xs, w) && Sorted(order, ys, w) && |xs| == |ys|
    requires j < |ys| && ys[j] == xs[0] && rest == ys[..j] + ys[j + 1..] && i < |xs|
    requires forall k | 0 <= k < |rest| :: Ties(Cores(order), xs[1..][k], rest[k], w)
    ensures Ties(Cores(order), xs[i], ys[i], w)
  {
    if i <= j { BeforeFirst(order, xs, ys, w, j, i); }
    if i > 0 {
      assert Ties(Cores(order), xs[1..][i - 1], rest[i - 1], w);
      if i > j {
        assert rest[i - 1] == ys[i];
      } else {
        BeforeFirst(order, xs, ys, w, j, i - 1);
        TiesTransitive(Cores(order), xs[i], ys[i - 1], xs[0], w);
        TiesTransitive(Cores(order), xs[i], xs[0], ys[i], w);
      }
    }
  }

  lemma SortedWithout(order: seq<SortKey>, xs: seq<Row>, i: nat, rest: seq<Row>, w: World)
    requires Sorted(order, xs, w) && i < |xs| && rest == xs[..i] + xs[i + 1..]
    ensures Sorted(order, rest, w)
  {
    assert forall k | 0 <= k < |rest| :: rest[k] == xs[if k < i then k else k + 1];
  }
}
