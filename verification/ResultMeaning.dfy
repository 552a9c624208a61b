/** What result equivalence means for cells, rows and columns. */
module ResultMeaning {
  import opened Orders
  import opened Sorting
  import opened ExecutionEqual

  // ------------------------------------------------------------------- cells

  /** `n` millionths are nearest to `r`; of two the even one. */
  ghost predicate Nearest(r: real, n: int) {
    var d := r * 1000000.0 - n as real;
    -0.5 <= d <= 0.5 && (d == 0.5 || d == -0.5 ==> n % 2 == 0)
  }

  lemma RoundsToNearest(r: real) returns (n: int)
    ensures Nearest(r, n) && Round6(r) == n as real / 1000000.0
  {
    var scaled := r * 1000000.0;
    var part := scaled - scaled.Floor as real;
    n := if part < 0.5 || (part == 0.5 && scaled.Floor % 2 == 0) then scaled.Floor else scaled.Floor + 1;
  }

  /** Rounding keeps the order; so a number has one nearest value. */
  lemma NearestMonotone(r: real, s: real, m: int, n: int)
    requires r <= s && Nearest(r, m) && Nearest(s, n)
    ensures m <= n
  {
    assert r * 1000000.0 <= s * 1000000.0;
  }

  /** Cells the comparison takes for equal. */
  ghost predicate Agree(a: Cell, b: Cell) {
    match (a, b)
    case (Null, Null) => true
    case (Number(r), Number(s)) => exists n :: Nearest(r, n) && Nearest(s, n)
    case (NonFinite(m), NonFinite(n)) => m == n
    case (Text(s), Text(t)) => s == t
    case (Blob(s), Blob(t)) => s == t
    case _ => false
  }

  lemma KeysAgree(a: Cell, b: Cell)
    ensures ValueKey(a) == ValueKey(b) <==> Agree(a, b)
  {
    if a.Number? && b.Number? {
      var m := RoundsToNearest(a.r);
      var n := RoundsToNearest(b.r);
      if k :| Nearest(a.r, k) && Nearest(b.r, k) {
        NearestMonotone(a.r, a.r, m, k);
        NearestMonotone(a.r, a.r, k, m);
        NearestMonotone(b.r, b.r, n, k);
        NearestMonotone(b.r, b.r, k, n);
      }
    }
  }

  // -------------------------------------------------------------- rows and columns

  lemma {:induction false} PermutedRows<T>(a: seq<T>, b: seq<T>) returns (rows: seq<nat>)
    requires multiset(a) == multiset(b)
    ensures |a| == |b| && IsPermutation(rows, |a|) && forall i | 0 <= i < |b| :: b[i] == a[rows[i]]
  {
    SameSize(a, b);
    if b == [] { rows := []; }
    else {
      SameSize(b, a);
      assert b[0] in b && b[0] in a;
      var i :| 0 <= i < |a| && a[i] == b[0];
      RemoveOne(b, a, i);
      var rest := PermutedRows(a[..i] + a[i + 1..], b[1..]);
      rows := [i] + seq(|rest|, k requires 0 <= k < |rest| => if rest[k] < i then rest[k] else rest[k] + 1);
    }
  }

  /** The positions after the first, counted without it. */
  function WithoutFirst(rows: seq<nat>): (r: seq<nat>)
    requires rows != [] && forall i, j | 0 <= i < j < |rows| :: rows[i] != rows[j]
  {
    seq(|rows| - 1, k requires 0 <= k < |rows| - 1 => if rows[k + 1] < rows[0] then rows[k + 1] else rows[k + 1] - 1)
  }

  ghost predicate Rearranges<T>(a: seq<T>, b: seq<T>, rows: seq<nat>) {
    |a| == |b| && IsPermutation(rows, |a|) && forall i | 0 <= i < |b| :: b[i] == a[rows[i]]
  }

  lemma FirstRemoved<T>(a: seq<T>, b: seq<T>, rows: seq<nat>)
    requires Rearranges(a, b, rows) && b != []
    ensures Rearranges(a[..rows[0]] + a[rows[0] + 1..], b[1..], WithoutFirst(rows))
  {
    var i, rest := rows[0], WithoutFirst(rows);
    forall k | 0 <= k < |b| - 1 ensures rest[k] < |a| - 1 && b[1..][k] == (a[..i] + a[i + 1..])[rest[k]] {
      assert rows[k + 1] != i && b[k + 1] == a[rows[k + 1]];
    }
    forall j, k | 0 <= j < k < |rest| ensures rest[j] != rest[k] { assert rows[j + 1] != rows[k + 1] && rows[j + 1] != i && rows[k + 1] != i; }
  }

  lemma HeadApart<T>(b: seq<T>)
    requires b != []
    ensures multiset(b) == multiset{b[0]} + multiset(b[1..])
  {
    Removed(b, 0);
    assert b[..0] + b[1..] == b[1..];
  }

  lemma {:induction false} RowsPermuted<T>(a: seq<T>, b: seq<T>, rows: seq<nat>)
    requires Rearranges(a, b, rows)
    ensures multiset(a) == multiset(b)
  {
    if b == [] { assert a == b; }
    else {
      FirstRemoved(a, b, rows);
      var less := a[..rows[0]] + a[rows[0] + 1..];
      RowsPermuted(less, b[1..], WithoutFirst(rows));
      Removed(a, rows[0]);
      HeadApart(b);
    }
  }

  /** Row `i` of `gold` agrees with row `rows[i]` of `candidate`, cell by cell, when the
      columns of the latter are taken in the order `columns`. */
  ghost predicate Corresponds(candidate: seq<seq<Cell>>, gold: seq<seq<Cell>>, w: nat, ordered: bool, columns: seq<nat>, rows: seq<nat>)
    requires Rectangular(candidate, w) && Rectangular(gold, w) && |candidate| == |gold|
  {
    && IsPermutation(columns, w) && IsPermutation(rows, |gold|)
    && (w > 8 ==> forall j | 0 <= j < w :: columns[j] == j)
    && (ordered ==> forall i | 0 <= i < |rows| :: rows[i] == i)
    && forall i, j | 0 <= i < |gold| && 0 <= j < w :: Agree(candidate[rows[i]][columns[j]], gold[i][j])
  }

  lemma RowsAgree(candidate: seq<Cell>, gold: seq<Cell>, columns: seq<nat>)
    requires |candidate| == |gold| && IsPermutation(columns, |gold|)
    ensures PermuteRow(RowKey(candidate), columns) == RowKey(gold)
            <==> forall j | 0 <= j < |gold| :: Agree(candidate[columns[j]], gold[j])
  {
    forall j | 0 <= j < |gold|
      ensures PermuteRow(RowKey(candidate), columns)[j] == RowKey(gold)[j] <==> Agree(candidate[columns[j]], gold[j])
    {
      KeysAgree(candidate[columns[j]], gold[j]);
    }
  }

  lemma ReconciledRows(candidate: seq<seq<Cell>>, gold: seq<seq<Cell>>, w: nat, ordered: bool, p: seq<nat>) returns (rows: seq<nat>)
    requires Rectangular(candidate, w) && Rectangular(gold, w) && |candidate| == |gold| && Reconciles(p, candidate, gold, w, ordered)
    ensures Corresponds(candidate, gold, w, ordered, p, rows)
  {
    var a, b := PermuteRows(Keyed(candidate), p), Keyed(gold);
    if ordered {
      rows := Range(|gold|);
      assert forall i | 0 <= i < |gold| :: b[i] == a[rows[i]];
    } else {
      rows := PermutedRows(a, b);
    }
    forall i | 0 <= i < |gold| ensures forall j | 0 <= j < w :: Agree(candidate[rows[i]][p[j]], gold[i][j]) {
      assert b[i] == a[rows[i]];
      RowsAgree(candidate[rows[i]], gold[i], p);
    }
  }

  lemma CorrespondingRows(candidate: seq<seq<Cell>>, gold: seq<seq<Cell>>, w: nat, ordered: bool, p: seq<nat>, rows: seq<nat>)
    requires Rectangular(candidate, w) && Rectangular(gold, w) && |candidate| == |gold|
    requires Corresponds(candidate, gold, w, ordered, p, rows)
    ensures Reconciles(p, candidate, gold, w, ordered)
  {
    var a, b := PermuteRows(Keyed(candidate), p), Keyed(gold);
    forall i | 0 <= i < |gold| ensures b[i] == a[rows[i]] { RowsAgree(candidate[rows[i]], gold[i], p); }
    if ordered { assert a == b; } else { RowsPermuted(a, b, rows); }
    if w > 8 { assert p == Range(w); }
  }

  /** Two rectangular results are equivalent exactly when they have as many rows and columns and
      the columns, and unless the order counts the rows, of one can be rearranged so that all
      cells agree; beyond eight columns these stay in place. */
  lemma EquivalentMeans(candidate: seq<seq<Cell>>, gold: seq<seq<Cell>>, ordered: bool)
    requires Rectangular(candidate, Width(candidate)) && Rectangular(gold, Width(gold))
    ensures Equivalent(candidate, gold, ordered) <==>
      && |candidate| == |gold|
      && (candidate == [] || (|candidate[0]| == |gold[0]|
          && exists columns, rows :: Corresponds(candidate, gold, |gold[0]|, ordered, columns, rows)))
  {
    if candidate != [] && |candidate| == |gold| && |candidate[0]| == |gold[0]| {
      var w := |gold[0]|;
      if p :| Reconciles(p, candidate, gold, w, ordered) { var rows := ReconciledRows(candidate, gold, w, ordered, p); }
      if p, rows :| Corresponds(candidate, gold, w, ordered, p, rows) { CorrespondingRows(candidate, gold, w, ordered, p, rows); }
    }
  }

  /** Different integers never compare equal, nor does NULL compare equal to a number. */
  lemma IntegersDiffer(m: int, n: int, ordered: bool)
    requires m != n
    ensures !Equivalent([[Number(m as real)]], [[Number(n as real)]], ordered)
    ensures !Equivalent([[Null]], [[Number(n as real)]], ordered) && !Equivalent([[Number(n as real)]], [[Null]], ordered)
  {
    var a, b, c := [[Number(m as real)]], [[Number(n as real)]], [[Null]];
    EquivalentMeans(a, b, ordered);
    EquivalentMeans(c, b, ordered);
    EquivalentMeans(b, c, ordered);
    IntegersDisagree(m, n);
    assert forall p: seq<nat> | IsPermutation(p, 1) :: p[0] == 0;
    assert a[0][0] == Number(m as real) && b[0][0] == Number(n as real) && c[0][0] == Null;
  }

  lemma IntegersDisagree(m: int, n: int)
    requires m != n
    ensures !Agree(Number(m as real), Number(n as real))
  {
    var r, s := m as real, n as real;
    if k :| Nearest(r, k) && Nearest(s, k) {
      NearestInteger(m, k);
      NearestInteger(n, k);
    }
  }

  lemma NearestInteger(m: int, k: int)
    requires Nearest(m as real, k)
    ensures k == m * 1000000
  {
    assert Nearest(m as real, m * 1000000);
    NearestMonotone(m as real, m as real, k, m * 1000000);
    NearestMonotone(m as real, m as real, m * 1000000, k);
  }
}
