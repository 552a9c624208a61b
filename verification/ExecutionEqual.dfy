/** Result equivalence: equal up to the order of rows and a permutation of columns. */
module ExecutionEqual {
  import opened Orders
  import opened Sorting

  /** A SQLite value as Python reads it; finite floats and integers are exact rationals. */
  datatype Cell = Null | Number(r: real) | NonFinite(name: string) | Text(s: string) | Blob(bytes: seq<int>)

  datatype Key = NumberKey(r: real) | NumberName(name: string) | TypedKey(typeName: string, cell: Cell)

  const MICRO := 1000000.0

  /** Rounding to six decimals, half to even. */
  function Round6(r: real): real {
    var scaled := r * MICRO;
    var down := scaled.Floor;
    var part := scaled - down as real;
    (if part < 0.5 || (part == 0.5 && down % 2 == 0) then down else down + 1) as real / MICRO
  }

  /** `_value_key`. */
  function ValueKey(c: Cell): Key {
    match c
    case Number(r) => NumberKey(Round6(r))
    case NonFinite(name) => NumberName(name)
    case Null => TypedKey("NoneType", c)
    case Text(_) => TypedKey("str", c)
    case Blob(_) => TypedKey("bytes", c)
  }

  function RowKey(row: seq<Cell>): (r: seq<Key>)
    ensures |r| == |row|
  {
    seq(|row|, i requires 0 <= i < |row| => ValueKey(row[i]))
  }

  function Keyed(rows: seq<seq<Cell>>): (r: seq<seq<Key>>)
    ensures |r| == |rows|
  {
    seq(|rows|, i requires 0 <= i < |rows| => RowKey(rows[i]))
  }

  /** `_rows_key`; `repr` is Python's repr of a keyed row. */
  function RowsKey(rows: seq<seq<Cell>>, ordered: bool, repr: seq<Key> -> string): seq<seq<Key>> {
    if ordered then Keyed(rows) else Sort(Keyed(rows), repr)
  }

  ghost predicate Rectangular<T>(rows: seq<seq<T>>, w: nat) { forall i | 0 <= i < |rows| :: |rows[i]| == w }

  function Width<T>(rows: seq<seq<T>>): nat { if rows == [] then 0 else |rows[0]| }

  predicate Positions(p: seq<nat>, w: nat) { |p| == w && forall i | 0 <= i < w :: p[i] < w }

  function PermuteRow<T>(row: seq<T>, p: seq<nat>): (r: seq<T>)
    requires Positions(p, |row|)
    ensures |r| == |row|
  {
    seq(|p|, i requires 0 <= i < |p| => row[p[i]])
  }

  function PermuteRows<T>(rows: seq<seq<T>>, p: seq<nat>): (r: seq<seq<T>>)
    requires forall i | 0 <= i < |rows| :: Positions(p, |rows[i]|)
    ensures |r| == |rows|
  {
    seq(|rows|, i requires 0 <= i < |rows| => PermuteRow(rows[i], p))
  }

  const MAX_PERMUTED_WIDTH := 8

  /** The column permutations that are tried: all of them on narrow results, else none. */
  ghost predicate Tried(p: seq<nat>, w: nat) {
    IsPermutation(p, w) && (w <= MAX_PERMUTED_WIDTH || p == Range(w))
  }

  ghost predicate SameRows<T>(a: seq<seq<T>>, b: seq<seq<T>>, ordered: bool) {
    if ordered then a == b else multiset(a) == multiset(b)
  }

  /** `p` makes the keyed candidate the keyed gold result. */
  ghost predicate Reconciles(p: seq<nat>, candidate: seq<seq<Cell>>, gold: seq<seq<Cell>>, w: nat, ordered: bool) {
    && Tried(p, w) && Rectangular(candidate, w)
    && SameRows(PermuteRows(Keyed(candidate), p), Keyed(gold), ordered)
  }

  /** Result equivalence, stated without sorting and without enumeration. */
  ghost predicate Equivalent(candidate: seq<seq<Cell>>, gold: seq<seq<Cell>>, ordered: bool) {
    && |candidate| == |gold|
    && (candidate == [] ||
        (Width(candidate) == Width(gold) && exists p :: Reconciles(p, candidate, gold, Width(candidate), ordered)))
  }

  // ---------------------------------------------------------- permuting columns

  lemma IdentityPermutes<T>(rows: seq<seq<T>>, w: nat)
    requires Rectangular(rows, w)
    ensures IsPermutation(Range(w), w) && PermuteRows(rows, Range(w)) == rows
  {
    forall i | 0 <= i < |rows| ensures PermuteRow(rows[i], Range(w)) == rows[i] {}
  }

  lemma KeyedPermutes(rows: seq<seq<Cell>>, w: nat, p: seq<nat>)
    requires Rectangular(rows, w) && Positions(p, w)
    ensures Rectangular(Keyed(rows), w) && Keyed(PermuteRows(rows, p)) == PermuteRows(Keyed(rows), p)
  {
    forall i | 0 <= i < |rows| ensures RowKey(PermuteRow(rows[i], p)) == PermuteRow(RowKey(rows[i]), p) {}
  }

  function Compose(p: seq<nat>, q: seq<nat>): (r: seq<nat>)
    requires Positions(q, |p|)
    ensures |r| == |p|
  {
    seq(|q|, i requires 0 <= i < |q| => p[q[i]])
  }

  lemma ComposePermutes<T>(rows: seq<seq<T>>, w: nat, p: seq<nat>, q: seq<nat>)
    requires Rectangular(rows, w) && IsPermutation(p, w) && IsPermutation(q, w)
    ensures IsPermutation(Compose(p, q), w)
    ensures PermuteRows(PermuteRows(rows, p), q) == PermuteRows(rows, Compose(p, q))
  {
    var r := Compose(p, q);
    forall i, j | 0 <= i < j < w ensures r[i] != r[j] {
      if q[i] < q[j] { assert p[q[i]] != p[q[j]]; } else { assert p[q[j]] != p[q[i]]; }
    }
    forall i | 0 <= i < |rows| ensures PermuteRow(PermuteRow(rows[i], p), q) == PermuteRow(rows[i], r) {}
  }

  function IndexOf(p: seq<nat>, v: nat): (i: nat)
    requires v in p
    ensures i < |p| && p[i] == v
  {
    if p[0] == v then 0 else 1 + IndexOf(p[1..], v)
  }

  function Inverse(p: seq<nat>): (q: seq<nat>)
    requires forall v | 0 <= v < |p| :: v in p
    ensures |q| == |p|
  {
    seq(|p|, v requires 0 <= v < |p| => IndexOf(p, v))
  }

  lemma InversePermutes(p: seq<nat>, w: nat)
    requires IsPermutation(p, w)
    ensures forall v | 0 <= v < |p| :: v in p
    ensures IsPermutation(Inverse(p), w) && Compose(p, Inverse(p)) == Range(w) && Compose(Inverse(p), p) == Range(w)
  {
    PermutationOnto(p, w);
    var q := Inverse(p);
    forall i, j | 0 <= i < j < w ensures q[i] != q[j] { assert p[q[i]] == i && p[q[j]] == j; }
    forall i | 0 <= i < w ensures q[p[i]] == i { assert p[q[p[i]]] == p[i]; }
  }

  /** Permuting columns respects equality of rows up to order. */
  lemma {:induction false} PermuteMultiset<T>(a: seq<seq<T>>, b: seq<seq<T>>, w: nat, p: seq<nat>)
    requires Rectangular(a, w) && Rectangular(b, w) && Positions(p, w) && multiset(a) == multiset(b)
    ensures multiset(PermuteRows(a, p)) == multiset(PermuteRows(b, p))
  {
    SameSize(a, b);
    if a != [] {
      assert a[0] in a && a[0] in b;
      var i :| 0 <= i < |b| && b[i] == a[0];
      RemoveOne(a, b, i);
      PermuteMultiset(a[1..], b[..i] + b[i + 1..], w, p);
      PermuteRemoved(a, w, p, 0);
      assert a[..0] + a[1..] == a[1..];
      PermuteRemoved(b, w, p, i);
    }
  }

  lemma PermuteRemoved<T>(a: seq<seq<T>>, w: nat, p: seq<nat>, i: nat)
    requires i < |a| && Rectangular(a, w) && Positions(p, w)
    ensures Rectangular(a[..i] + a[i + 1..], w)
    ensures multiset(PermuteRows(a, p)) == multiset{PermuteRow(a[i], p)} + multiset(PermuteRows(a[..i] + a[i + 1..], p))
  {
    var rows := PermuteRows(a, p);
    Removed(rows, i);
    assert PermuteRows(a[..i] + a[i + 1..], p) == rows[..i] + rows[i + 1..];
  }

  lemma PermuteSame<T>(a: seq<seq<T>>, b: seq<seq<T>>, w: nat, p: seq<nat>, ordered: bool)
    requires Rectangular(a, w) && Rectangular(b, w) && Positions(p, w) && SameRows(a, b, ordered)
    ensures SameRows(PermuteRows(a, p), PermuteRows(b, p), ordered)
  {
    if !ordered { PermuteMultiset(a, b, w, p); }
  }

  // ------------------------------------------------------ the equivalence relation

  lemma KeyedRectangular(rows: seq<seq<Cell>>, w: nat)
    requires Rectangular(rows, w)
    ensures Rectangular(Keyed(rows), w)
  {
  }

  lemma Reflexive(a: seq<seq<Cell>>, ordered: bool)
    requires Rectangular(a, Width(a))
    ensures Equivalent(a, a, ordered)
  {
    var w := Width(a);
    KeyedRectangular(a, w);
    IdentityPermutes(Keyed(a), w);
    assert a != [] ==> Reconciles(Range(w), a, a, w, ordered);
  }

  lemma Symmetric(a: seq<seq<Cell>>, b: seq<seq<Cell>>, ordered: bool)
    requires Rectangular(a, Width(a)) && Rectangular(b, Width(b)) && Equivalent(a, b, ordered)
    ensures Equivalent(b, a, ordered)
  {
    if a != [] {
      var w := Width(a);
      var p :| Reconciles(p, a, b, w, ordered);
      InversePermutes(p, w);
      var q := Inverse(p);
      KeyedRectangular(a, w);
      KeyedRectangular(b, w);
      PermuteSame(PermuteRows(Keyed(a), p), Keyed(b), w, q, ordered);
      ComposePermutes(Keyed(a), w, p, q);
      IdentityPermutes(Keyed(a), w);
      assert Tried(q, w) by { if p == Range(w) { assert q == Range(w); } }
      assert Reconciles(q, b, a, w, ordered);
    }
  }

  lemma Transitive(a: seq<seq<Cell>>, b: seq<seq<Cell>>, c: seq<seq<Cell>>, ordered: bool)
    requires Rectangular(a, Width(a)) && Rectangular(b, Width(b)) && Rectangular(c, Width(c))
    requires Equivalent(a, b, ordered) && Equivalent(b, c, ordered)
    ensures Equivalent(a, c, ordered)
  {
    if a != [] {
      var w := Width(a);
      var p :| Reconciles(p, a, b, w, ordered);
      var q :| Reconciles(q, b, c, w, ordered);
      KeyedRectangular(a, w);
      KeyedRectangular(b, w);
      PermuteSame(PermuteRows(Keyed(a), p), Keyed(b), w, q, ordered);
      ComposePermutes(Keyed(a), w, p, q);
      assert Tried(Compose(p, q), w) by { if p == Range(w) && q == Range(w) { assert Compose(p, q) == Range(w); } }
      assert Reconciles(Compose(p, q), a, c, w, ordered);
    }
  }

  // ------------------------------------------------------------------ the search

  /** Comparing row keys is comparing the keyed rows up to order. */
  lemma RowsKeySame(a: seq<seq<Cell>>, b: seq<seq<Cell>>, ordered: bool, repr: seq<Key> -> string)
    requires Injective(repr)
    ensures RowsKey(a, ordered, repr) == RowsKey(b, ordered, repr) <==> SameRows(Keyed(a), Keyed(b), ordered)
  {
    SortCanonical(Keyed(a), Keyed(b), repr);
  }

  lemma TriedSame(candidate: seq<seq<Cell>>, gold: seq<seq<Cell>>, w: nat, p: seq<nat>, ordered: bool, repr: seq<Key> -> string)
    requires Rectangular(candidate, w) && IsPermutation(p, w) && Injective(repr)
    ensures RowsKey(PermuteRows(candidate, p), ordered, repr) == RowsKey(gold, ordered, repr)
            <==> SameRows(PermuteRows(Keyed(candidate), p), Keyed(gold), ordered)
  {
    RowsKeySame(PermuteRows(candidate, p), gold, ordered, repr);
    KeyedPermutes(candidate, w, p);
  }

  lemma EnumeratedPermutes(w: nat, i: nat)
    requires i < |Permutations(Range(w))|
    ensures IsPermutation(Permutations(Range(w))[i], w)
  {
    PermutationsComplete(Range(w), Permutations(Range(w))[i]);
    PermutationMultiset(Permutations(Range(w))[i], w);
  }

  /** The enumeration leaves no permutation out. */
  lemma AllTried(candidate: seq<seq<Cell>>, gold: seq<seq<Cell>>, w: nat, ordered: bool)
    requires Width(candidate) == w
    requires forall j | 0 <= j < |Permutations(Range(w))| :: !Reconciles(Permutations(Range(w))[j], candidate, gold, w, ordered)
    ensures forall p :: !Reconciles(p, candidate, gold, w, ordered)
  {
    forall p ensures !Reconciles(p, candidate, gold, w, ordered) {
      PermutationsComplete(Range(w), p);
      PermutationMultiset(p, w);
    }
  }

  /** `execution_equal` on rectangular results decides result equivalence. */
  method ExecutionEqual(candidate: seq<seq<Cell>>, gold: seq<seq<Cell>>, ordered: bool, repr: seq<Key> -> string) returns (equal: bool)
    requires Rectangular(candidate, Width(candidate)) && Rectangular(gold, Width(gold)) && Injective(repr)
    ensures equal <==> Equivalent(candidate, gold, ordered)
  {
    if |candidate| != |gold| {
      return false;
    }
    if candidate == [] && gold == [] {
      return true;
    }
    var w := Width(candidate);
    if w != Width(gold) {
      return false;
    }
    var goldKey := RowsKey(gold, ordered, repr);
    IdentityPermutes(candidate, w);
    TriedSame(candidate, gold, w, Range(w), ordered, repr);
    if RowsKey(candidate, ordered, repr) == goldKey {
      assert Reconciles(Range(w), candidate, gold, w, ordered);
      return true;
    }
    if w > MAX_PERMUTED_WIDTH {
      return false;
    }
    equal := SearchPermutations(candidate, gold, ordered, repr);
  }

  /** The loop over the column permutations. */
  method SearchPermutations(candidate: seq<seq<Cell>>, gold: seq<seq<Cell>>, ordered: bool, repr: seq<Key> -> string) returns (found: bool)
    requires Rectangular(candidate, Width(candidate)) && Width(candidate) <= MAX_PERMUTED_WIDTH && Injective(repr)
    ensures found <==> exists p :: Reconciles(p, candidate, gold, Width(candidate), ordered)
  {
    var w := Width(candidate);
    var goldKey := RowsKey(gold, ordered, repr);
    var permutations := Permutations(Range(w));
    for i := 0 to |permutations|
      invariant forall j | 0 <= j < i :: !Reconciles(permutations[j], candidate, gold, w, ordered)
    {
      var p := permutations[i];
      EnumeratedPermutes(w, i);
      TriedSame(candidate, gold, w, p, ordered, repr);
      if RowsKey(PermuteRows(candidate, p), ordered, repr) == goldKey {
        assert Reconciles(p, candidate, gold, w, ordered);
        return true;
      }
    }
    AllTried(candidate, gold, w, ordered);
    return false;
  }
}
