/** Python's `sorted` with a string key, and permutations. */
module Sorting {
  import opened Orders

  /** `sorted(xs, key=key)`: insertion before the first larger key keeps the sort stable. */
  function Insert<T>(x: T, xs: seq<T>, key: T -> string): seq<T> {
    if xs == [] then [x]
    else if StringLess(key(xs[0]), key(x)) then [xs[0]] + Insert(x, xs[1..], key)
    else [x] + xs
  }

  function Sort<T>(xs: seq<T>, key: T -> string): seq<T> {
    if xs == [] then [] else Insert(xs[0], Sort(xs[1..], key), key)
  }

  ghost predicate IsSorted<T>(xs: seq<T>, key: T -> string) {
    forall i, j | 0 <= i < j < |xs| :: !StringLess(key(xs[j]), key(xs[i]))
  }

  lemma {:induction false} InsertElements<T>(x: T, xs: seq<T>, key: T -> string)
    ensures multiset(Insert(x, xs, key)) == multiset(xs) + multiset{x}
  {
    if xs != [] {
      InsertElements(x, xs[1..], key);
      assert xs == [xs[0]] + xs[1..];
    }
  }

  lemma {:induction false} InsertSorted<T>(x: T, xs: seq<T>, key: T -> string)
    requires IsSorted(xs, key)
    ensures IsSorted(Insert(x, xs, key), key)
    ensures multiset(Insert(x, xs, key)) == multiset(xs) + multiset{x}
  {
    InsertElements(x, xs, key);
    if xs != [] {
      var ys := Insert(x, xs, key);
      if StringLess(key(xs[0]), key(x)) {
        InsertSorted(x, xs[1..], key);
        var rest := Insert(x, xs[1..], key);
        StringLessTotal(key(xs[0]), key(x));
        forall j | 0 < j < |ys| ensures !StringLess(key(ys[j]), key(ys[0])) {
          assert ys[j] == rest[j - 1] && rest[j - 1] in multiset(rest);
        }
      } else {
        forall j | 0 < j < |ys| ensures !StringLess(key(ys[j]), key(ys[0])) {
          if StringLess(key(ys[j]), key(x)) && j > 1 {
            StringLessTotal(key(xs[0]), key(xs[j - 1]));
            if key(xs[0]) != key(xs[j - 1]) { StringLessTransitive(key(xs[0]), key(xs[j - 1]), key(x)); }
          }
        }
      }
    }
  }

  /** Sorting yields the same elements, in order. */
  lemma {:induction false} SortSorted<T>(xs: seq<T>, key: T -> string)
    ensures IsSorted(Sort(xs, key), key) && multiset(Sort(xs, key)) == multiset(xs)
    ensures |Sort(xs, key)| == |xs|
  {
    if xs != [] {
      SortSorted(xs[1..], key);
      InsertSorted(xs[0], Sort(xs[1..], key), key);
      assert xs == [xs[0]] + xs[1..];
    }
    SameSize(Sort(xs, key), xs);
  }

  lemma SortedHeads<T>(a: seq<T>, b: seq<T>, key: T -> string)
    requires IsSorted(a, key) && IsSorted(b, key) && multiset(a) == multiset(b) && a != [] && b != []
    ensures key(a[0]) == key(b[0]) && b[0] in a
  {
    SameSize(a, b);
    SameSize(b, a);
    assert a[0] in a && b[0] in b;
    var i :| 0 <= i < |b| && b[i] == a[0];
    var j :| 0 <= j < |a| && a[j] == b[0];
    StringLessTotal(key(a[0]), key(b[0]));
    assert i > 0 ==> !StringLess(key(b[i]), key(b[0]));
    assert j > 0 ==> !StringLess(key(a[j]), key(a[0]));
  }

  lemma SortedTail<T>(a: seq<T>, key: T -> string)
    requires IsSorted(a, key) && a != []
    ensures IsSorted(a[1..], key)
  {
    forall i, j | 0 <= i < j < |a[1..]| ensures !StringLess(key(a[1..][j]), key(a[1..][i])) {
      assert a[1..][j] == a[j + 1] && a[1..][i] == a[i + 1];
    }
  }

  /** Two sorted sequences of the same elements are equal when equal keys mean equal elements. */
  lemma {:induction false} SortedUnique<T>(a: seq<T>, b: seq<T>, key: T -> string)
    requires IsSorted(a, key) && IsSorted(b, key) && multiset(a) == multiset(b)
    requires forall x, y | x in a && y in a :: key(x) == key(y) ==> x == y
    ensures a == b
  {
    SameSize(a, b);
    SameSize(b, a);
    if a != [] {
      SortedHeads(a, b, key);
      SortedTail(a, key);
      SortedTail(b, key);
      HeadsEqual(a, b, key);
      SameTails(a, b);
      SortedUnique(a[1..], b[1..], key);
      assert a == [a[0]] + a[1..] && b == [b[0]] + b[1..];
    }
  }

  lemma HeadsEqual<T>(a: seq<T>, b: seq<T>, key: T -> string)
    requires a != [] && b != [] && b[0] in a && key(a[0]) == key(b[0])
    requires forall x, y | x in a && y in a :: key(x) == key(y) ==> x == y
    ensures a[0] == b[0] && forall x, y | x in a[1..] && y in a[1..] :: key(x) == key(y) ==> x == y
  {
    assert a[0] in a;
    assert forall x | x in a[1..] :: x in a;
  }

  lemma SameTails<T>(a: seq<T>, b: seq<T>)
    requires multiset(a) == multiset(b) && a != [] && b != [] && a[0] == b[0]
    ensures multiset(a[1..]) == multiset(b[1..])
  {
    RemoveOne(a, b, 0);
    assert b[..0] + b[1..] == b[1..];
  }

  ghost predicate Injective<T(!new)>(key: T -> string) { forall x, y :: key(x) == key(y) ==> x == y }

  /** Sorting is a canonical form of the multiset of elements. */
  lemma SortCanonical<T(!new)>(a: seq<T>, b: seq<T>, key: T -> string)
    requires Injective(key)
    ensures Sort(a, key) == Sort(b, key) <==> multiset(a) == multiset(b)
  {
    SortSorted(a, key);
    SortSorted(b, key);
    if multiset(a) == multiset(b) { SortedUnique(Sort(a, key), Sort(b, key), key); }
  }

  // ------------------------------------------------------------ permutations

  function Range(n: nat): (r: seq<nat>)
    ensures |r| == n
  {
    seq(n, i => i)
  }

  /** `itertools.permutations(pool)`, in its order: by first element, then by the rest. */
  function Permutations(pool: seq<nat>): seq<seq<nat>>
    decreases |pool|, 1, 0
  {
    if pool == [] then [[]] else PermutationsFrom(pool, 0)
  }

  function PermutationsFrom(pool: seq<nat>, i: nat): seq<seq<nat>>
    requires pool != [] && i <= |pool|
    decreases |pool|, 0, |pool| - i
  {
    if i == |pool| then []
    else Prepend(pool[i], Permutations(pool[..i] + pool[i + 1..])) + PermutationsFrom(pool, i + 1)
  }

  function Prepend(x: nat, ps: seq<seq<nat>>): (r: seq<seq<nat>>)
    ensures |r| == |ps|
  {
    seq(|ps|, i requires 0 <= i < |ps| => [x] + ps[i])
  }

  lemma PrependHas(x: nat, ps: seq<seq<nat>>, p: seq<nat>)
    ensures p in Prepend(x, ps) <==> p != [] && p[0] == x && p[1..] in ps
  {
    if p in Prepend(x, ps) {
      var i :| 0 <= i < |ps| && [x] + ps[i] == p;
      assert p[1..] == ps[i];
    }
    if p != [] && p[0] == x && p[1..] in ps {
      var i :| 0 <= i < |ps| && ps[i] == p[1..];
      assert Prepend(x, ps)[i] == p;
    }
  }

  /** The enumeration is sound and complete. */
  lemma {:induction false} PermutationsComplete(pool: seq<nat>, p: seq<nat>)
    ensures p in Permutations(pool) <==> multiset(p) == multiset(pool)
    decreases |pool|, 1, 0
  {
    if pool == [] {
      if multiset(p) == multiset(pool) { SameSize(p, pool); }
    } else {
      PermutationsFromComplete(pool, 0, p);
      if multiset(p) == multiset(pool) {
        SameSize(p, pool);
        assert p[0] in p;
        var i :| 0 <= i < |pool| && pool[i] == p[0];
        RemoveOne(p, pool, i);
        assert StartsWith(pool, i, p);
      }
    }
  }

  /** Picking element `j` first and permuting the others. */
  predicate StartsWith(pool: seq<nat>, j: nat, p: seq<nat>)
    requires j < |pool|
  {
    p != [] && p[0] == pool[j] && multiset(p[1..]) == multiset(pool[..j] + pool[j + 1..])
  }

  lemma StartsWithPermutes(pool: seq<nat>, j: nat, p: seq<nat>)
    requires j < |pool| && StartsWith(pool, j, p)
    ensures multiset(p) == multiset(pool)
  {
    var rest := pool[..j] + pool[j + 1..];
    assert p == [p[0]] + p[1..] && pool == pool[..j] + [pool[j]] + pool[j + 1..];
    assert multiset(rest) == multiset(pool[..j]) + multiset(pool[j + 1..]);
  }

  lemma {:induction false} PermutationsFromComplete(pool: seq<nat>, i: nat, p: seq<nat>)
    requires pool != [] && i <= |pool|
    ensures p in PermutationsFrom(pool, i) <==> exists j :: i <= j < |pool| && StartsWith(pool, j, p)
    ensures p in PermutationsFrom(pool, i) ==> multiset(p) == multiset(pool)
    decreases |pool|, 0, |pool| - i
  {
    if i < |pool| {
      var rest := pool[..i] + pool[i + 1..];
      PermutationsFromComplete(pool, i + 1, p);
      PrependHas(pool[i], Permutations(rest), p);
      if p != [] { PermutationsComplete(rest, p[1..]); }
      assert p in Prepend(pool[i], Permutations(rest)) <==> StartsWith(pool, i, p);
      if StartsWith(pool, i, p) { StartsWithPermutes(pool, i, p); }
    }
  }

  /** Every position 0..n-1 exactly once. */
  ghost predicate IsPermutation(p: seq<nat>, n: nat) {
    && |p| == n
    && (forall i | 0 <= i < n :: p[i] < n)
    && (forall i, j | 0 <= i < j < n :: p[i] != p[j])
  }

  function Elements<T>(s: seq<T>): set<T> { set x | x in s }

  lemma {:induction false} DistinctSize<T>(s: seq<T>)
    requires forall i, j | 0 <= i < j < |s| :: s[i] != s[j]
    ensures |Elements(s)| == |s| && multiset(s) == multiset(Elements(s))
  {
    if s != [] {
      DistinctSize(s[1..]);
      assert s == [s[0]] + s[1..];
      assert s[0] !in s[1..];
      assert Elements(s) == {s[0]} + Elements(s[1..]);
    }
  }

  /** A permutation reaches every position. */
  lemma PermutationOnto(p: seq<nat>, n: nat)
    requires IsPermutation(p, n)
    ensures Elements(p) == Elements(Range(n)) && forall v | 0 <= v < n :: v in p
  {
    DistinctSize(p);
    DistinctSize(Range(n));
    assert Elements(p) <= Elements(Range(n)) by {
      forall v | v in Elements(p) ensures v in Range(n) { assert Range(n)[v] == v; }
    }
    SubsetSameSize(Elements(p), Elements(Range(n)));
    forall v | 0 <= v < n ensures v in p { assert Range(n)[v] == v; assert v in Elements(Range(n)); }
  }

  lemma SubsetSameSize<T>(a: set<T>, b: set<T>)
    requires a <= b && |a| == |b|
    ensures a == b
  {
    assert b == a + (b - a);
    assert |b - a| == 0;
  }

  lemma PermutationMultiset(p: seq<nat>, n: nat)
    ensures IsPermutation(p, n) <==> multiset(p) == multiset(Range(n))
  {
    DistinctSize(Range(n));
    if IsPermutation(p, n) {
      PermutationOnto(p, n);
      DistinctSize(p);
    } else if multiset(p) == multiset(Range(n)) {
      SameSize(p, Range(n));
      forall i, j | 0 <= i < j < n ensures p[i] != p[j] {
        assert p == p[..i] + [p[i]] + p[i + 1..j] + [p[j]] + p[j + 1..];
        assert multiset(p)[p[i]] <= 1 by { assert multiset(Elements(Range(n)))[p[i]] <= 1; }
      }
      forall i | 0 <= i < n ensures p[i] < n { assert p[i] in p; assert p[i] in Range(n); }
    }
  }

  /** A rearrangement of distinct elements is distinct. */
  lemma NoDuplicates<T>(s: seq<T>, t: seq<T>)
    requires multiset(s) == multiset(t) && forall i, j | 0 <= i < j < |t| :: t[i] != t[j]
    ensures forall i, j | 0 <= i < j < |s| :: s[i] != s[j]
  {
    DistinctSize(t);
    forall i, j | 0 <= i < j < |s| ensures s[i] != s[j] {
      assert s == s[..i] + [s[i]] + s[i + 1..j] + [s[j]] + s[j + 1..];
      assert multiset(s)[s[i]] <= 1;
    }
  }
}
