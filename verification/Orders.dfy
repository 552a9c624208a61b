/** Orders on strings and values, and the key sort the repository relies on. */
module Orders {

  /** Python's and SQLite's (BINARY collation) order on strings. */
  predicate StringLess(a: string, b: string) {
    b != [] && (a == [] || a[0] < b[0] || (a[0] == b[0] && StringLess(a[1..], b[1..])))
  }

  lemma {:induction false} StringLessTotal(a: string, b: string)
    ensures a == b || StringLess(a, b) || StringLess(b, a)
    ensures !(StringLess(a, b) && StringLess(b, a))
    ensures a == b ==> !StringLess(a, b)
  {
    if a != [] && b != [] {
      StringLessTotal(a[1..], b[1..]);
      assert a == [a[0]] + a[1..] && b == [b[0]] + b[1..];
    }
  }

  lemma {:induction false} StringLessTransitive(a: string, b: string, c: string)
    requires StringLess(a, b) && StringLess(b, c)
    ensures StringLess(a, c)
  {
    if a != [] && a[0] == b[0] == c[0] {
      StringLessTransitive(a[1..], b[1..], c[1..]);
    }
  }

  lemma SameSize<T>(s: seq<T>, t: seq<T>)
    requires multiset(s) == multiset(t)
    ensures |s| == |t| && forall x | x in s :: x in t
  {
    assert |s| == |multiset(s)| == |multiset(t)| == |t|;
    forall x | x in s ensures x in t { assert x in multiset(t); }
  }

  /** Permutations stay permutations when one equal element is removed from each. */
  lemma RemoveOne<T>(x: seq<T>, y: seq<T>, i: nat)
    requires multiset(x) == multiset(y) && x != [] && i < |y| && y[i] == x[0]
    ensures multiset(x[1..]) == multiset(y[..i] + y[i + 1..])
  {
    Removed(x, 0);
    assert x[..0] + x[1..] == x[1..];
    Removed(y, i);
  }

  lemma Removed<T>(s: seq<T>, i: nat)
    requires i < |s|
    ensures multiset(s) == multiset{s[i]} + multiset(s[..i] + s[i + 1..])
    ensures multiset(s[..i] + s[i + 1..]) == multiset(s) - multiset{s[i]}
  {
    assert s == s[..i] + [s[i]] + s[i + 1..];
  }

  /** A map reaches as many values as it has keys exactly when it is injective. */
  lemma {:induction false} MapSizes<K, V>(m: map<K, V>)
    ensures |m.Values| <= |m|
    ensures |m.Values| == |m| <==> forall k, l | k in m && l in m && m[k] == m[l] :: k == l
  {
    if m != map[] {
      var k :| k in m;
      var rest := m - {k};
      MapSizes(rest);
      assert m.Values == rest.Values + {m[k]} by {
        forall v | v in m.Values ensures v in rest.Values + {m[k]} {
          var l :| l in m && m[l] == v;
          if l != k { assert l in rest && rest[l] == v; }
        }
        forall v | v in rest.Values ensures v in m.Values { var l :| l in rest && rest[l] == v; assert m[l] == v; }
      }
      assert |m| == |rest| + 1 by { assert m.Keys == rest.Keys + {k}; assert |m.Keys| == |rest.Keys| + 1; }
      if m[k] in rest.Values { var l :| l in rest && rest[l] == m[k]; assert m[l] == m[k] && l != k; }
      else { assert forall l | l in rest :: rest[l] in rest.Values; }
      assert forall l | l in rest :: m[l] == rest[l];
    } else {
      assert m.Values == {};
    }
  }
}
