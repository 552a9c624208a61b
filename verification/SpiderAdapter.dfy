/** The manifest of one hundred cases: divisor-method quotas and stratified picks. */
module SpiderAdapter {
  import opened Prelude
  import opened Orders
  import opened Sorting

  const TARGET := 100
  const FLOOR := 5

  /** A dev row; `rank` stands for its complexity tier and case hash. */
  datatype Row = Row(dbId: string, rank: string)

  /** One entry of `grouped`: a database and the dev indices of its rows. */
  datatype Group = Group(db: string, rows: seq<nat>)

  datatype Case = Case(devIndex: nat, dbId: string)

  // -------------------------------------------------------------------- grouping

  ghost predicate DistinctDbs(gs: seq<Group>) { forall i, j | 0 <= i < j < |gs| :: gs[i].db != gs[j].db }

  ghost predicate GroupOk(g: Group, dev: seq<Row>, excluded: set<nat>, n: nat) {
    && g.rows != []
    && (forall k | 0 <= k < |g.rows| :: g.rows[k] < n <= |dev| && g.rows[k] !in excluded && dev[g.rows[k]].dbId == g.db)
    && (forall j, k | 0 <= j < k < |g.rows| :: g.rows[j] != g.rows[k])
  }

  ghost predicate InGroup(gs: seq<Group>, i: nat) { exists g | g in gs :: i in g.rows }

  /** `groups` are the rows before `n` that are not excluded, by database. */
  ghost predicate Grouped(dev: seq<Row>, excluded: set<nat>, gs: seq<Group>, n: nat) {
    && n <= |dev| && DistinctDbs(gs)
    && (forall g | g in gs :: GroupOk(g, dev, excluded, n))
    && (forall i | 0 <= i < n && i !in excluded :: InGroup(gs, i))
  }

  function Appended(gs: seq<Group>, db: string, i: nat): seq<Group> {
    if gs == [] then [Group(db, [i])]
    else if gs[0].db == db then [Group(db, gs[0].rows + [i])] + gs[1..]
    else [gs[0]] + Appended(gs[1..], db, i)
  }

  /** Appending changes only the entry of its database, or adds it. */
  lemma {:induction false} AppendedEntries(gs: seq<Group>, db: string, i: nat)
    ensures var r := Appended(gs, db, i);
      && |gs| <= |r| <= |gs| + 1
      && (forall k | 0 <= k < |gs| :: r[k] == gs[k] || (gs[k].db == db && r[k] == Group(db, gs[k].rows + [i])))
      && (|r| > |gs| ==> r[|gs|] == Group(db, [i]) && forall k | 0 <= k < |gs| :: gs[k].db != db)
      && InGroup(r, i)
  {
    if gs != [] && gs[0].db != db {
      AppendedEntries(gs[1..], db, i);
      var rest := Appended(gs[1..], db, i);
      var r := Appended(gs, db, i);
      assert r == [gs[0]] + rest;
      forall k | 0 <= k < |gs| ensures r[k] == gs[k] || (gs[k].db == db && r[k] == Group(db, gs[k].rows + [i])) {
        if k > 0 { assert gs[k] == gs[1..][k - 1] && r[k] == rest[k - 1]; }
      }
      if |r| > |gs| {
        forall k | 0 <= k < |gs| ensures gs[k].db != db { if k > 0 { assert gs[k] == gs[1..][k - 1]; } }
      }
      var g :| g in rest && i in g.rows;
      assert g in r && i in g.rows;
    } else {
      var r := Appended(gs, db, i);
      assert r[0] in r && i in r[0].rows;
    }
  }

  lemma AppendedGrouped(dev: seq<Row>, excluded: set<nat>, gs: seq<Group>, n: nat)
    requires Grouped(dev, excluded, gs, n) && n < |dev| && n !in excluded
    ensures Grouped(dev, excluded, Appended(gs, dev[n].dbId, n), n + 1)
  {
    var r := Appended(gs, dev[n].dbId, n);
    forall k | 0 <= k < |r| ensures GroupOk(r[k], dev, excluded, n + 1) { AppendedOk(dev, excluded, gs, n, k); }
    AppendedDbs(gs, dev[n].dbId, n);
    forall i | 0 <= i < n + 1 && i !in excluded ensures InGroup(r, i) { AppendedHolds(gs, dev[n].dbId, n, i); }
  }

  lemma AppendedDbs(gs: seq<Group>, db: string, n: nat)
    requires DistinctDbs(gs)
    ensures DistinctDbs(Appended(gs, db, n))
  {
    AppendedEntries(gs, db, n);
  }

  lemma AppendedHolds(gs: seq<Group>, db: string, n: nat, i: nat)
    requires i == n || InGroup(gs, i)
    ensures InGroup(Appended(gs, db, n), i)
  {
    AppendedEntries(gs, db, n);
    if i != n {
      var r := Appended(gs, db, n);
      var g :| g in gs && i in g.rows;
      var k :| 0 <= k < |gs| && gs[k] == g;
      assert r[k] in r && i in r[k].rows;
    }
  }

  lemma AppendedOk(dev: seq<Row>, excluded: set<nat>, gs: seq<Group>, n: nat, k: nat)
    requires n < |dev| && n !in excluded && k < |Appended(gs, dev[n].dbId, n)|
    requires forall g | g in gs :: GroupOk(g, dev, excluded, n)
    ensures GroupOk(Appended(gs, dev[n].dbId, n)[k], dev, excluded, n + 1)
  {
    AppendedEntries(gs, dev[n].dbId, n);
    if k < |gs| { assert gs[k] in gs && GroupOk(gs[k], dev, excluded, n); }
  }

  lemma ExcludedGrouped(dev: seq<Row>, excluded: set<nat>, gs: seq<Group>, n: nat)
    requires Grouped(dev, excluded, gs, n) && n < |dev| && n in excluded
    ensures Grouped(dev, excluded, gs, n + 1)
  {
    forall g | g in gs ensures GroupOk(g, dev, excluded, n + 1) { assert GroupOk(g, dev, excluded, n); }
  }

  method GroupRows(dev: seq<Row>, excluded: set<nat>) returns (gs: seq<Group>)
    ensures Grouped(dev, excluded, gs, |dev|)
  {
    gs := [];
    for i := 0 to |dev|
      invariant Grouped(dev, excluded, gs, i)
    {
      if i !in excluded {
        AppendedGrouped(dev, excluded, gs, i);
        gs := Appended(gs, dev[i].dbId, i);
      } else {
        ExcludedGrouped(dev, excluded, gs, i);
      }
    }
  }

  // ---------------------------------------------------------------------- quotas

  type Quotas = map<string, nat>

  function Quota(q: Quotas, g: Group): nat { if g.db in q then q[g.db] else 0 }

  function Least(g: Group): nat { if |g.rows| < FLOOR then |g.rows| else FLOOR }

  function Total(gs: seq<Group>, f: Group -> nat): nat {
    if gs == [] then 0 else f(gs[0]) + Total(gs[1..], f)
  }

  function Size(g: Group): nat { |g.rows| }

  function By(q: Quotas): Group -> nat { g => Quota(q, g) }

  /** `(len(a) / qa, a) <= (len(b) / qb, b)`, by cross-multiplication. */
  predicate NoBetter(a: Group, qa: nat, b: Group, qb: nat) {
    |a.rows| * qb < |b.rows| * qa || (|a.rows| * qb == |b.rows| * qa && !StringLess(b.db, a.db))
  }

  ghost predicate Fits(gs: seq<Group>, q: Quotas) { forall g | g in gs :: Least(g) <= Quota(q, g) <= |g.rows| && g.rows != [] }

  /** Divisor-optimal: no database that could take one more has a better claim to it
      than a raised database had to the last case it was given. */
  ghost predicate Optimal(gs: seq<Group>, q: Quotas) {
    forall a, b | a in gs && b in gs && Quota(q, a) < |a.rows| && Quota(q, b) > Least(b) ::
      NoBetter(a, Quota(q, a), b, Quota(q, b) - 1)
  }

  lemma Swap(a: int, b: int, c: int)
    ensures a * b * c == a * c * b
  {
  }

  lemma Cancel(a: int, b: int, c: nat)
    requires c > 0
    ensures a * c <= b * c ==> a <= b
    ensures a * c < b * c ==> a < b
  {
    if a >= b { Scale(b, a, c); }
  }

  lemma Scale(a: int, b: int, c: nat)
    requires c > 0 && a <= b
    ensures a * c <= b * c && (a < b ==> a * c < b * c)
  {
  }

  /** Comparing fractions by cross-multiplication is transitive. */
  lemma Cross(x: nat, p: nat, y: nat, q: nat, z: nat, r: nat)
    requires p > 0 && q > 0 && r > 0
    requires x * q <= y * p && y * r <= z * q
    ensures x * r <= z * p
    ensures x * q < y * p || y * r < z * q ==> x * r < z * p
  {
    Scale(x * q, y * p, r);
    Scale(y * r, z * q, p);
    Swap(x, q, r);
    Swap(y, p, r);
    Swap(z, q, p);
    Cancel(x * r, z * p, q);
  }

  lemma NoBetterTransitive(a: Group, qa: nat, b: Group, qb: nat, c: Group, qc: nat)
    requires qa > 0 && qb > 0 && qc > 0
    requires NoBetter(a, qa, b, qb) && NoBetter(b, qb, c, qc)
    ensures NoBetter(a, qa, c, qc)
  {
    Cross(|a.rows|, qa, |b.rows|, qb, |c.rows|, qc);
    StringLessTotal(a.db, b.db);
    StringLessTotal(b.db, c.db);
    if StringLess(c.db, a.db) {
      if StringLess(a.db, b.db) { StringLessTransitive(c.db, a.db, b.db); }
    }
  }

  lemma NoBetterLess(a: Group, qa: nat, more: nat)
    requires 0 < qa <= more
    ensures NoBetter(a, more, a, qa)
  {
    assert |a.rows| * qa <= |a.rows| * more;
    StringLessTotal(a.db, a.db);
  }

  lemma NoBetterTotal(a: Group, qa: nat, b: Group, qb: nat)
    ensures NoBetter(a, qa, b, qb) || NoBetter(b, qb, a, qa)
    ensures NoBetter(a, qa, b, qb) && NoBetter(b, qb, a, qa) ==> a.db == b.db
  {
    StringLessTotal(a.db, b.db);
  }

  /** The best claim to one more case, if a database has cases left. */
  method Chosen(gs: seq<Group>, q: Quotas) returns (c: Option<Group>)
    requires Fits(gs, q)
    ensures c.None? ==> forall g | g in gs :: Quota(q, g) == |g.rows|
    ensures c.Some? ==>
      && c.value in gs && Quota(q, c.value) < |c.value.rows|
      && forall a | a in gs && Quota(q, a) < |a.rows| :: NoBetter(a, Quota(q, a), c.value, Quota(q, c.value))
  {
    c := None;
    for i := 0 to |gs|
      invariant c.None? ==> forall k | 0 <= k < i :: Quota(q, gs[k]) == |gs[k].rows|
      invariant c.Some? ==> c.value in gs && Quota(q, c.value) < |c.value.rows|
      invariant c.Some? ==>
        forall k | 0 <= k < i && Quota(q, gs[k]) < |gs[k].rows| :: NoBetter(gs[k], Quota(q, gs[k]), c.value, Quota(q, c.value))
    {
      var g := gs[i];
      assert g in gs;
      if Quota(q, g) < |g.rows| {
        NoBetterLess(g, Quota(q, g), Quota(q, g));
        if c.None? {
          c := Some(g);
        } else {
          NoBetterTotal(g, Quota(q, g), c.value, Quota(q, c.value));
          if !NoBetter(g, Quota(q, g), c.value, Quota(q, c.value)) {
            forall k | 0 <= k < i && Quota(q, gs[k]) < |gs[k].rows| ensures NoBetter(gs[k], Quota(q, gs[k]), g, Quota(q, g)) {
              assert gs[k] in gs;
              NoBetterTransitive(gs[k], Quota(q, gs[k]), c.value, Quota(q, c.value), g, Quota(q, g));
            }
            c := Some(g);
          }
        }
      }
    }
  }

  /** One more for the best claim keeps the quotas optimal. */
  lemma RaiseOptimal(gs: seq<Group>, q: Quotas, c: Group)
    requires DistinctDbs(gs) && Fits(gs, q) && Optimal(gs, q) && c in gs && Quota(q, c) < |c.rows|
    requires forall a | a in gs && Quota(q, a) < |a.rows| :: NoBetter(a, Quota(q, a), c, Quota(q, c))
    ensures var r := q[c.db := Quota(q, c) + 1]; Fits(gs, r) && Optimal(gs, r)
  {
    var r := q[c.db := Quota(q, c) + 1];
    SameDbSameGroup(gs);
    forall a, b | a in gs && b in gs && Quota(r, a) < |a.rows| && Quota(r, b) > Least(b)
      ensures NoBetter(a, Quota(r, a), b, Quota(r, b) - 1)
    {
      if a == c {
        NoBetterLess(c, Quota(q, c), Quota(q, c) + 1);
        if b != c { NoBetterTransitive(c, Quota(r, c), c, Quota(q, c), b, Quota(q, b) - 1); }
      }
    }
  }

  lemma SameDbSameGroup(gs: seq<Group>)
    requires DistinctDbs(gs)
    ensures forall a, b | a in gs && b in gs && a.db == b.db :: a == b
  {
  }

  lemma {:induction false} TotalRaise(gs: seq<Group>, q: Quotas, c: Group)
    requires DistinctDbs(gs) && c in gs
    ensures Total(gs, By(q[c.db := Quota(q, c) + 1])) == Total(gs, By(q)) + 1
  {
    var r := q[c.db := Quota(q, c) + 1];
    if gs[0].db == c.db {
      TotalSame(gs[1..], By(q), By(r));
    } else {
      TotalRaise(gs[1..], q, c);
    }
  }

  lemma {:induction false} TotalSame(gs: seq<Group>, f: Group -> nat, g: Group -> nat)
    requires forall x | x in gs :: f(x) == g(x)
    ensures Total(gs, f) == Total(gs, g)
  {
    if gs != [] { TotalSame(gs[1..], f, g); }
  }

  /** A pointwise bound bounds the total, and equal totals leave no gap. */
  lemma {:induction false} TotalAtMost(gs: seq<Group>, f: Group -> nat, g: Group -> nat)
    requires forall x | x in gs :: f(x) <= g(x)
    ensures Total(gs, f) <= Total(gs, g)
    ensures Total(gs, f) == Total(gs, g) ==> forall x | x in gs :: f(x) == g(x)
  {
    if gs != [] {
      TotalAtMost(gs[1..], f, g);
      assert forall x | x in gs :: x == gs[0] || x in gs[1..];
    }
  }

  function Initial(gs: seq<Group>): (q: Quotas) {
    if gs == [] then map[] else Initial(gs[1..])[gs[0].db := Least(gs[0])]
  }

  lemma {:induction false} InitialLeast(gs: seq<Group>)
    requires DistinctDbs(gs)
    ensures forall g | g in gs :: Quota(Initial(gs), g) == Least(g)
    ensures Total(gs, By(Initial(gs))) == Total(gs, Least)
  {
    if gs != [] {
      InitialLeast(gs[1..]);
      forall g | g in gs ensures Quota(Initial(gs), g) == Least(g) { assert g == gs[0] || g in gs[1..]; }
    }
    TotalSame(gs, By(Initial(gs)), Least);
  }

  ghost predicate Apportioned(gs: seq<Group>, q: Quotas) {
    Fits(gs, q) && Optimal(gs, q) && Total(gs, By(q)) == TARGET
  }

  /** What the loop keeps. */
  ghost predicate Climbing(gs: seq<Group>, q: Quotas) {
    Fits(gs, q) && Optimal(gs, q) && Total(gs, Least) <= Total(gs, By(q)) <= Total(gs, Size)
  }

  lemma InitialClimbing(gs: seq<Group>)
    requires DistinctDbs(gs) && forall g | g in gs :: g.rows != []
    ensures Climbing(gs, Initial(gs)) && Total(gs, By(Initial(gs))) == Total(gs, Least)
  {
    InitialLeast(gs);
    TotalAtMost(gs, By(Initial(gs)), Size);
  }

  lemma RaiseClimbing(gs: seq<Group>, q: Quotas, c: Group)
    requires DistinctDbs(gs) && Climbing(gs, q) && c in gs && Quota(q, c) < |c.rows|
    requires forall a | a in gs && Quota(q, a) < |a.rows| :: NoBetter(a, Quota(q, a), c, Quota(q, c))
    ensures var r := q[c.db := Quota(q, c) + 1]; Climbing(gs, r) && Total(gs, By(r)) == Total(gs, By(q)) + 1
  {
    RaiseOptimal(gs, q, c);
    TotalRaise(gs, q, c);
    TotalAtMost(gs, By(q[c.db := Quota(q, c) + 1]), Size);
  }

  /** The quota loop ends on every input, with a negative deficit too, and succeeds
      exactly when the minima fit under the target and the rows reach it; then the
      quotas are divisor-optimal. */
  method Apportion(gs: seq<Group>) returns (q: Option<Quotas>)
    requires DistinctDbs(gs) && forall g | g in gs :: g.rows != []
    ensures q.Some? <==> Total(gs, Least) <= TARGET <= Total(gs, Size)
    ensures q.Some? ==> Apportioned(gs, q.value)
  {
    var quotas: Quotas := Initial(gs);
    InitialClimbing(gs);
    var deficit := TARGET - Total(gs, By(quotas));
    while deficit != 0
      invariant Climbing(gs, quotas)
      invariant deficit == TARGET - Total(gs, By(quotas))
      invariant Total(gs, Least) <= TARGET ==> deficit >= 0
      decreases Total(gs, Size) - Total(gs, By(quotas))
    {
      var chosen := Chosen(gs, quotas);
      if chosen.None? {
        TotalSame(gs, By(quotas), Size);
        return None;
      }
      RaiseClimbing(gs, quotas, chosen.value);
      quotas := quotas[chosen.value.db := Quota(quotas, chosen.value) + 1];
      deficit := deficit - 1;
    }
    return Some(quotas);
  }

  /** Divisor-optimal quotas are unique: the loop's answer does not depend on the
      order in which databases appear, nor on how ties are met. */
  lemma ApportionmentUnique(gs: seq<Group>, q: Quotas, r: Quotas)
    requires DistinctDbs(gs) && Apportioned(gs, q) && Apportioned(gs, r)
    ensures forall g | g in gs :: Quota(q, g) == Quota(r, g)
  {
    if exists g | g in gs :: Quota(q, g) != Quota(r, g) {
      var b := Above(gs, q, r);
      var a := Above(gs, r, q);
      NoBetterLess(b, Quota(r, b), Quota(q, b) - 1);
      NoBetterLess(a, Quota(q, a), Quota(r, a) - 1);
      NoBetterTransitive(a, Quota(q, a), b, Quota(q, b) - 1, b, Quota(r, b));
      NoBetterTransitive(b, Quota(r, b), a, Quota(r, a) - 1, a, Quota(q, a));
      NoBetterTotal(a, Quota(q, a), b, Quota(r, b));
      SameDbSameGroup(gs);
      assert false;
    }
  }

  lemma Above(gs: seq<Group>, q: Quotas, r: Quotas) returns (b: Group)
    requires Total(gs, By(q)) == Total(gs, By(r)) && exists g | g in gs :: Quota(q, g) != Quota(r, g)
    ensures b in gs && Quota(q, b) > Quota(r, b)
  {
    if forall g | g in gs :: Quota(q, g) <= Quota(r, g) {
      TotalAtMost(gs, By(q), By(r));
    }
    b :| b in gs && Quota(q, b) > Quota(r, b);
  }

  // ------------------------------------------------------------------ stratified picks

  /** `math.floor((rank + 0.5) * n / quota)`. */
  function Position(r: nat, n: nat, quota: nat): nat
    requires quota > 0
  {
    Quotient((2 * r + 1) * n, 2 * quota)
  }

  function Quotient(a: nat, b: nat): nat
    requires b > 0
  {
    a / b
  }

  lemma QuotientBounds(a: nat, b: nat)
    requires b > 0
    ensures b * Quotient(a, b) <= a < b * (Quotient(a, b) + 1)
  {
  }

  lemma PositionBounds(r: nat, n: nat, quota: nat)
    requires quota > 0
    ensures 2 * quota * Position(r, n, quota) <= (2 * r + 1) * n < 2 * quota * (Position(r, n, quota) + 1)
  {
    QuotientBounds((2 * r + 1) * n, 2 * quota);
  }

  /** With no more picks than rows, the picks are in range and strictly increasing, and
      pick r is the row at the middle of the r-th of `quota` equal strata. */
  lemma PositionsSpread(r: nat, s: nat, n: nat, quota: nat)
    requires r < s < quota <= n
    ensures Position(r, n, quota) < Position(s, n, quota) < n
  {
    PositionBounds(r, n, quota);
    PositionBounds(s, n, quota);
    Product(2 * r + 3, 2 * s + 1, n);
    assert (2 * r + 3) * n == (2 * r + 1) * n + 2 * n;
    QuotientsApart(2 * quota, Position(r, n, quota), Position(s, n, quota), (2 * r + 1) * n, (2 * s + 1) * n);
    LastInRange(s, n, quota);
  }

  lemma QuotientsApart(d: nat, p: nat, t: nat, x: nat, y: nat)
    requires d * p <= x && y < d * (t + 1) && x + d <= y
    ensures p < t
  {
    if t <= p { Product(t + 1, p + 1, d); }
  }

  lemma Product(x: nat, y: nat, z: nat)
    requires x <= y
    ensures x * z <= y * z
  {
  }

  lemma LastInRange(r: nat, n: nat, quota: nat)
    requires r < quota <= n
    ensures Position(r, n, quota) < n
  {
    PositionBounds(r, n, quota);
    Product(2 * r + 1, 2 * quota - 1, n);
    if Position(r, n, quota) >= n { Product(n, Position(r, n, quota), 2 * quota); assert false; }
  }

  /** The rank of a dev row; indices beyond the file do not occur. */
  function RankOf(dev: seq<Row>): nat -> string { (i: nat) => if i < |dev| then dev[i].rank else "" }

  function Ranked(g: Group, dev: seq<Row>): seq<nat> {
    Sort(g.rows, RankOf(dev))
  }

  /** The picks of one database. */
  function Picked(g: Group, quota: nat, dev: seq<Row>): (cs: seq<Case>)
    requires quota <= |g.rows|
    ensures |cs| == quota
  {
    SortSorted(g.rows, RankOf(dev));
    seq(quota, r requires 0 <= r < quota => LastInRange(r, |g.rows|, quota); Case(Ranked(g, dev)[Position(r, |g.rows|, quota)], g.db))
  }

  ghost predicate DistinctRows(cs: seq<Case>) { forall i, j | 0 <= i < j < |cs| :: cs[i].devIndex != cs[j].devIndex }

  lemma RankedRows(g: Group, dev: seq<Row>, excluded: set<nat>)
    requires GroupOk(g, dev, excluded, |dev|)
    ensures var ranked := Ranked(g, dev);
      && |ranked| == |g.rows|
      && (forall i | 0 <= i < |ranked| :: ranked[i] in g.rows)
      && (forall i, j | 0 <= i < j < |ranked| :: ranked[i] != ranked[j])
  {
    SortSorted(g.rows, RankOf(dev));
    SameSize(Ranked(g, dev), g.rows);
    NoDuplicates(Ranked(g, dev), g.rows);
  }

  lemma PickedDistinct(g: Group, quota: nat, dev: seq<Row>, excluded: set<nat>)
    requires quota <= |g.rows| && GroupOk(g, dev, excluded, |dev|)
    ensures DistinctRows(Picked(g, quota, dev))
    ensures forall c | c in Picked(g, quota, dev) :: c.dbId == g.db && c.devIndex in g.rows
  {
    RankedRows(g, dev, excluded);
    var ranked, n := Ranked(g, dev), |g.rows|;
    var cs := Picked(g, quota, dev);
    forall i | 0 <= i < |cs| ensures Position(i, n, quota) < n && cs[i] == Case(ranked[Position(i, n, quota)], g.db) {
      LastInRange(i, n, quota);
    }
    forall i, j | 0 <= i < j < |cs| ensures cs[i].devIndex != cs[j].devIndex { PositionsSpread(i, j, n, quota); }
  }

  /** The picks of the first `k` databases of `order`. */
  function Selection(order: seq<Group>, q: Quotas, dev: seq<Row>, k: nat): seq<Case>
    requires k <= |order| && forall g | g in order :: Quota(q, g) <= |g.rows|
  {
    if k == 0 then [] else Selection(order, q, dev, k - 1) + Picked(order[k - 1], Quota(q, order[k - 1]), dev)
  }

  lemma {:induction false} SelectionDistinct(order: seq<Group>, q: Quotas, dev: seq<Row>, excluded: set<nat>, k: nat)
    requires k <= |order| && DistinctDbs(order)
    requires forall g | g in order :: Quota(q, g) <= |g.rows| && GroupOk(g, dev, excluded, |dev|)
    ensures var cs := Selection(order, q, dev, k);
      && DistinctRows(cs)
      && (forall c | c in cs :: c.devIndex < |dev| && c.devIndex !in excluded && dev[c.devIndex].dbId == c.dbId
                                && exists j | 0 <= j < k :: order[j].db == c.dbId)
  {
    if k > 0 {
      SelectionDistinct(order, q, dev, excluded, k - 1);
      var g := order[k - 1];
      PickedDistinct(g, Quota(q, g), dev, excluded);
      var before, mine := Selection(order, q, dev, k - 1), Picked(g, Quota(q, g), dev);
      forall c | c in mine ensures c.devIndex < |dev| && c.devIndex !in excluded && dev[c.devIndex].dbId == c.dbId == g.db { }
      forall c | c in before ensures c.dbId != g.db { }
      forall c, d | c in before && d in mine ensures c.devIndex != d.devIndex { }
      forall c | c in before + mine ensures exists j | 0 <= j < k :: order[j].db == c.dbId {
        if c in before { var j :| 0 <= j < k - 1 && order[j].db == c.dbId; }
        else { assert order[k - 1].db == c.dbId; }
      }
    }
  }

  lemma {:induction false} SelectionSize(order: seq<Group>, q: Quotas, dev: seq<Row>, k: nat)
    requires k <= |order| && forall g | g in order :: Quota(q, g) <= |g.rows|
    ensures |Selection(order, q, dev, k)| == Total(order[..k], By(q))
  {
    if k > 0 {
      SelectionSize(order, q, dev, k - 1);
      TotalLast(order[..k], By(q));
      assert order[..k][..k - 1] == order[..k - 1];
    } 
  }

  lemma {:induction false} TotalLast(gs: seq<Group>, f: Group -> nat)
    requires gs != []
    ensures Total(gs, f) == Total(gs[..|gs| - 1], f) + f(gs[|gs| - 1])
  {
    if |gs| > 1 {
      TotalLast(gs[1..], f);
      assert gs[1..][..|gs| - 2] == gs[..|gs| - 1][1..];
    }
  }

  lemma {:induction false} TotalInsert(x: Group, gs: seq<Group>, key: Group -> string, f: Group -> nat)
    ensures Total(Insert(x, gs, key), f) == f(x) + Total(gs, f)
  {
    if gs != [] {
      TotalInsert(x, gs[1..], key, f);
      assert Insert(x, gs, key)[1..] == gs || Insert(x, gs, key)[1..] == Insert(x, gs[1..], key);
    }
  }

  lemma {:induction false} TotalSorted(gs: seq<Group>, key: Group -> string, f: Group -> nat)
    ensures Total(Sort(gs, key), f) == Total(gs, f)
  {
    if gs != [] {
      TotalSorted(gs[1..], key, f);
      TotalInsert(gs[0], Sort(gs[1..], key), key, f);
    }
  }

  function DbOf(g: Group): string { g.db }

  lemma SortedGroups(gs: seq<Group>)
    requires DistinctDbs(gs)
    ensures var order := Sort(gs, DbOf);
            DistinctDbs(order) && (forall g :: g in order <==> g in gs) && IsSorted(order, DbOf) && |order| == |gs|
  {
    var order := Sort(gs, DbOf);
    SortSorted(gs, DbOf);
    SameSize(order, gs);
    SameSize(gs, order);
    NoDuplicates(order, gs);
    SameDbSameGroup(gs);
  }

  method PickAll(order: seq<Group>, q: Quotas, dev: seq<Row>) returns (selected: seq<Case>)
    requires forall g | g in order :: Quota(q, g) <= |g.rows|
    ensures selected == Selection(order, q, dev, |order|)
  {
    selected := [];
    for i := 0 to |order|
      invariant selected == Selection(order, q, dev, i)
    {
      assert order[i] in order;
      var mine := PickOne(order[i], Quota(q, order[i]), dev);
      selected := selected + mine;
    }
  }

  method PickOne(g: Group, quota: nat, dev: seq<Row>) returns (mine: seq<Case>)
    requires quota <= |g.rows|
    ensures mine == Picked(g, quota, dev)
  {
    var ranked := Ranked(g, dev);
    SortSorted(g.rows, RankOf(dev));
    mine := [];
    for rank := 0 to quota
      invariant mine == Picked(g, quota, dev)[..rank]
    {
      LastInRange(rank, |g.rows|, quota);
      mine := mine + [Case(ranked[Position(rank, |g.rows|, quota)], g.db)];
    }
  }

  /** The whole selection under fitting quotas. */
  lemma SelectionGood(dev: seq<Row>, excluded: set<nat>, gs: seq<Group>, q: Quotas)
    requires Grouped(dev, excluded, gs, |dev|) && Apportioned(gs, q)
    ensures var order := Sort(gs, DbOf);
      && (forall g | g in order :: Quota(q, g) <= |g.rows|)
      && var cs := Selection(order, q, dev, |order|);
         (&& |cs| == TARGET && DistinctRows(cs)
          && forall c | c in cs :: c.devIndex < |dev| && c.devIndex !in excluded && dev[c.devIndex].dbId == c.dbId)
  {
    var order := Sort(gs, DbOf);
    SortedGroups(gs);
    SelectionDistinct(order, q, dev, excluded, |order|);
    SelectionSize(order, q, dev, |order|);
    assert order[..|order|] == order;
    TotalSorted(gs, DbOf, By(q));
  }

  /** `create_manifest`: a manifest exactly when the databases' minima fit under the
      target and their rows reach it; then it holds exactly one hundred distinct rows,
      none excluded, database by database in sorted order with the optimal quotas --
      the final check never fires. */
  method CreateManifest(dev: seq<Row>, excluded: set<nat>) returns (r: Result<seq<Case>>, gs: seq<Group>, quotas: Quotas)
    ensures Grouped(dev, excluded, gs, |dev|)
    ensures r.Ok? <==> Total(gs, Least) <= TARGET <= Total(gs, Size)
    ensures r.Ok? ==>
      && |r.value| == TARGET && DistinctRows(r.value)
      && (forall c | c in r.value :: c.devIndex < |dev| && c.devIndex !in excluded && dev[c.devIndex].dbId == c.dbId)
      && Apportioned(gs, quotas) && (forall g | g in Sort(gs, DbOf) :: Quota(quotas, g) <= |g.rows|)
      && r.value == Selection(Sort(gs, DbOf), quotas, dev, |Sort(gs, DbOf)|)
  {
    quotas := map[];
    gs := GroupRows(dev, excluded);
    assert forall g | g in gs :: GroupOk(g, dev, excluded, |dev|);
    var q := Apportion(gs);
    if q.None? {
      return Err("Spider dev does not contain 100 unique cases"), gs, quotas;
    }
    quotas := q.value;
    SelectionGood(dev, excluded, gs, quotas);
    var selected := PickAll(Sort(gs, DbOf), quotas, dev);
    if |selected| != TARGET || exists i, j :: 0 <= i < j < |selected| && selected[i].devIndex == selected[j].devIndex {
      return Err("mini manifest must contain exactly 100 unique dev rows"), gs, quotas;
    }
    return Ok(selected), gs, quotas;
  }
}
