/** What the quotas and the picks of the manifest mean, in fractions and ranks. */
module ManifestMeaning {
  import opened Orders
  import opened Sorting
  import opened SpiderAdapter

  // ---------------------------------------------------------------------- quotas

  lemma FractionLess(x: nat, p: nat, y: nat, q: nat)
    requires p > 0 && q > 0
    ensures x as real / p as real < y as real / q as real <==> x * q < y * p
    ensures x as real / p as real == y as real / q as real <==> x * q == y * p
  {
    var a, b := x as real / p as real, y as real / q as real;
    assert a * p as real == x as real && b * q as real == y as real;
    Rescaled(a, b, p as real, q as real);
    assert (x * q) as real == x as real * q as real && (y * p) as real == y as real * p as real;
  }

  lemma Rescaled(a: real, b: real, p: real, q: real)
    requires p > 0.0 && q > 0.0
    ensures a < b <==> a * p * q < b * q * p
    ensures a == b <==> a * p * q == b * q * p
  {
    var s := p * q;
    assert s > 0.0 && a * p * q == a * s && b * q * p == b * s;
    assert (b - a) * s == b * s - a * s;
  }

  /** `a` has no better claim with `qa` than `b` with `qb`: fewer rows to a place, or as
      many and a name no later. */
  predicate NoBetterClaim(a: Group, qa: nat, b: Group, qb: nat)
    requires qa > 0 && qb > 0
  {
    var x, y := |a.rows| as real / qa as real, |b.rows| as real / qb as real;
    x < y || (x == y && (a.db == b.db || StringLess(a.db, b.db)))
  }

  lemma ClaimIsFraction(a: Group, qa: nat, b: Group, qb: nat)
    requires qa > 0 && qb > 0
    ensures NoBetter(a, qa, b, qb) <==> NoBetterClaim(a, qa, b, qb)
  {
    FractionLess(|a.rows|, qa, |b.rows|, qb);
    StringLessTotal(a.db, b.db);
  }

  /** The quotas of a manifest: one hundred in all, each database between five (or all its
      rows, if fewer) and all its rows, and no database that could take one more has a
      better claim to it than another had to its last beyond the minimum. */
  lemma QuotasAreFair(gs: seq<Group>, q: Quotas)
    requires Apportioned(gs, q)
    ensures Total(gs, By(q)) == 100
    ensures forall g | g in gs :: Quota(q, g) <= |g.rows| && (Quota(q, g) >= 5 || Quota(q, g) == |g.rows|)
    ensures forall a, b | a in gs && b in gs && 0 < Quota(q, a) < |a.rows| && Quota(q, b) > 5 ::
      NoBetterClaim(a, Quota(q, a), b, Quota(q, b) - 1)
  {
    forall a, b | a in gs && b in gs && 0 < Quota(q, a) < |a.rows| && Quota(q, b) > 5
      ensures NoBetterClaim(a, Quota(q, a), b, Quota(q, b) - 1)
    {
      ClaimIsFraction(a, Quota(q, a), b, Quota(q, b) - 1);
    }
  }

  // ----------------------------------------------------------------------- picks

  /** How many elements of `s` have a rank before `rank`. */
  function Before(s: seq<nat>, dev: seq<Row>, rank: string): nat {
    if s == [] then 0 else (if s[0] < |dev| && StringLess(dev[s[0]].rank, rank) then 1 else 0) + Before(s[1..], dev, rank)
  }

  /** How many have a rank not after `rank`. */
  function UpTo(s: seq<nat>, dev: seq<Row>, rank: string): nat {
    if s == [] then 0 else (if s[0] < |dev| && !StringLess(rank, dev[s[0]].rank) then 1 else 0) + UpTo(s[1..], dev, rank)
  }

  lemma {:induction false} CountsInserted(x: nat, s: seq<nat>, dev: seq<Row>, rank: string)
    ensures var t := Insert(x, s, RankOf(dev));
      && Before(t, dev, rank) == Before([x], dev, rank) + Before(s, dev, rank)
      && UpTo(t, dev, rank) == UpTo([x], dev, rank) + UpTo(s, dev, rank)
  {
    assert [x][1..] == [];
    if s != [] && StringLess(RankOf(dev)(s[0]), RankOf(dev)(x)) {
      CountsInserted(x, s[1..], dev, rank);
      assert Insert(x, s, RankOf(dev))[1..] == Insert(x, s[1..], RankOf(dev));
    } else {
      assert Insert(x, s, RankOf(dev))[1..] == s;
    }
  }

  lemma {:induction false} CountsSorted(s: seq<nat>, dev: seq<Row>, rank: string)
    ensures Before(Sort(s, RankOf(dev)), dev, rank) == Before(s, dev, rank)
    ensures UpTo(Sort(s, RankOf(dev)), dev, rank) == UpTo(s, dev, rank)
  {
    if s != [] {
      CountsSorted(s[1..], dev, rank);
      CountsInserted(s[0], Sort(s[1..], RankOf(dev)), dev, rank);
      assert [s[0]][1..] == [];
    }
  }

  /** In a ranked sequence no more than `p` come before the element at `p`, and more than
      `p` not after it. */
  lemma {:induction false} RankedCounts(s: seq<nat>, dev: seq<Row>, p: nat)
    requires p < |s| && IsSorted(s, RankOf(dev)) && forall i | 0 <= i < |s| :: s[i] < |dev|
    ensures Before(s, dev, dev[s[p]].rank) <= p < UpTo(s, dev, dev[s[p]].rank)
  {
    SortedTail(s, RankOf(dev));
    var rank := dev[s[p]].rank;
    StringLessTotal(rank, rank);
    if p > 0 {
      RankedCounts(s[1..], dev, p - 1);
      assert !StringLess(RankOf(dev)(s[p]), RankOf(dev)(s[0]));
    } else {
      NoneBefore(s, dev, rank);
    }
  }

  lemma {:induction false} NoneBefore(s: seq<nat>, dev: seq<Row>, rank: string)
    requires forall i | 0 <= i < |s| :: s[i] < |dev| ==> !StringLess(dev[s[i]].rank, rank)
    ensures Before(s, dev, rank) == 0
  {
    if s != [] {
      assert forall i | 0 <= i < |s| - 1 :: s[1..][i] == s[i + 1];
      NoneBefore(s[1..], dev, rank);
    }
  }

  /** Pick `r` of a database is the row in the middle of the r-th of `quota` equal strata of
      its rows by rank. */
  lemma PicksAreQuantiles(g: Group, quota: nat, dev: seq<Row>, excluded: set<nat>, r: nat) returns (p: nat)
    requires r < quota <= |g.rows| && GroupOk(g, dev, excluded, |dev|)
    ensures 2 * quota * p <= (2 * r + 1) * |g.rows| < 2 * quota * (p + 1)
    ensures var c := Picked(g, quota, dev)[r];
      && c.dbId == g.db && c.devIndex in g.rows && c.devIndex < |dev|
      && Before(g.rows, dev, dev[c.devIndex].rank) <= p < UpTo(g.rows, dev, dev[c.devIndex].rank)
  {
    p := Position(r, |g.rows|, quota);
    PositionBounds(r, |g.rows|, quota);
    LastInRange(r, |g.rows|, quota);
    RankedRows(g, dev, excluded);
    SortSorted(g.rows, RankOf(dev));
    var s := Ranked(g, dev);
    assert forall i | 0 <= i < |s| :: s[i] in g.rows;
    RankedCounts(s, dev, p);
    CountsSorted(g.rows, dev, dev[s[p]].rank);
  }
}
