/** What the edited statement answers, on every database. */
module ProjectionMeaning {
  import opened Sql
  import opened OutputContract
  import opened ProjectionPlan
  import opened SqlFacts

  /** `c` has one value per group: a group key, an aggregate, a constant, or an operator on such. */
  predicate Grounded(c: Core, group: seq<Core>)
    decreases c
  {
    c in group ||
    match c
    case Src(_, _) => false
    case Const(_) => true
    case Op(_, args) => forall i | 0 <= i < |args| :: Grounded(args[i], group)
    case Fold(_, _) => true
  }

  predicate AllGrounded(cs: seq<Core>, group: seq<Core>) { forall i | 0 <= i < |cs| :: Grounded(cs[i], group) }

  /** Nothing the edited plan reads depends on the row SQLite reads bare columns
      from -- or else the edit removes no aggregate, so that the row is the same. */
  ghost predicate BareSafe(p: Plan, kept: seq<Core>) {
    p.grouped ==>
      || PlanFolds(p.(outputs := kept)) == PlanFolds(p)
      || (AllGrounded(kept, p.group) && AllGrounded(OrderCores(p.order), p.group)
          && (p.having.Some? ==> Grounded(p.having.value, p.group)))
  }

  // --------------------------------------------------- values within a group

  lemma {:induction false} FoldFree(c: Core, group: Context, bare: Row, w: World)
    requires !HasFold(c)
    ensures Eval(c, group, bare, w) == Eval(c, [bare], bare, w)
    decreases c, 1
  {
    match c
    case Op(_, args) => AllFoldFree(args, group, bare, w);
    case _ =>
  }

  lemma {:induction false} AllFoldFree(cs: seq<Core>, group: Context, bare: Row, w: World)
    requires !AnyFold(cs)
    ensures EvalAll(cs, group, bare, w) == EvalAll(cs, [bare], bare, w)
    decreases cs, 0
  {
    if cs != [] {
      AnyFoldCons(cs);
      FoldFree(cs[0], group, bare, w);
      AllFoldFree(cs[1..], group, bare, w);
    }
  }

  lemma {:induction false} EvalAt(cs: seq<Core>, group: Context, bare: Row, w: World, i: nat)
    requires i < |cs|
    ensures EvalAll(cs, group, bare, w)[i] == Eval(cs[i], group, bare, w)
  {
    if i > 0 { EvalAt(cs[1..], group, bare, w, i - 1); }
  }

  /** A grounded expression has the same value whichever row of the group it is read from. */
  lemma {:induction false} GroundedStable(c: Core, keys: seq<Core>, group: Context, a: Row, b: Row, w: World)
    requires Grounded(c, keys) && !AnyFold(keys) && GroupKey(keys, a, w) == GroupKey(keys, b, w)
    ensures Eval(c, group, a, w) == Eval(c, group, b, w)
    decreases c, 1
  {
    if c in keys {
      var i :| 0 <= i < |keys| && keys[i] == c;
      EvalAt(keys, [a], a, w, i);
      EvalAt(keys, [b], b, w, i);
      FoldFree(c, group, a, w);
      FoldFree(c, group, b, w);
    } else if c.Op? {
      AllGroundedStable(c.args, keys, group, a, b, w);
    }
  }

  lemma {:induction false} AllGroundedStable(cs: seq<Core>, keys: seq<Core>, group: Context, a: Row, b: Row, w: World)
    requires AllGrounded(cs, keys) && !AnyFold(keys) && GroupKey(keys, a, w) == GroupKey(keys, b, w)
    ensures EvalAll(cs, group, a, w) == EvalAll(cs, group, b, w)
    decreases cs, 0
  {
    if cs != [] {
      GroundedStable(cs[0], keys, group, a, b, w);
      AllGroundedStable(cs[1..], keys, group, a, b, w);
    }
  }

  /** All rows of a group have its key, and no group is empty. */
  ghost predicate IsGroup(x: Context, keys: seq<Core>, w: World) {
    |x| > 0 && forall i, j | 0 <= i < |x| && 0 <= j < |x| :: GroupKey(keys, x[i], w) == GroupKey(keys, x[j], w)
  }

  lemma {:induction false} WithKeyRows(rows: seq<Row>, keys: seq<Core>, key: seq<Value>, equal: bool, w: World)
    ensures forall r | r in WithKey(rows, keys, key, equal, w) :: r in rows && ((GroupKey(keys, r, w) == key) <==> equal)
    ensures forall r | r in rows && ((GroupKey(keys, r, w) == key) <==> equal) :: r in WithKey(rows, keys, key, equal, w)
  {
    if rows != [] { WithKeyRows(rows[1..], keys, key, equal, w); }
  }

  lemma {:induction false} GroupsAreGroups(rows: seq<Row>, keys: seq<Core>, w: World)
    ensures forall x | x in Groups(rows, keys, w) :: IsGroup(x, keys, w)
    decreases |rows|
  {
    if rows != [] {
      var key := GroupKey(keys, rows[0], w);
      WithKeyRows(rows, keys, key, true, w);
      var g := WithKey(rows, keys, key, true, w);
      assert rows[0] in rows;
      assert IsGroup(g, keys, w) by {
        forall i | 0 <= i < |g| ensures GroupKey(keys, g[i], w) == key { assert g[i] in g; }
      }
      GroupsAreGroups(WithKey(rows[1..], keys, key, false, w), keys, w);
    }
  }

  // ------------------------------------------------------------ the two plans

  /** A draft plan, and the same plan with the outputs `kept`. */
  ghost predicate Comparable(p: Plan, kept: seq<Core>) {
    && !p.distinct
    && (p.grouped ==> !AnyFold(p.group))
    && (!p.grouped ==> !AnyFold(p.outputs) && !AnyFold(kept))
    && BareSafe(p, kept)
  }

  ghost predicate IsContext(p: Plan, x: Context, w: World) {
    if p.grouped then IsGroup(x, p.group, w) else |x| == 1
  }

  lemma ContextsAreContexts(p: Plan, kept: seq<Core>, db: Database, w: World)
    requires Comparable(p, kept)
    ensures RawContexts(p.(outputs := kept), db, w) == RawContexts(p, db, w)
    ensures forall x | x in RawContexts(p, db, w) :: IsContext(p, x, w)
  {
    GroupsAreGroups(SourceRows(p, db, w), p.group, w);
    assert forall x | x in Singletons(SourceRows(p, db, w)) :: |x| == 1;
  }

  /** What the edited plan reads in a context is what the draft reads there. */
  lemma CoreKept(p: Plan, kept: seq<Core>, c: Core, x: Context, w: World)
    requires Comparable(p, kept) && IsContext(p, x, w)
    requires p.grouped && PlanFolds(p.(outputs := kept)) != PlanFolds(p) ==> Grounded(c, p.group)
    ensures CoreValue(p.(outputs := kept), c, x, w) == CoreValue(p, c, x, w)
  {
    var a, b := BareRow(p.(outputs := kept), x, w), BareRow(p, x, w);
    if a != b { GroundedStable(c, p.group, x, a, b, w); }
  }

  lemma {:induction false} HavingKept(p: Plan, kept: seq<Core>, xs: seq<Context>, w: World)
    requires Comparable(p, kept) && forall x | x in xs :: IsContext(p, x, w)
    ensures Having(p.(outputs := kept), xs, w) == Having(p, xs, w)
    ensures forall x | x in Having(p, xs, w) :: x in xs
  {
    if xs != [] {
      assert xs[0] in xs;
      if p.having.Some? { CoreKept(p, kept, p.having.value, xs[0], w); }
      HavingKept(p, kept, xs[1..], w);
    }
  }

  lemma {:induction false} PrecedesKept(p: Plan, kept: seq<Core>, i: nat, x: Context, y: Context, w: World)
    requires Comparable(p, kept) && IsContext(p, x, w) && IsContext(p, y, w) && i <= |p.order|
    ensures Precedes(p.(outputs := kept), i, x, y, w) == Precedes(p, i, x, y, w)
    decreases |p.order| - i
  {
    if i < |p.order| {
      assert OrderCores(p.order)[i] == p.order[i].core;
      CoreKept(p, kept, p.order[i].core, x, w);
      CoreKept(p, kept, p.order[i].core, y, w);
      PrecedesKept(p, kept, i + 1, x, y, w);
    }
  }

  lemma PopulationKept(p: Plan, kept: seq<Core>, db: Database, w: World)
    requires Comparable(p, kept)
    ensures Population(p.(outputs := kept), db, w) == Population(p, db, w)
    ensures forall x | x in Population(p, db, w) :: IsContext(p, x, w)
  {
    ContextsAreContexts(p, kept, db, w);
    HavingKept(p, kept, RawContexts(p, db, w), w);
  }

  /** Both plans may produce the population in the same orders. */
  lemma ArrangementKept(p: Plan, kept: seq<Core>, db: Database, w: World, arranged: seq<Context>)
    requires Comparable(p, kept)
    ensures Arrangement(p.(outputs := kept), db, w, arranged) <==> Arrangement(p, db, w, arranged)
    ensures Arrangement(p, db, w, arranged) ==> forall i | 0 <= i < |arranged| :: IsContext(p, arranged[i], w)
  {
    PopulationKept(p, kept, db, w);
    PlainArrangement(p, db, w, arranged);
    PlainArrangement(p.(outputs := kept), db, w, arranged);
    if multiset(arranged) == multiset(Population(p, db, w)) {
      forall i | 0 <= i < |arranged| ensures IsContext(p, arranged[i], w) {
        assert arranged[i] in multiset(arranged);
      }
      forall i, j | 0 <= i < j < |arranged|
        ensures Precedes(p.(outputs := kept), 0, arranged[j], arranged[i], w) == Precedes(p, 0, arranged[j], arranged[i], w)
      {
        PrecedesKept(p, kept, 0, arranged[j], arranged[i], w);
      }
    }
  }

  // --------------------------------------------------------------- the answers

  function PickRows<T>(rows: seq<seq<T>>, mask: seq<bool>): (r: seq<seq<T>>)
    requires forall i | 0 <= i < |rows| :: |rows[i]| == |mask|
    ensures |r| == |rows|
  {
    seq(|rows|, i requires 0 <= i < |rows| => Pick(rows[i], mask))
  }

  lemma {:induction false} EvalPick(cs: seq<Core>, mask: seq<bool>, group: Context, bare: Row, w: World)
    requires |cs| == |mask|
    ensures EvalAll(Pick(cs, mask), group, bare, w) == Pick(EvalAll(cs, group, bare, w), mask)
  {
    if cs != [] {
      EvalPick(cs[1..], mask[1..], group, bare, w);
      PickCons(cs, mask);
      PickCons(EvalAll(cs, group, bare, w), mask);
    }
  }

  lemma {:induction false} EvalAllKept(p: Plan, kept: seq<Core>, cs: seq<Core>, x: Context, w: World)
    requires Comparable(p, kept) && IsContext(p, x, w)
    requires p.grouped && PlanFolds(p.(outputs := kept)) != PlanFolds(p) ==> AllGrounded(cs, p.group)
    ensures EvalAll(cs, x, BareRow(p.(outputs := kept), x, w), w) == EvalAll(cs, x, BareRow(p, x, w), w)
  {
    if cs != [] {
      CoreKept(p, kept, cs[0], x, w);
      EvalAllKept(p, kept, cs[1..], x, w);
    }
  }

  lemma RenderKept(p: Plan, mask: seq<bool>, xs: seq<Context>, w: World)
    requires |mask| == |p.outputs| && Comparable(p, Pick(p.outputs, mask))
    requires forall i | 0 <= i < |xs| :: IsContext(p, xs[i], w)
    ensures Render(p.(outputs := Pick(p.outputs, mask)), xs, w) == PickRows(Render(p, xs, w), mask)
  {
    var kept := Pick(p.outputs, mask);
    forall i | 0 <= i < |xs|
      ensures Render(p.(outputs := kept), xs, w)[i] == Pick(Render(p, xs, w)[i], mask)
    {
      EvalAllKept(p, kept, kept, xs[i], w);
      EvalPick(p.outputs, mask, xs[i], BareRow(p, xs[i], w), w);
    }
  }

  /** `answer` is `full` without the columns outside `mask`. */
  ghost predicate DropsTo(full: seq<seq<Value>>, mask: seq<bool>, answer: seq<seq<Value>>) {
    (forall i | 0 <= i < |full| :: |full[i]| == |mask|) && answer == PickRows(full, mask)
  }

  lemma ArrangedAnswer(p: Plan, mask: seq<bool>, db: Database, w: World, arranged: seq<Context>)
    requires |mask| == |p.outputs| && Comparable(p, Pick(p.outputs, mask)) && Arrangement(p, db, w, arranged)
    ensures var p' := p.(outputs := Pick(p.outputs, mask));
            DropsTo(Render(p, Returned(p, arranged, w), w), mask, Render(p', Returned(p', arranged, w), w))
  {
    ArrangementKept(p, Pick(p.outputs, mask), db, w, arranged);
    RenderKept(p, mask, Returned(p, arranged, w), w);
  }

  lemma EditedAnswer(p: Plan, mask: seq<bool>, db: Database, w: World, answer: seq<seq<Value>>)
    requires |mask| == |p.outputs| && Comparable(p, Pick(p.outputs, mask))
    requires IsAnswer(p.(outputs := Pick(p.outputs, mask)), db, w, answer)
    ensures exists full :: IsAnswer(p, db, w, full) && DropsTo(full, mask, answer)
  {
    var p' := p.(outputs := Pick(p.outputs, mask));
    var arranged :| Arrangement(p', db, w, arranged) && answer == Render(p', Returned(p', arranged, w), w);
    ArrangementKept(p, p'.outputs, db, w, arranged);
    ArrangedAnswer(p, mask, db, w, arranged);
    assert IsAnswer(p, db, w, Render(p, Returned(p, arranged, w), w));
  }

  lemma DraftAnswer(p: Plan, mask: seq<bool>, db: Database, w: World, full: seq<seq<Value>>, answer: seq<seq<Value>>)
    requires |mask| == |p.outputs| && Comparable(p, Pick(p.outputs, mask))
    requires IsAnswer(p, db, w, full) && DropsTo(full, mask, answer)
    ensures IsAnswer(p.(outputs := Pick(p.outputs, mask)), db, w, answer)
  {
    var p' := p.(outputs := Pick(p.outputs, mask));
    var arranged :| Arrangement(p, db, w, arranged) && full == Render(p, Returned(p, arranged, w), w);
    ArrangementKept(p, p'.outputs, db, w, arranged);
    ArrangedAnswer(p, mask, db, w, arranged);
  }

  lemma AnswersKept(p: Plan, mask: seq<bool>, db: Database, w: World, answer: seq<seq<Value>>)
    requires |mask| == |p.outputs| && Comparable(p, Pick(p.outputs, mask))
    ensures IsAnswer(p.(outputs := Pick(p.outputs, mask)), db, w, answer) <==>
            exists full :: IsAnswer(p, db, w, full) && DropsTo(full, mask, answer)
  {
    if IsAnswer(p.(outputs := Pick(p.outputs, mask)), db, w, answer) { EditedAnswer(p, mask, db, w, answer); }
    if full :| IsAnswer(p, db, w, full) && DropsTo(full, mask, answer) { DraftAnswer(p, mask, db, w, full, answer); }
  }

  // --------------------------------------------------------------- the theorem

  lemma {:induction false} GroupHasNoFold(group: seq<Expr>, s: Scope, outputs: seq<Core>)
    requires ElabGroup(group, s, outputs).Some?
    ensures !AnyFold(ElabGroup(group, s, outputs).value)
  {
    if group != [] {
      GroupHasNoFold(group[1..], s, outputs);
      if !group[0].IntLit? { ElabStrict(group[0], s); }
      AnyFoldCons(ElabGroup(group, s, outputs).value);
    }
  }

  /** The projection edit keeps the meaning of the draft: whenever the guards let
      it fire, no dropped alias is captured, and the kept outputs, HAVING and ORDER
      BY read no bare column whose row an aggregate of a dropped output chooses,
      SQLite answers the edited statement exactly with the draft's answers without
      the dropped columns -- same rows, order, multiplicity and LIMIT. */
  lemma ProjectionKeepsMeaning(requested: set<string>, words: string -> set<string>, q: Select, cat: Catalog,
                               db: Database, w: World, answer: seq<seq<Value>>)
    requires Licensed(requested, words, q, cat.tables) && Compile(q, cat).Some?
    requires CaptureFree(q, EditMask(requested, words, q, cat.tables))
    requires var p := Compile(q, cat).value;
             |p.outputs| == |q.items| && BareSafe(p, Pick(p.outputs, EditMask(requested, words, q, cat.tables)))
    ensures var r := Compile(Edited(requested, words, q, cat.tables), cat);
            r.Some? && (IsAnswer(r.value, db, w, answer) <==>
              exists full :: IsAnswer(Compile(q, cat).value, db, w, full)
                          && DropsTo(full, EditMask(requested, words, q, cat.tables), answer))
  {
    var mask := EditMask(requested, words, q, cat.tables);
    var p := Compile(q, cat).value;
    LicenseGuards(requested, words, q, cat);
    EditedPlan(q, cat, mask);
    if q.group == [] { AggregationKept(q, cat, mask); }
    GroupHasNoFold(q.group, TheEdit(q, cat, mask).full, p.outputs);
    AnswersKept(p, mask, db, w, answer);
  }
}
