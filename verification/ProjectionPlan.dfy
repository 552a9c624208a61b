/**
 The edited statement compiles to the plan of the draft without the dropped
 outputs -- unless one of three capture conditions holds, and then it does not.
 */
module ProjectionPlan {
  import opened Prelude
  import opened Sql
  import opened OutputContract

  // -------------------------------------------------- scopes and elaboration

  lemma {:induction false} StarNoFold(sources: seq<Source>, tables: seq<TableInfo>)
    ensures !AnyFold(StarCells(sources, tables))
  {
    if sources != [] { StarNoFold(sources[1..], tables); }
  }

  /** An output expression, elaborated against the sources alone, means the same
      in every scope over these sources, except that aggregates may be barred. */
  lemma {:induction false} ElabWidens(e: Expr, s: Scope, t: Scope, aggOk: bool)
    requires s.aliases == [] && t.sources == s.sources && t.tables == s.tables
    requires Elab(e, s, true).Some?
    ensures Elab(e, t, aggOk) == if aggOk || !HasFold(Elab(e, s, true).value) then Elab(e, s, true) else None
    decreases e, 1
  {
    match e
    case Call(op, args) => ElabAllWidens(args, s, t, aggOk);
    case Agg(fn, a) => ElabStrict(a, s); ElabWidens(a, s, t, false);
    case AllColumns => StarNoFold(s.sources, s.tables);
    case _ =>
  }

  lemma {:induction false} ElabAllWidens(es: seq<Expr>, s: Scope, t: Scope, aggOk: bool)
    requires s.aliases == [] && t.sources == s.sources && t.tables == s.tables
    requires ElabAll(es, s, true).Some?
    ensures ElabAll(es, t, aggOk) == if aggOk || !AnyFold(ElabAll(es, s, true).value) then ElabAll(es, s, true) else None
    decreases es, 0
  {
    if es != [] {
      ElabWidens(es[0], s, t, aggOk);
      ElabAllWidens(es[1..], s, t, aggOk);
      var cs := ElabAll(es, s, true).value;
      assert cs[0] == Elab(es[0], s, true).value && cs[1..] == ElabAll(es[1..], s, true).value;
      assert AnyFold(cs) <==> HasFold(cs[0]) || AnyFold(cs[1..]) by { AnyFoldCons(cs); }
    }
  }

  lemma AnyFoldCons(cs: seq<Core>)
    requires cs != []
    ensures AnyFold(cs) <==> HasFold(cs[0]) || AnyFold(cs[1..])
  {
    if AnyFold(cs) {
      var i :| 0 <= i < |cs| && HasFold(cs[i]);
      if i > 0 { assert cs[1..][i - 1] == cs[i]; }
    }
    if AnyFold(cs[1..]) {
      var i :| 0 <= i < |cs[1..]| && HasFold(cs[1..][i]);
      assert cs[i + 1] == cs[1..][i];
    }
  }

  /** Elaborating without aggregates yields a core without folds, and agrees with elaborating with them. */
  lemma {:induction false} ElabStrict(e: Expr, s: Scope)
    requires Elab(e, s, false).Some?
    ensures !HasFold(Elab(e, s, false).value) && Elab(e, s, true) == Elab(e, s, false)
    decreases e, 1
  {
    match e
    case Call(op, args) => ElabAllStrict(args, s);
    case AllColumns => StarNoFold(s.sources, s.tables);
    case _ =>
  }

  lemma {:induction false} ElabAllStrict(es: seq<Expr>, s: Scope)
    requires ElabAll(es, s, false).Some?
    ensures !AnyFold(ElabAll(es, s, false).value) && ElabAll(es, s, true) == ElabAll(es, s, false)
    decreases es, 0
  {
    if es != [] {
      ElabStrict(es[0], s);
      ElabAllStrict(es[1..], s);
      AnyFoldCons(ElabAll(es, s, false).value);
    }
  }

  // ------------------------------------------------------------- substitution

  predicate NoOwner(n: string, s: Scope) { Owners(s.sources, s.tables, "", n) == [] }

  /** Replacing an alias by the output it names does not change what an expression means. */
  lemma {:induction false} ExpandMeans(e: Expr, alias: string, v: Expr, src: Scope, s: Scope, aggOk: bool)
    requires src.aliases == [] && s.sources == src.sources && s.tables == src.tables
    requires NoOwner(alias, s) && Elab(v, src, true).Some? && FindAlias(s.aliases, alias) == Elab(v, src, true)
    ensures Elab(Expand(e, alias, v), s, aggOk) == Elab(e, s, aggOk)
    decreases e, 1
  {
    match e
    case Column(t, n) => if t == "" && n == alias { ElabWidens(v, src, s, aggOk); }
    case Call(op, args) => ExpandAllMeans(args, alias, v, src, s, aggOk);
    case Agg(fn, a) => ExpandMeans(a, alias, v, src, s, false);
    case _ =>
  }

  lemma {:induction false} ExpandAllMeans(es: seq<Expr>, alias: string, v: Expr, src: Scope, s: Scope, aggOk: bool)
    requires src.aliases == [] && s.sources == src.sources && s.tables == src.tables
    requires NoOwner(alias, s) && Elab(v, src, true).Some? && FindAlias(s.aliases, alias) == Elab(v, src, true)
    ensures ElabAll(ExpandAll(es, alias, v), s, aggOk) == ElabAll(es, s, aggOk)
    decreases es, 0
  {
    if es != [] {
      ExpandMeans(es[0], alias, v, src, s, aggOk);
      ExpandAllMeans(es[1..], alias, v, src, s, aggOk);
      assert ExpandAll(es, alias, v)[1..] == ExpandAll(es[1..], alias, v);
    }
  }

  predicate MentionsAny(es: seq<Expr>, n: string) { exists i | 0 <= i < |es| :: Mentions(es[i], n) }

  lemma MentionsCons(es: seq<Expr>, n: string)
    requires es != []
    ensures MentionsAny(es, n) <==> Mentions(es[0], n) || MentionsAny(es[1..], n)
  {
    if MentionsAny(es, n) {
      var i :| 0 <= i < |es| && Mentions(es[i], n);
      if i > 0 { assert es[1..][i - 1] == es[i]; }
    }
    if MentionsAny(es[1..], n) {
      var i :| 0 <= i < |es[1..]| && Mentions(es[1..][i], n);
      assert es[i + 1] == es[1..][i];
    }
  }

  /** Which names an expansion mentions. */
  lemma {:induction false} ExpandMentions(e: Expr, alias: string, v: Expr, n: string)
    requires !Mentions(v, n)
    ensures Mentions(Expand(e, alias, v), n) <==> n != alias && Mentions(e, n)
    decreases e, 1
  {
    match e
    case Call(op, args) => ExpandAllMentions(args, alias, v, n);
    case Agg(fn, a) => ExpandMentions(a, alias, v, n);
    case _ =>
  }

  lemma {:induction false} ExpandAllMentions(es: seq<Expr>, alias: string, v: Expr, n: string)
    requires !Mentions(v, n)
    ensures MentionsAny(ExpandAll(es, alias, v), n) <==> n != alias && MentionsAny(es, n)
    decreases es, 0
  {
    if es != [] {
      ExpandMentions(es[0], alias, v, n);
      ExpandAllMentions(es[1..], alias, v, n);
      MentionsCons(es, n);
      var xs := ExpandAll(es, alias, v);
      MentionsCons(xs, n);
      assert xs[1..] == ExpandAll(es[1..], alias, v);
    }
  }

  /** A source-only expression mentions no name without owner. */
  lemma {:induction false} ElabMentions(e: Expr, src: Scope, aggOk: bool, n: string)
    requires src.aliases == [] && Elab(e, src, aggOk).Some? && NoOwner(n, src)
    ensures !Mentions(e, n)
    decreases e, 1
  {
    match e
    case Call(op, args) => ElabAllMentions(args, src, aggOk, n);
    case Agg(fn, a) => ElabMentions(a, src, false, n);
    case _ =>
  }

  lemma {:induction false} ElabAllMentions(es: seq<Expr>, src: Scope, aggOk: bool, n: string)
    requires src.aliases == [] && ElabAll(es, src, aggOk).Some? && NoOwner(n, src)
    ensures !MentionsAny(es, n)
    decreases es, 0
  {
    if es != [] {
      ElabMentions(es[0], src, aggOk, n);
      ElabAllMentions(es[1..], src, aggOk, n);
      MentionsCons(es, n);
    }
  }

  // ------------------------------------------------------- fewer aliases in scope

  /** `t` has the aliases of `s` except those in `gone`. */
  ghost predicate Shrinks(s: Scope, t: Scope, gone: set<string>) {
    && t.sources == s.sources && t.tables == s.tables
    && (forall n :: n in gone ==> NoOwner(n, s))
    && (forall n :: FindAlias(t.aliases, n) == if n in gone then None else FindAlias(s.aliases, n))
  }

  ghost predicate Free(e: Expr, gone: set<string>) { forall n | n in gone :: !Mentions(e, n) }

  lemma {:induction false} ElabShrinks(e: Expr, s: Scope, t: Scope, gone: set<string>, aggOk: bool)
    requires Shrinks(s, t, gone)
    ensures Free(e, gone) ==> Elab(e, t, aggOk) == Elab(e, s, aggOk)
    ensures !Free(e, gone) ==> Elab(e, t, aggOk) == None
    decreases e, 1
  {
    match e
    case Call(op, args) =>
      ElabAllShrinks(args, s, t, gone, aggOk);
      assert Free(e, gone) <==> forall n | n in gone :: !MentionsAny(args, n) by {
        assert forall n :: Mentions(e, n) <==> MentionsAny(args, n);
      }
    case Agg(fn, a) =>
      ElabShrinks(a, s, t, gone, false);
      assert forall n :: Mentions(e, n) <==> Mentions(a, n);
    case Column(q, n) =>
      assert forall m :: Mentions(e, m) <==> q == "" && m == n;
    case _ =>
  }

  lemma {:induction false} ElabAllShrinks(es: seq<Expr>, s: Scope, t: Scope, gone: set<string>, aggOk: bool)
    requires Shrinks(s, t, gone)
    ensures (forall n | n in gone :: !MentionsAny(es, n)) ==> ElabAll(es, t, aggOk) == ElabAll(es, s, aggOk)
    ensures (exists n | n in gone :: MentionsAny(es, n)) ==> ElabAll(es, t, aggOk) == None
    decreases es, 0
  {
    if es != [] {
      ElabShrinks(es[0], s, t, gone, aggOk);
      ElabAllShrinks(es[1..], s, t, gone, aggOk);
      forall n ensures MentionsAny(es, n) <==> Mentions(es[0], n) || MentionsAny(es[1..], n) { MentionsCons(es, n); }
      if exists n | n in gone :: MentionsAny(es, n) {
        var n :| n in gone && MentionsAny(es, n);
        if Mentions(es[0], n) { assert !Free(es[0], gone); }
      }
    }
  }

  // ------------------------------------------------- expanding all dropped outputs

  function Gone(dropped: seq<Item>): set<string> {
    set i | 0 <= i < |dropped| && dropped[i].alias != "" :: dropped[i].alias
  }

  /** In scope `s`, every dropped alias stands for its output and for nothing else. */
  ghost predicate Ready(dropped: seq<Item>, src: Scope, s: Scope) {
    && src.aliases == [] && s.sources == src.sources && s.tables == src.tables
    && forall i | 0 <= i < |dropped| :: Elab(dropped[i].value, src, true).Some?
         && (dropped[i].alias != "" ==>
               NoOwner(dropped[i].alias, s) && FindAlias(s.aliases, dropped[i].alias) == Elab(dropped[i].value, src, true))
  }

  lemma {:induction false} ExpandItemsMeans(e: Expr, dropped: seq<Item>, src: Scope, s: Scope, aggOk: bool)
    requires Ready(dropped, src, s)
    ensures Elab(ExpandItems(e, dropped), s, aggOk) == Elab(e, s, aggOk)
    decreases |dropped|
  {
    if dropped != [] {
      var d := dropped[0];
      if d.alias != "" { ExpandMeans(e, d.alias, d.value, src, s, aggOk); }
      ExpandItemsMeans(ExpandItem(e, d), dropped[1..], src, s, aggOk);
    }
  }

  lemma {:induction false} ExpandItemsMentions(e: Expr, dropped: seq<Item>, src: Scope, s: Scope, n: string)
    requires Ready(dropped, src, s) && NoOwner(n, s) && n != ""
    ensures Mentions(ExpandItems(e, dropped), n) <==> n !in Gone(dropped) && Mentions(e, n)
    decreases |dropped|
  {
    if dropped != [] {
      var d := dropped[0];
      ElabMentions(d.value, src, true, n);
      if d.alias != "" { ExpandMentions(e, d.alias, d.value, n); }
      ExpandItemsMentions(ExpandItem(e, d), dropped[1..], src, s, n);
      GoneCons(dropped);
    }
  }

  lemma GoneCons(dropped: seq<Item>)
    requires dropped != []
    ensures Gone(dropped) == (if dropped[0].alias != "" then {dropped[0].alias} else {}) + Gone(dropped[1..])
  {
    forall n | n in Gone(dropped) ensures n == dropped[0].alias || n in Gone(dropped[1..]) {
      var i :| 0 <= i < |dropped| && dropped[i].alias != "" && dropped[i].alias == n;
      if i > 0 { assert dropped[1..][i - 1] == dropped[i]; }
    }
    forall n | n in Gone(dropped[1..]) ensures n in Gone(dropped) {
      var i :| 0 <= i < |dropped[1..]| && dropped[1..][i].alias != "" && dropped[1..][i].alias == n;
      assert dropped[i + 1] == dropped[1..][i];
    }
  }

  /** After all expansions no dropped alias is left. */
  lemma ExpandItemsFree(e: Expr, dropped: seq<Item>, src: Scope, s: Scope)
    requires Ready(dropped, src, s)
    ensures Free(ExpandItems(e, dropped), Gone(dropped))
  {
    forall n | n in Gone(dropped) ensures !Mentions(ExpandItems(e, dropped), n) {
      ExpandItemsMentions(e, dropped, src, s, n);
    }
  }

  lemma {:induction false} ExpandUnmentioned(e: Expr, alias: string, v: Expr)
    requires !Mentions(e, alias)
    ensures Expand(e, alias, v) == e
    decreases e, 1
  {
    match e
    case Call(op, args) => ExpandAllUnmentioned(args, alias, v);
    case Agg(fn, a) => ExpandUnmentioned(a, alias, v);
    case _ =>
  }

  lemma {:induction false} ExpandAllUnmentioned(es: seq<Expr>, alias: string, v: Expr)
    requires !MentionsAny(es, alias)
    ensures ExpandAll(es, alias, v) == es
    decreases es, 0
  {
    if es != [] {
      MentionsCons(es, alias);
      ExpandUnmentioned(es[0], alias, v);
      ExpandAllUnmentioned(es[1..], alias, v);
    }
  }

  lemma {:induction false} ExpandItemsUnmentioned(e: Expr, dropped: seq<Item>)
    requires Free(e, Gone(dropped))
    ensures ExpandItems(e, dropped) == e
    decreases |dropped|
  {
    if dropped != [] {
      GoneCons(dropped);
      if dropped[0].alias != "" { ExpandUnmentioned(e, dropped[0].alias, dropped[0].value); }
      ExpandItemsUnmentioned(e, dropped[1..]);
    }
  }

  ghost predicate DistinctAliases(dropped: seq<Item>) {
    forall i, j | 0 <= i < j < |dropped| :: dropped[i].alias != "" ==> dropped[i].alias != dropped[j].alias
  }

  /** A clause that is just a dropped alias becomes the dropped expression. */
  lemma {:induction false} ExpandItemsBare(dropped: seq<Item>, k: nat, src: Scope, s: Scope)
    requires Ready(dropped, src, s) && DistinctAliases(dropped)
    requires k < |dropped| && dropped[k].alias != ""
    ensures ExpandItems(Column("", dropped[k].alias), dropped) == dropped[k].value
    decreases |dropped|
  {
    var d := dropped[k];
    if k == 0 {
      forall n | n in Gone(dropped[1..]) ensures !Mentions(d.value, n) { ElabMentions(d.value, src, true, n); }
      ExpandItemsUnmentioned(d.value, dropped[1..]);
    } else {
      assert dropped[0].alias == "" || dropped[0].alias != d.alias;
      assert ExpandItem(Column("", d.alias), dropped[0]) == Column("", d.alias);
      ExpandItemsBare(dropped[1..], k - 1, src, s);
    }
  }

  /** Expansion never changes the top operator of anything but an unqualified name. */
  lemma {:induction false} ExpandItemsTop(e: Expr, dropped: seq<Item>)
    requires !e.Column? || e.table != ""
    ensures e.IntLit? <==> ExpandItems(e, dropped).IntLit?
    ensures e.Column? <==> ExpandItems(e, dropped).Column?
    ensures e.Column? ==> ExpandItems(e, dropped) == e
    decreases |dropped|
  {
    if dropped != [] { ExpandItemsTop(ExpandItem(e, dropped[0]), dropped[1..]); }
  }

  /** What the one-by-one loop does to each clause. */
  lemma {:induction false} ClausesPointwise(q: Select, dropped: seq<Item>)
    ensures var r := ExpandAllClauses(q, dropped);
      && |r.group| == |q.group| && |r.order| == |q.order|
      && (forall i | 0 <= i < |q.group| :: r.group[i] == ExpandItems(q.group[i], dropped))
      && (forall i | 0 <= i < |q.order| :: r.order[i] == q.order[i].(key := ExpandItems(q.order[i].key, dropped)))
      && r.having == (if q.having.Some? then Some(ExpandItems(q.having.value, dropped)) else None)
    decreases |dropped|
  {
    if dropped != [] { ClausesPointwise(ExpandClauses(q, dropped[0]), dropped[1..]); }
  }

  // ----------------------------------------------------- aliases of kept outputs

  function FirstNamed(items: seq<Item>, n: string): Option<Item> {
    if items == [] then None
    else if items[0].alias != "" && items[0].alias == n then Some(items[0])
    else FirstNamed(items[1..], n)
  }

  lemma {:induction false} NamedCore(items: seq<Item>, cores: seq<Core>, src: Scope, n: string)
    requires ElabAll(Values(items), src, true) == Some(cores)
    ensures FindAlias(Aliases(items, cores), n) ==
            var f := FirstNamed(items, n); if f.None? then None else Elab(f.value.value, src, true)
  {
    if items != [] {
      assert Values(items)[1..] == Values(items[1..]);
      NamedCore(items[1..], cores[1..], src, n);
    }
  }

  lemma PickCons<T>(s: seq<T>, mask: seq<bool>)
    requires |mask| == |s| > 0
    ensures mask[0] ==> Pick(s, mask) != [] && Pick(s, mask)[0] == s[0] && Pick(s, mask)[1..] == Pick(s[1..], mask[1..])
    ensures !mask[0] ==> Pick(s, mask) == Pick(s[1..], mask[1..])
    ensures Negate(mask)[0] == !mask[0] && Negate(mask)[1..] == Negate(mask[1..])
  {
  }

  lemma {:induction false} PickElab(items: seq<Item>, mask: seq<bool>, cores: seq<Core>, src: Scope)
    requires |mask| == |items| && ElabAll(Values(items), src, true) == Some(cores)
    ensures ElabAll(Values(Pick(items, mask)), src, true) == Some(Pick(cores, mask))
  {
    if items != [] {
      assert Values(items)[1..] == Values(items[1..]);
      PickElab(items[1..], mask[1..], cores[1..], src);
      PickCons(items, mask);
      PickCons(cores, mask);
      if mask[0] {
        assert Values(Pick(items, mask))[1..] == Values(Pick(items[1..], mask[1..]));
        assert Pick(cores, mask) == [cores[0]] + Pick(cores[1..], mask[1..]);
      }
    }
  }

  lemma {:induction false} ElabEach(es: seq<Expr>, src: Scope, cores: seq<Core>, i: nat)
    requires ElabAll(es, src, true) == Some(cores) && i < |es|
    ensures Elab(es[i], src, true) == Some(cores[i])
  {
    if i > 0 { ElabEach(es[1..], src, cores[1..], i - 1); }
  }

  lemma {:induction false} CountPick(items: seq<Item>, mask: seq<bool>, n: string)
    requires |mask| == |items|
    ensures CountAlias(Pick(items, mask), n) + CountAlias(Pick(items, Negate(mask)), n) == CountAlias(items, n)
  {
    if items != [] {
      CountPick(items[1..], mask[1..], n);
      PickCons(items, mask);
      PickCons(items, Negate(mask));
    }
  }

  lemma {:induction false} CountNamed(items: seq<Item>, i: nat)
    requires i < |items|
    ensures CountAlias(items, items[i].alias) >= 1
    ensures forall j | i < j < |items| && items[j].alias == items[i].alias :: CountAlias(items, items[i].alias) >= 2
  {
    if i > 0 {
      CountNamed(items[1..], i - 1);
      forall j | i < j < |items| && items[j].alias == items[i].alias ensures CountAlias(items, items[i].alias) >= 2 {
        assert items[1..][j - 1] == items[j];
      }
    } else {
      forall j | 0 < j < |items| && items[j].alias == items[0].alias ensures CountAlias(items, items[0].alias) >= 2 {
        CountNamed(items[1..], j - 1);
      }
    }
  }

  lemma {:induction false} CountNone(items: seq<Item>, n: string)
    requires CountAlias(items, n) == 0
    ensures FirstNamed(items, n) == None && n !in Gone(items)
  {
    if items != [] { CountNone(items[1..], n); GoneCons(items); }
  }

  /** Without dropped items of that name, the first item of a name is a kept one. */
  lemma {:induction false} FirstKept(items: seq<Item>, mask: seq<bool>, n: string)
    requires |mask| == |items| && n !in Gone(Pick(items, Negate(mask)))
    ensures FirstNamed(Pick(items, mask), n) == FirstNamed(items, n)
  {
    if items != [] {
      PickCons(items, mask);
      PickCons(items, Negate(mask));
      if !mask[0] { GoneCons(Pick(items, Negate(mask))); }
      FirstKept(items[1..], mask[1..], n);
    }
  }

  lemma {:induction false} PickFrom<T>(s: seq<T>, mask: seq<bool>, k: nat) returns (i: nat)
    requires |mask| == |s| && k < |Pick(s, mask)|
    ensures i < |s| && mask[i] && s[i] == Pick(s, mask)[k]
  {
    if mask[0] && k == 0 { i := 0; }
    else {
      i := PickFrom(s[1..], mask[1..], if mask[0] then k - 1 else k);
      i := i + 1;
    }
  }

  lemma {:induction false} NotACatalogColumn(sources: seq<Source>, tables: seq<TableInfo>, n: string)
    requires !IsCatalogColumn(tables, n)
    ensures Owners(sources, tables, "", n) == []
  {
    if sources != [] {
      NotACatalogColumn(sources[1..], tables, n);
      NotInColumns(tables, sources[0].table, n);
    }
  }

  lemma {:induction false} NotInColumns(tables: seq<TableInfo>, t: string, n: string)
    requires !IsCatalogColumn(tables, n)
    ensures n !in ColumnsOf(tables, t)
  {
    if tables != [] {
      assert n !in ColumnNames(tables[0].columns);
      if n in ColumnsOf(tables, t) && tables[0].name != t {
        forall i | 0 <= i < |tables[1..]| ensures n !in ColumnNames(tables[1..][i].columns) {
          assert tables[1..][i] == tables[i + 1];
        }
        NotInColumns(tables[1..], t, n);
      }
    }
  }

  // ------------------------------------------------------------ capture

  /** WHERE or ON uses a dropped alias.  SQLite allows that; the edit does not expand there. */
  ghost predicate AliasLeak(q: Select, dropped: seq<Item>) {
    || (q.where.Some? && !Free(q.where.value, Gone(dropped)))
    || (exists i | 0 <= i < |q.sources| :: q.sources[i].on.Some? && !Free(q.sources[i].on.value, Gone(dropped)))
  }

  predicate NamesDropped(e: Expr, d: Item) { d.alias != "" && e == Column("", d.alias) }

  /** A clause that is just the alias of a dropped integer literal becomes an ordinal. */
  predicate BecomesOrdinal(e: Expr, dropped: seq<Item>) {
    exists k | 0 <= k < |dropped| :: NamesDropped(e, dropped[k]) && dropped[k].value.IntLit?
  }

  /** An ORDER BY term that is just the alias of a dropped unqualified column `x`
      becomes `x`, and a kept output of another column is called `x`. */
  predicate BecomesOtherAlias(e: Expr, dropped: seq<Item>, kept: seq<Item>) {
    exists k | 0 <= k < |dropped| ::
      && NamesDropped(e, dropped[k]) && dropped[k].value.Column? && dropped[k].value.table == ""
      && var f := FirstNamed(kept, dropped[k].value.name);
         f.Some? && !(f.value.value.Column? && f.value.value.name == dropped[k].value.name)
  }

  predicate OrdinalCapture(q: Select, dropped: seq<Item>) {
    || (exists i | 0 <= i < |q.order| :: BecomesOrdinal(q.order[i].key, dropped))
    || (exists i | 0 <= i < |q.group| :: BecomesOrdinal(q.group[i], dropped))
  }

  predicate AliasCapture(q: Select, dropped: seq<Item>, kept: seq<Item>) {
    exists i | 0 <= i < |q.order| :: BecomesOtherAlias(q.order[i].key, dropped, kept)
  }

  /** The scopes and outputs of a draft and of its edited form. */
  datatype Edit = Edit(dropped: seq<Item>, kept: seq<Item>, src: Scope, full: Scope, small: Scope, outputs: seq<Core>, keptOutputs: seq<Core>)

  ghost predicate Sound(x: Edit) {
    && Ready(x.dropped, x.src, x.full) && DistinctAliases(x.dropped)
    && Shrinks(x.full, x.small, Gone(x.dropped))
    && (forall n :: FindAlias(x.small.aliases, n) ==
          var f := FirstNamed(x.kept, n); if f.None? then None else Elab(f.value.value, x.src, true))
    && (forall i | 0 <= i < |x.kept| :: x.kept[i].value.Column? && Elab(x.kept[i].value, x.src, true).Some?)
    && (forall i | 0 <= i < |x.keptOutputs| :: x.keptOutputs[i].Src?)
  }

  lemma {:induction false} FirstNamedIn(items: seq<Item>, n: string) returns (i: nat)
    requires FirstNamed(items, n).Some?
    ensures i < |items| && items[i] == FirstNamed(items, n).value && items[i].alias == n
  {
    if items[0].alias != "" && items[0].alias == n { i := 0; }
    else { i := FirstNamedIn(items[1..], n); i := i + 1; }
  }

  /** The one owner of a qualified column is its one owner when unqualified. */
  lemma {:induction false} OwnersQualified(sources: seq<Source>, tables: seq<TableInfo>, t: string, n: string)
    ensures |Owners(sources, tables, t, n)| <= |Owners(sources, tables, "", n)|
    ensures |Owners(sources, tables, t, n)| == |Owners(sources, tables, "", n)| ==>
              Owners(sources, tables, t, n) == Owners(sources, tables, "", n)
  {
    if sources != [] { OwnersQualified(sources[1..], tables, t, n); }
  }

  /** An expression in a clause, after expansion and without the dropped aliases. */
  lemma ClauseKept(e: Expr, x: Edit, aggOk: bool)
    requires Sound(x)
    ensures Elab(ExpandItems(e, x.dropped), x.small, aggOk) == Elab(e, x.full, aggOk)
  {
    ExpandItemsMeans(e, x.dropped, x.src, x.full, aggOk);
    ExpandItemsFree(e, x.dropped, x.src, x.full);
    ElabShrinks(ExpandItems(e, x.dropped), x.full, x.small, Gone(x.dropped), aggOk);
  }

  lemma GoneIndex(dropped: seq<Item>, n: string) returns (k: nat)
    requires n in Gone(dropped)
    ensures k < |dropped| && dropped[k].alias == n && n != ""
  {
    k :| 0 <= k < |dropped| && dropped[k].alias != "" && dropped[k].alias == n;
  }

  /** A GROUP BY term keeps its meaning exactly when it does not become an ordinal. */
  lemma GroupKeyKept(e: Expr, x: Edit)
    requires Sound(x) && !e.IntLit? && ElabGroupKey(e, x.full, x.outputs).Some?
    ensures ElabGroupKey(ExpandItems(e, x.dropped), x.small, x.keptOutputs) == ElabGroupKey(e, x.full, x.outputs)
            <==> !BecomesOrdinal(e, x.dropped)
  {
    ClauseKept(e, x, false);
    if e.Column? && e.table == "" && e.name in Gone(x.dropped) {
      var k := GoneIndex(x.dropped, e.name);
      ExpandItemsBare(x.dropped, k, x.src, x.full);
      forall j | 0 <= j < |x.dropped| && NamesDropped(e, x.dropped[j]) ensures j == k {}
    } else if e.Column? && e.table == "" {
      ExpandItemsUnmentioned(e, x.dropped);
      forall j | 0 <= j < |x.dropped| ensures !NamesDropped(e, x.dropped[j]) {}
    } else {
      ExpandItemsTop(e, x.dropped);
    }
  }

  /** An ORDER BY term keeps its meaning exactly when it is captured neither by
      an output position nor by the alias of another kept column. */
  lemma OrderKeyKept(e: Expr, x: Edit, aggOk: bool)
    requires Sound(x) && !e.IntLit? && ElabOrderKey(e, x.full, x.outputs, aggOk).Some?
    requires forall i | 0 <= i < |x.dropped| :: aggOk || !HasFold(Elab(x.dropped[i].value, x.src, true).value)
    ensures ElabOrderKey(ExpandItems(e, x.dropped), x.small, x.keptOutputs, aggOk) == ElabOrderKey(e, x.full, x.outputs, aggOk)
            <==> !BecomesOrdinal(e, x.dropped) && !BecomesOtherAlias(e, x.dropped, x.kept)
  {
    ClauseKept(e, x, aggOk);
    if e.Column? && e.table == "" && e.name in Gone(x.dropped) {
      var k := GoneIndex(x.dropped, e.name);
      var v := x.dropped[k].value;
      ExpandItemsBare(x.dropped, k, x.src, x.full);
      forall j | 0 <= j < |x.dropped| && NamesDropped(e, x.dropped[j]) ensures j == k {}
      assert NamesDropped(e, x.dropped[k]);
      assert ElabOrderKey(e, x.full, x.outputs, aggOk) == Elab(v, x.src, true);
      if v.Column? && v.table == "" && FirstNamed(x.kept, v.name).Some? {
        var i := FirstNamedIn(x.kept, v.name);
        OwnersQualified(x.src.sources, x.src.tables, x.kept[i].value.table, x.kept[i].value.name);
      } else if !v.IntLit? {
        ElabWidens(v, x.src, x.small, aggOk);
      }
    } else if e.Column? && e.table == "" {
      ExpandItemsUnmentioned(e, x.dropped);
      forall j | 0 <= j < |x.dropped| ensures !NamesDropped(e, x.dropped[j]) {}
    } else {
      ExpandItemsTop(e, x.dropped);
    }
  }

  ghost predicate ExpandedGroup(group: seq<Expr>, after: seq<Expr>, dropped: seq<Item>) {
    |after| == |group| && forall i | 0 <= i < |group| :: after[i] == ExpandItems(group[i], dropped)
  }

  /** Sequences built from a head and a tail are equal only part by part. */
  lemma ConsEqual<T>(a: T, s: seq<T>, b: T, t: seq<T>)
    ensures [a] + s == [b] + t <==> a == b && s == t
  {
    assert ([a] + s)[0] == a && ([a] + s)[1..] == s && ([b] + t)[0] == b && ([b] + t)[1..] == t;
  }

  lemma {:induction false} GroupKept(group: seq<Expr>, after: seq<Expr>, x: Edit)
    requires Sound(x) && ExpandedGroup(group, after, x.dropped) && ElabGroup(group, x.full, x.outputs).Some?
    requires forall i | 0 <= i < |group| :: !group[i].IntLit?
    ensures ElabGroup(after, x.small, x.keptOutputs) == ElabGroup(group, x.full, x.outputs)
            <==> forall i | 0 <= i < |group| :: !BecomesOrdinal(group[i], x.dropped)
  {
    if group != [] {
      GroupKeyKept(group[0], x);
      GroupKept(group[1..], after[1..], x);
      var c, cs := ElabGroupKey(group[0], x.full, x.outputs).value, ElabGroup(group[1..], x.full, x.outputs).value;
      var d, ds := ElabGroupKey(after[0], x.small, x.keptOutputs), ElabGroup(after[1..], x.small, x.keptOutputs);
      if d.Some? && ds.Some? { ConsEqual(c, cs, d.value, ds.value); }
      assert (forall i | 0 <= i < |group| :: !BecomesOrdinal(group[i], x.dropped)) <==>
        !BecomesOrdinal(group[0], x.dropped) && forall i | 0 <= i < |group[1..]| :: !BecomesOrdinal(group[1..][i], x.dropped) by {
        assert forall i | 0 < i < |group| :: group[i] == group[1..][i - 1];
      }
    }
  }

  predicate Captured(e: Expr, x: Edit) { BecomesOrdinal(e, x.dropped) || BecomesOtherAlias(e, x.dropped, x.kept) }

  ghost predicate ExpandedOrder(order: seq<Ordered>, after: seq<Ordered>, dropped: seq<Item>) {
    |after| == |order| && forall i | 0 <= i < |order| :: after[i] == order[i].(key := ExpandItems(order[i].key, dropped))
  }

  lemma {:induction false} OrderKept(order: seq<Ordered>, after: seq<Ordered>, x: Edit, aggOk: bool)
    requires Sound(x) && ExpandedOrder(order, after, x.dropped) && ElabOrder(order, x.full, x.outputs, aggOk).Some?
    requires forall i | 0 <= i < |order| :: !order[i].key.IntLit?
    requires forall i | 0 <= i < |x.dropped| :: aggOk || !HasFold(Elab(x.dropped[i].value, x.src, true).value)
    ensures ElabOrder(after, x.small, x.keptOutputs, aggOk) == ElabOrder(order, x.full, x.outputs, aggOk)
            <==> forall i | 0 <= i < |order| :: !Captured(order[i].key, x)
  {
    if order != [] {
      OrderKeyKept(order[0].key, x, aggOk);
      OrderKept(order[1..], after[1..], x, aggOk);
      var c, cs := ElabOrderKey(order[0].key, x.full, x.outputs, aggOk).value, ElabOrder(order[1..], x.full, x.outputs, aggOk).value;
      var d, ds := ElabOrderKey(after[0].key, x.small, x.keptOutputs, aggOk), ElabOrder(after[1..], x.small, x.keptOutputs, aggOk);
      if d.Some? && ds.Some? {
        var o := order[0];
        ConsEqual(SortKey(c, o.desc, o.nullsFirst), cs, SortKey(d.value, o.desc, o.nullsFirst), ds.value);
      }
      assert (forall i | 0 <= i < |order| :: !Captured(order[i].key, x)) <==>
        !Captured(order[0].key, x) && forall i | 0 <= i < |order[1..]| :: !Captured(order[1..][i].key, x) by {
        assert forall i | 0 < i < |order| :: order[i] == order[1..][i - 1];
      }
    }
  }

  lemma {:induction false} SourcesKept(sources: seq<Source>, x: Edit)
    requires Sound(x) && ElabSources(sources, x.full).Some?
    ensures ElabSources(sources, x.small) == ElabSources(sources, x.full)
            <==> forall i | 0 <= i < |sources| :: sources[i].on.Some? ==> Free(sources[i].on.value, Gone(x.dropped))
  {
    if sources != [] {
      if sources[0].on.Some? { ElabShrinks(sources[0].on.value, x.full, x.small, Gone(x.dropped), false); }
      SourcesKept(sources[1..], x);
      var s := sources[0];
      var c, cs := ElabOpt(s.on, x.full, false).value, ElabSources(sources[1..], x.full).value;
      var d, ds := ElabOpt(s.on, x.small, false), ElabSources(sources[1..], x.small);
      if d.Some? && ds.Some? {
        ConsEqual(JoinPlan(s.table, s.Name(), s.outer, c), cs, JoinPlan(s.table, s.Name(), s.outer, d.value), ds.value);
      }
      assert forall i | 0 < i < |sources| :: sources[i] == sources[1..][i - 1];
      assert forall i | 0 <= i < |sources[1..]| :: sources[1..][i] == sources[i + 1];
    }
  }

  // ------------------------------------------------------------- the theorem

  lemma {:induction false} NoAggNoFold(e: Expr, src: Scope)
    requires src.aliases == [] && Elab(e, src, true).Some? && !HasAgg(e)
    ensures !HasFold(Elab(e, src, true).value)
    decreases e, 1
  {
    match e
    case Call(op, args) => NoAggsNoFolds(args, src);
    case AllColumns => StarNoFold(src.sources, src.tables);
    case _ =>
  }

  lemma {:induction false} NoAggsNoFolds(es: seq<Expr>, src: Scope)
    requires src.aliases == [] && ElabAll(es, src, true).Some? && forall i | 0 <= i < |es| :: !HasAgg(es[i])
    ensures !AnyFold(ElabAll(es, src, true).value)
    decreases es, 0
  {
    if es != [] {
      NoAggNoFold(es[0], src);
      NoAggsNoFolds(es[1..], src);
      AnyFoldCons(ElabAll(es, src, true).value);
    }
  }

  lemma {:induction false} PickFolds(cores: seq<Core>, mask: seq<bool>)
    requires |mask| == |cores| && !AnyFold(cores)
    ensures !AnyFold(Pick(cores, mask))
  {
    forall k | 0 <= k < |Pick(cores, mask)| ensures !HasFold(Pick(cores, mask)[k]) {
      var i := PickFrom(cores, mask, k);
    }
  }

  /** What the guards of `_projection` leave for the outputs selected by `mask`. */
  ghost predicate Guarded(q: Select, cat: Catalog, mask: seq<bool>) {
    && |mask| == |q.items|
    && (FindsAgg(q) ==> q.group != [])
    && !HasOrdinals(q)
    && AllExpandable(Pick(q.items, Negate(mask)), q.items, cat.tables)
    && forall i | 0 <= i < |q.items| :: mask[i] ==> q.items[i].value.Column?
  }

  /** Keep the outputs selected by `mask`, expand the others. */
  function EditOf(q: Select, mask: seq<bool>): Select
    requires |mask| == |q.items|
  {
    ExpandAllClauses(q, Pick(q.items, Negate(mask))).(items := Pick(q.items, mask))
  }

  lemma LicenseGuards(requested: set<string>, words: string -> set<string>, q: Select, cat: Catalog)
    requires Licensed(requested, words, q, cat.tables)
    ensures var mask := EditMask(requested, words, q, cat.tables);
            Guarded(q, cat, mask) && Edited(requested, words, q, cat.tables) == EditOf(q, mask)
  {
  }

  ghost function TheEdit(q: Select, cat: Catalog, mask: seq<bool>): Edit
    requires Compile(q, cat).Some? && |mask| == |q.items|
  {
    var outputs := Compile(q, cat).value.outputs;
    var kept, keptOutputs := Pick(q.items, mask), Pick(outputs, mask);
    PickLengths(q.items, outputs, mask);
    Edit(Pick(q.items, Negate(mask)), kept, SourceScope(q, cat),
         Scope(q.sources, cat.tables, Aliases(q.items, outputs)), Scope(q.sources, cat.tables, Aliases(kept, keptOutputs)),
         outputs, keptOutputs)
  }

  lemma {:induction false} PickLengths<S, T>(s: seq<S>, t: seq<T>, mask: seq<bool>)
    requires |s| == |t| == |mask|
    ensures |Pick(s, mask)| == |Pick(t, mask)|
  {
    if s != [] { PickLengths(s[1..], t[1..], mask[1..]); }
  }

  /** A dropped output with an alias is the only thing its alias can mean. */
  lemma DroppedReady(q: Select, cat: Catalog, mask: seq<bool>)
    requires Guarded(q, cat, mask) && Compile(q, cat).Some?
    ensures var x := TheEdit(q, cat, mask); Ready(x.dropped, x.src, x.full) && DistinctAliases(x.dropped)
  {
    var x := TheEdit(q, cat, mask);
    forall i | 0 <= i < |x.dropped|
      ensures Elab(x.dropped[i].value, x.src, true).Some?
      ensures x.dropped[i].alias != "" ==>
        NoOwner(x.dropped[i].alias, x.full) && FindAlias(x.full.aliases, x.dropped[i].alias) == Elab(x.dropped[i].value, x.src, true)
    {
      var j := PickFrom(q.items, Negate(mask), i);
      var a := x.dropped[i].alias;
      ElabEach(Values(q.items), x.src, x.outputs, j);
      if a != "" {
        assert Expandable(x.dropped[i], q.items, cat.tables);
        NotACatalogColumn(q.sources, cat.tables, a);
        NamedCore(q.items, x.outputs, x.src, a);
        UniqueFirst(q.items, j);
      }
    }
    forall i, j | 0 <= i < j < |x.dropped| && x.dropped[i].alias != "" ensures x.dropped[i].alias != x.dropped[j].alias {
      assert Expandable(x.dropped[i], q.items, cat.tables);
      CountPick(q.items, mask, x.dropped[i].alias);
      CountNamed(x.dropped, i);
    }
  }

  lemma {:induction false} UniqueFirst(items: seq<Item>, j: nat)
    requires j < |items| && items[j].alias != "" && CountAlias(items, items[j].alias) == 1
    ensures FirstNamed(items, items[j].alias) == Some(items[j])
  {
    if j > 0 {
      CountNamed(items, 0);
      CountNamed(items[1..], j - 1);
      UniqueFirst(items[1..], j - 1);
    }
  }

  lemma AliasesShrink(q: Select, cat: Catalog, mask: seq<bool>)
    requires Guarded(q, cat, mask) && Compile(q, cat).Some?
    ensures var x := TheEdit(q, cat, mask);
      && Shrinks(x.full, x.small, Gone(x.dropped))
      && (forall n :: FindAlias(x.small.aliases, n) ==
            var f := FirstNamed(x.kept, n); if f.None? then None else Elab(f.value.value, x.src, true))
  {
    var x := TheEdit(q, cat, mask);
    DroppedReady(q, cat, mask);
    PickElab(q.items, mask, x.outputs, x.src);
    forall n
      ensures FindAlias(x.small.aliases, n) == var f := FirstNamed(x.kept, n); if f.None? then None else Elab(f.value.value, x.src, true)
      ensures n in Gone(x.dropped) ==> NoOwner(n, x.full)
      ensures FindAlias(x.small.aliases, n) == if n in Gone(x.dropped) then None else FindAlias(x.full.aliases, n)
    {
      NamedCore(x.kept, x.keptOutputs, x.src, n);
      NamedCore(q.items, x.outputs, x.src, n);
      if n in Gone(x.dropped) {
        var k := GoneIndex(x.dropped, n);
        assert Expandable(x.dropped[k], q.items, cat.tables);
        CountPick(q.items, mask, n);
        CountNamed(x.dropped, k);
        CountNone(x.kept, n);
      } else {
        FirstKept(q.items, mask, n);
      }
    }
  }

  lemma KeptAreColumns(q: Select, cat: Catalog, mask: seq<bool>)
    requires Guarded(q, cat, mask) && Compile(q, cat).Some?
    ensures var x := TheEdit(q, cat, mask);
      && |x.kept| == |x.keptOutputs|
      && forall i | 0 <= i < |x.kept| :: x.kept[i].value.Column? && Elab(x.kept[i].value, x.src, true) == Some(x.keptOutputs[i]) && x.keptOutputs[i].Src?
  {
    var x := TheEdit(q, cat, mask);
    PickElab(q.items, mask, x.outputs, x.src);
    forall i | 0 <= i < |x.kept|
      ensures x.kept[i].value.Column? && Elab(x.kept[i].value, x.src, true) == Some(x.keptOutputs[i]) && x.keptOutputs[i].Src?
    {
      var j := PickFrom(q.items, mask, i);
      ElabEach(Values(x.kept), x.src, x.keptOutputs, i);
    }
  }

  lemma EditSound(q: Select, cat: Catalog, mask: seq<bool>)
    requires Guarded(q, cat, mask) && Compile(q, cat).Some?
    ensures Sound(TheEdit(q, cat, mask))
  {
    DroppedReady(q, cat, mask);
    AliasesShrink(q, cat, mask);
    KeptAreColumns(q, cat, mask);
  }

  /** Dropping outputs leaves the question of aggregation as it was. */
  lemma AggregationKept(q: Select, cat: Catalog, mask: seq<bool>)
    requires Guarded(q, cat, mask) && Compile(q, cat).Some? && q.group == []
    ensures var x := TheEdit(q, cat, mask);
      && !AnyFold(x.outputs) && !AnyFold(x.keptOutputs)
      && forall i | 0 <= i < |x.dropped| :: Elab(x.dropped[i].value, x.src, true).Some? && !HasFold(Elab(x.dropped[i].value, x.src, true).value)
  {
    var x := TheEdit(q, cat, mask);
    assert !FindsAgg(q);
    forall i | 0 <= i < |q.items| ensures !HasAgg(Values(q.items)[i]) { assert !HasAgg(q.items[i].value); }
    NoAggsNoFolds(Values(q.items), x.src);
    PickFolds(x.outputs, mask);
    forall i | 0 <= i < |x.dropped|
      ensures Elab(x.dropped[i].value, x.src, true).Some? && !HasFold(Elab(x.dropped[i].value, x.src, true).value)
    {
      var j := PickFrom(q.items, Negate(mask), i);
      ElabEach(Values(q.items), x.src, x.outputs, j);
    }
  }

  /** No dropped alias is captured. */
  ghost predicate CaptureFree(q: Select, mask: seq<bool>)
    requires |mask| == |q.items|
  {
    var dropped := Pick(q.items, Negate(mask));
    !AliasLeak(q, dropped) && !OrdinalCapture(q, dropped) && !AliasCapture(q, dropped, Pick(q.items, mask))
  }

  ghost predicate WhereFree(q: Select, dropped: seq<Item>) { q.where.Some? ==> Free(q.where.value, Gone(dropped)) }

  ghost predicate SourcesFree(sources: seq<Source>, dropped: seq<Item>) {
    forall i | 0 <= i < |sources| :: sources[i].on.Some? ==> Free(sources[i].on.value, Gone(dropped))
  }

  ghost predicate GroupFree(group: seq<Expr>, dropped: seq<Item>) {
    forall i | 0 <= i < |group| :: !BecomesOrdinal(group[i], dropped)
  }

  ghost predicate OrderFree(order: seq<Ordered>, x: Edit) {
    forall i | 0 <= i < |order| :: !Captured(order[i].key, x)
  }

  lemma CaptureByClause(q: Select, cat: Catalog, mask: seq<bool>)
    requires Compile(q, cat).Some? && |mask| == |q.items|
    ensures var x := TheEdit(q, cat, mask);
      CaptureFree(q, mask) <==>
        WhereFree(q, x.dropped) && SourcesFree(q.sources, x.dropped) && GroupFree(q.group, x.dropped) && OrderFree(q.order, x)
  {
    var x := TheEdit(q, cat, mask);
    if OrderFree(q.order, x) && OrdinalCapture(q, x.dropped) && GroupFree(q.group, x.dropped) {
      var i :| 0 <= i < |q.order| && BecomesOrdinal(q.order[i].key, x.dropped);
      assert Captured(q.order[i].key, x);
    }
    if OrderFree(q.order, x) && AliasCapture(q, x.dropped, x.kept) {
      var i :| 0 <= i < |q.order| && BecomesOtherAlias(q.order[i].key, x.dropped, x.kept);
      assert Captured(q.order[i].key, x);
    }
  }

  lemma ClausesKept(q: Select, cat: Catalog, mask: seq<bool>)
    requires Guarded(q, cat, mask) && Compile(q, cat).Some?
    ensures var x := TheEdit(q, cat, mask);
            var r := EditOf(q, mask);
            var aggOk := q.group != [];
      && (ElabOpt(r.where, x.small, false) == ElabOpt(q.where, x.full, false) <==> WhereFree(q, x.dropped))
      && ElabOpt(r.having, x.small, aggOk) == ElabOpt(q.having, x.full, aggOk)
      && (ElabSources(r.sources, x.small) == ElabSources(q.sources, x.full) <==> SourcesFree(q.sources, x.dropped))
  {
    var x := TheEdit(q, cat, mask);
    EditSound(q, cat, mask);
    ClausesPointwise(q, x.dropped);
    ExpandKeepsItems(q, x.dropped);
    SourcesKept(q.sources, x);
    WhereKept(q, cat, mask);
    if q.having.Some? { ClauseKept(q.having.value, x, q.group != []); }
  }

  lemma WhereKept(q: Select, cat: Catalog, mask: seq<bool>)
    requires Guarded(q, cat, mask) && Compile(q, cat).Some? && Sound(TheEdit(q, cat, mask))
    ensures var x := TheEdit(q, cat, mask);
      ElabOpt(q.where, x.small, false) == ElabOpt(q.where, x.full, false) <==> WhereFree(q, x.dropped)
  {
    var x := TheEdit(q, cat, mask);
    if q.where.Some? { ElabShrinks(q.where.value, x.full, x.small, Gone(x.dropped), false); }
  }

  lemma KeysKept(q: Select, cat: Catalog, mask: seq<bool>)
    requires Guarded(q, cat, mask) && Compile(q, cat).Some?
    ensures var x := TheEdit(q, cat, mask);
            var r := EditOf(q, mask);
            var aggOk := q.group != [];
      && |r.group| == |q.group|
      && (ElabGroup(r.group, x.small, x.keptOutputs) == ElabGroup(q.group, x.full, x.outputs) <==> GroupFree(q.group, x.dropped))
      && (ElabOrder(r.order, x.small, x.keptOutputs, aggOk) == ElabOrder(q.order, x.full, x.outputs, aggOk) <==> OrderFree(q.order, x))
  {
    var x := TheEdit(q, cat, mask);
    EditSound(q, cat, mask);
    ClausesPointwise(q, x.dropped);
    ExpandKeepsItems(q, x.dropped);
    if q.group == [] { AggregationKept(q, cat, mask); }
    assert forall i | 0 <= i < |q.group| :: !HasIntLit(q.group[i]);
    assert forall i | 0 <= i < |q.order| :: !HasIntLit(q.order[i].key);
    GroupKept(q.group, EditOf(q, mask).group, x);
    OrderKept(q.order, EditOf(q, mask).order, x, q.group != []);
  }

  /** The edit compiles to the draft's plan without the dropped outputs if and
      only if no dropped alias is captured. */
  lemma EditedPlan(q: Select, cat: Catalog, mask: seq<bool>)
    requires Guarded(q, cat, mask) && Compile(q, cat).Some?
    ensures |Compile(q, cat).value.outputs| == |q.items|
    ensures var p := Compile(q, cat).value;
            Compile(EditOf(q, mask), cat) == Some(p.(outputs := Pick(p.outputs, mask))) <==> CaptureFree(q, mask)
  {
    var x := TheEdit(q, cat, mask);
    var r := EditOf(q, mask);
    if q.group == [] { AggregationKept(q, cat, mask); }
    PickElab(q.items, mask, x.outputs, x.src);
    ExpandKeepsItems(q, x.dropped);
    ClausesKept(q, cat, mask);
    KeysKept(q, cat, mask);
    assert Compile(r, cat) == CompileClauses(r, x.keptOutputs, x.small);
    assert Compile(q, cat) == CompileClauses(q, x.outputs, x.full);
    CaptureByClause(q, cat, mask);
  }
}
