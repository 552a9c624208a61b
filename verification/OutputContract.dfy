/**
 The projection edit of the output contract: drop the output columns the
 question did not ask for, expanding the aliases of the dropped ones.
 */
module OutputContract {
  import opened Prelude
  import opened Sql

  /** Every element whose mask bit is set, in order. */
  function Pick<T>(s: seq<T>, mask: seq<bool>): seq<T>
    requires |s| == |mask|
  {
    if s == [] then []
    else (if mask[0] then [s[0]] else []) + Pick(s[1..], mask[1..])
  }

  function Negate(mask: seq<bool>): (r: seq<bool>)
    ensures |r| == |mask|
  {
    seq(|mask|, i requires 0 <= i < |mask| => !mask[i])
  }

  // ---------------------------------------------------------- alias expansion

  /** `e` with every unqualified `alias` replaced by `inner`; the replacement is not entered. */
  function Expand(e: Expr, alias: string, inner: Expr): Expr
    decreases e, 1
  {
    match e
    case Column(t, n) => if t == "" && n == alias then inner else e
    case Call(op, args) => Call(op, ExpandAll(args, alias, inner))
    case Agg(fn, a) => Agg(fn, Expand(a, alias, inner))
    case _ => e
  }

  function ExpandAll(es: seq<Expr>, alias: string, inner: Expr): (r: seq<Expr>)
    ensures |r| == |es|
    decreases es, 0
  {
    if es == [] then [] else [Expand(es[0], alias, inner)] + ExpandAll(es[1..], alias, inner)
  }

  /** Expansion of one dropped output; an output without alias expands nothing. */
  function ExpandItem(e: Expr, item: Item): Expr {
    if item.alias == "" then e else Expand(e, item.alias, item.value)
  }

  /** Expansion of the dropped outputs one after the other, as the loop does it. */
  function ExpandItems(e: Expr, dropped: seq<Item>): Expr
    decreases |dropped|
  {
    if dropped == [] then e else ExpandItems(ExpandItem(e, dropped[0]), dropped[1..])
  }

  function ExpandClauses(q: Select, item: Item): Select {
    q.(group := seq(|q.group|, i requires 0 <= i < |q.group| => ExpandItem(q.group[i], item)),
       having := if q.having.Some? then Some(ExpandItem(q.having.value, item)) else None,
       order := seq(|q.order|, i requires 0 <= i < |q.order| =>
         q.order[i].(key := ExpandItem(q.order[i].key, item))))
  }

  function ExpandAllClauses(q: Select, dropped: seq<Item>): Select
    decreases |dropped|
  {
    if dropped == [] then q else ExpandAllClauses(ExpandClauses(q, dropped[0]), dropped[1..])
  }

  // ----------------------------------------------------------------- binding

  type Owned = (string, string)
  type Bindings = map<Owned, set<string>>

  /** `{source.alias_or_name: source.name}`; a later source overrides an earlier one. */
  function AliasMap(sources: seq<Source>): map<string, string> {
    if sources == [] then map[]
    else map[sources[0].Name() := sources[0].table] + AliasMap(sources[1..])
  }

  predicate Known(tables: seq<TableInfo>, name: string) {
    exists i | 0 <= i < |tables| :: tables[i].name == name
  }

  /** Every column of a source table all of whose words were requested. */
  function BindingsOf(requested: set<string>, words: string -> set<string>, aliases: map<string, string>, tables: seq<TableInfo>): Bindings {
    map o, c | o in aliases.Values && c in ColumnsOf(tables, o) && words(c) != {} && words(c) <= requested :: (o, c) := words(c)
  }

  function Union(sets: set<set<string>>): set<string> { set s, x | s in sets && x in s :: x }

  /** Every requested word is a word of a bound column or of a source table. */
  predicate Covered(b: Bindings, requested: set<string>, words: string -> set<string>, aliases: map<string, string>) {
    && Union(b.Values) != {}
    && requested - Union(b.Values) - (set o, x | o in aliases.Values && x in words(o) :: x) == {}
  }

  predicate Unambiguous(b: Bindings) {
    forall k, l | k in b && l in b :: b[k] == b[l] ==> k == l
  }

  /** The catalog column an output item reads, as far as the contract can tell. */
  function ItemBinding(item: Item, aliases: map<string, string>, b: Bindings): Option<Owned> {
    if !item.value.Column? then None
    else
      var t, n := item.value.table, item.value.name;
      if t in aliases then Some((aliases[t], n))
      else if t != "" then None
      else
        var owners := set k | k in b && k.1 == n :: k.0;
        if |owners| == 1 then
          OnlyElement(owners);
          var o :| o in owners;
          Some((o, n))
        else None
  }

  lemma OnlyElement<T>(s: set<T>)
    requires |s| == 1
    ensures forall x, y | x in s && y in s :: x == y
  {
    var z :| z in s;
    assert |s - {z}| == 0;
    assert s == {z};
  }

  predicate IsBound(item: Item, aliases: map<string, string>, b: Bindings) {
    var k := ItemBinding(item, aliases, b);
    k.Some? && k.value in b
  }

  /** Which outputs are kept: those that read a requested column. */
  function KeepMask(items: seq<Item>, aliases: map<string, string>, b: Bindings): (r: seq<bool>)
    ensures |r| == |items|
  {
    seq(|items|, i requires 0 <= i < |items| => IsBound(items[i], aliases, b))
  }

  function Matched(items: seq<Item>, aliases: map<string, string>, b: Bindings): set<Owned> {
    set i | 0 <= i < |items| && IsBound(items[i], aliases, b) :: ItemBinding(items[i], aliases, b).value
  }

  function CountAlias(items: seq<Item>, alias: string): nat {
    if items == [] then 0 else (if items[0].alias == alias then 1 else 0) + CountAlias(items[1..], alias)
  }

  predicate IsCatalogColumn(tables: seq<TableInfo>, n: string) {
    exists i | 0 <= i < |tables| :: n in ColumnNames(tables[i].columns)
  }

  /** An alias can be expanded when it names one output and no catalog column. */
  predicate Expandable(item: Item, items: seq<Item>, tables: seq<TableInfo>) {
    item.alias != "" ==> CountAlias(items, item.alias) == 1 && !IsCatalogColumn(tables, item.alias)
  }

  predicate HasOrdinals(q: Select) {
    || (exists i | 0 <= i < |q.order| :: HasIntLit(q.order[i].key))
    || (exists i | 0 <= i < |q.group| :: HasIntLit(q.group[i]))
  }

  function EditBindings(requested: set<string>, words: string -> set<string>, q: Select, tables: seq<TableInfo>): Bindings {
    BindingsOf(requested, words, AliasMap(q.sources), tables)
  }

  /** Which outputs the edit keeps. */
  function EditMask(requested: set<string>, words: string -> set<string>, q: Select, tables: seq<TableInfo>): (r: seq<bool>)
    ensures |r| == |q.items|
  {
    KeepMask(q.items, AliasMap(q.sources), EditBindings(requested, words, q, tables))
  }

  function DroppedItems(requested: set<string>, words: string -> set<string>, q: Select, tables: seq<TableInfo>): seq<Item> {
    Pick(q.items, Negate(EditMask(requested, words, q, tables)))
  }

  /** `_simple`: no nested scope, no `*` output, no DISTINCT, no OFFSET. */
  predicate Simple(q: Select) {
    && !q.nested && !q.distinct && q.offset == None
    && forall i | 0 <= i < |q.items| :: !q.items[i].value.AllColumns?
  }

  /** The guards before the outputs are looked at, in the order of the code. */
  predicate SourcesLicensed(requested: set<string>, words: string -> set<string>, q: Select, tables: seq<TableInfo>) {
    var aliases := AliasMap(q.sources);
    && |q.items| >= 2
    && (FindsAgg(q) ==> q.group != [])
    && (forall o | o in aliases.Values :: Known(tables, o))
    && Covered(EditBindings(requested, words, q, tables), requested, words, aliases)
    && Unambiguous(EditBindings(requested, words, q, tables))
  }

  predicate OutputsLicensed(items: seq<Item>, aliases: map<string, string>, b: Bindings) {
    && Pick(items, Negate(KeepMask(items, aliases, b))) != []
    && Matched(items, aliases, b) == b.Keys
    && |Pick(items, KeepMask(items, aliases, b))| == |b|
  }

  /** The guards of `_projection`. */
  predicate ProjectionFires(requested: set<string>, words: string -> set<string>, q: Select, tables: seq<TableInfo>) {
    && SourcesLicensed(requested, words, q, tables)
    && OutputsLicensed(q.items, AliasMap(q.sources), EditBindings(requested, words, q, tables))
    && !HasOrdinals(q)
    && AllExpandable(DroppedItems(requested, words, q, tables), q.items, tables)
  }

  /** All guards of the edit. */
  predicate Licensed(requested: set<string>, words: string -> set<string>, q: Select, tables: seq<TableInfo>) {
    Simple(q) && ProjectionFires(requested, words, q, tables)
  }

  predicate AllExpandable(dropped: seq<Item>, items: seq<Item>, tables: seq<TableInfo>) {
    forall i | 0 <= i < |dropped| :: Expandable(dropped[i], items, tables)
  }

  function Edited(requested: set<string>, words: string -> set<string>, q: Select, tables: seq<TableInfo>): Select {
    ExpandAllClauses(q, DroppedItems(requested, words, q, tables))
      .(items := Pick(q.items, EditMask(requested, words, q, tables)))
  }

  lemma PickAppend<T>(s: seq<T>, mask: seq<bool>, x: T, bit: bool)
    requires |s| == |mask|
    ensures Pick(s + [x], mask + [bit]) == Pick(s, mask) + (if bit then [x] else [])
  {
    if s != [] {
      PickAppend(s[1..], mask[1..], x, bit);
      assert (s + [x])[1..] == s[1..] + [x] && (mask + [bit])[1..] == mask[1..] + [bit];
    }
  }

  lemma ExpandAllClausesAppend(q: Select, dropped: seq<Item>, item: Item)
    ensures ExpandAllClauses(q, dropped + [item]) == ExpandClauses(ExpandAllClauses(q, dropped), item)
    decreases |dropped|
  {
    if dropped == [] {
      assert dropped + [item] == [item];
      assert ExpandAllClauses(q, [item]) == ExpandAllClauses(ExpandClauses(q, item), []);
    } else {
      ExpandAllClausesAppend(ExpandClauses(q, dropped[0]), dropped[1..], item);
      assert (dropped + [item])[1..] == dropped[1..] + [item];
    }
  }

  lemma PickNext(items: seq<Item>, mask: seq<bool>, i: nat)
    requires i < |items| == |mask|
    ensures Pick(items[..i + 1], mask[..i + 1]) == Pick(items[..i], mask[..i]) + if mask[i] then [items[i]] else []
  {
    PickAppend(items[..i], mask[..i], items[i], mask[i]);
    assert items[..i + 1] == items[..i] + [items[i]] && mask[..i + 1] == mask[..i] + [mask[i]];
  }

  lemma MatchedNext(items: seq<Item>, aliases: map<string, string>, b: Bindings, i: nat)
    requires i < |items|
    ensures Matched(items[..i + 1], aliases, b)
         == Matched(items[..i], aliases, b) + if IsBound(items[i], aliases, b) then {ItemBinding(items[i], aliases, b).value} else {}
  {
    var s, t := items[..i], items[..i + 1];
    assert t == s + [items[i]];
    forall k | k in Matched(s, aliases, b) ensures k in Matched(t, aliases, b) {
      var j :| 0 <= j < |s| && IsBound(s[j], aliases, b) && ItemBinding(s[j], aliases, b).value == k;
      assert t[j] == s[j];
    }
    if IsBound(items[i], aliases, b) { assert IsBound(t[i], aliases, b); }
  }

  /** The loop that sorts the outputs into kept and dropped ones. */
  method SplitOutputs(items: seq<Item>, aliases: map<string, string>, bindings: Bindings)
    returns (keep: seq<Item>, dropped: seq<Item>, matched: set<Owned>)
    ensures keep == Pick(items, KeepMask(items, aliases, bindings))
    ensures dropped == Pick(items, Negate(KeepMask(items, aliases, bindings)))
    ensures matched == Matched(items, aliases, bindings)
  {
    keep, dropped, matched := [], [], {};
    ghost var mask := KeepMask(items, aliases, bindings);
    for i := 0 to |items|
      invariant keep == Pick(items[..i], mask[..i])
      invariant dropped == Pick(items[..i], Negate(mask)[..i])
      invariant matched == Matched(items[..i], aliases, bindings)
    {
      var item := items[i];
      var binding := ItemBinding(item, aliases, bindings);
      PickNext(items, mask, i);
      PickNext(items, Negate(mask), i);
      MatchedNext(items, aliases, bindings, i);
      if binding.Some? && binding.value in bindings {
        keep := keep + [item];
        matched := matched + {binding.value};
      } else {
        dropped := dropped + [item];
      }
    }
    assert items[..|items|] == items && mask[..|mask|] == mask && Negate(mask)[..|mask|] == Negate(mask);
  }

  /** The loop that expands the aliases of the dropped outputs, one at a time. */
  method ExpandDropped(tree: Select, dropped: seq<Item>, tables: seq<TableInfo>) returns (r: Option<Select>)
    ensures r == if AllExpandable(dropped, tree.items, tables)
                 then Some(ExpandAllClauses(tree, dropped)) else None
  {
    var repaired := tree;
    for i := 0 to |dropped|
      invariant forall j | 0 <= j < i :: Expandable(dropped[j], tree.items, tables)
      invariant repaired == ExpandAllClauses(tree, dropped[..i])
    {
      ExpandAllClausesAppend(tree, dropped[..i], dropped[i]);
      assert dropped[..i + 1] == dropped[..i] + [dropped[i]];
      if dropped[i].alias == "" {
        ExpandNothing(repaired, dropped[i]);
        continue;
      }
      if CountAlias(tree.items, dropped[i].alias) != 1 || IsCatalogColumn(tables, dropped[i].alias) {
        return None;
      }
      repaired := ExpandClauses(repaired, dropped[i]);
    }
    assert dropped[..|dropped|] == dropped;
    return Some(repaired);
  }

  lemma ExpandKeepsItems(q: Select, dropped: seq<Item>)
    ensures ExpandAllClauses(q, dropped) == ExpandAllClauses(q, dropped).(items := q.items, sources := q.sources,
              where := q.where, limit := q.limit, offset := q.offset, distinct := q.distinct, nested := q.nested)
    decreases |dropped|
  {
    if dropped != [] { ExpandKeepsItems(ExpandClauses(q, dropped[0]), dropped[1..]); }
  }

  /** `_projection`; `requested` is None when the question has no usable head. */
  method Projection(requested: Option<set<string>>, words: string -> set<string>, tree: Select, cat: Catalog)
    returns (r: Option<Select>)
    ensures r == if requested.Some? && ProjectionFires(requested.value, words, tree, cat.tables)
                 then Some(Edited(requested.value, words, tree, cat.tables)) else None
  {
    if requested.None? {
      return None;
    }
    var aliases := AliasMap(tree.sources);
    var bindings := BindingsOf(requested.value, words, aliases, cat.tables);
    if !SourcesLicensed(requested.value, words, tree, cat.tables) {
      return None;
    }
    var keep, dropped, matched := SplitOutputs(tree.items, aliases, bindings);
    assert keep == Pick(tree.items, EditMask(requested.value, words, tree, cat.tables));
    assert dropped == DroppedItems(requested.value, words, tree, cat.tables);
    if dropped == [] || matched != bindings.Keys || |keep| != |bindings| {
      return None;
    }
    if HasOrdinals(tree) {
      return None;
    }
    var repaired := ExpandDropped(tree, dropped, cat.tables);
    if repaired.None? {
      assert !AllExpandable(dropped, tree.items, cat.tables);
      return None;
    }
    assert ProjectionFires(requested.value, words, tree, cat.tables);
    return Some(repaired.value.(items := keep));
  }

  lemma ExpandNothing(q: Select, item: Item)
    requires item.alias == ""
    ensures ExpandClauses(q, item) == q
  {
    assert ExpandClauses(q, item).group == q.group && ExpandClauses(q, item).order == q.order;
  }
}
