/** What the projection keeps, and drafts on which it does not keep the meaning. */
module ProjectionLimits {
  import opened Prelude
  import opened Sql
  import opened OutputContract
  import opened ProjectionPlan

  // ---------------------------------------------- exactly the requested columns

  function BindingSeq(kept: seq<Item>, aliases: map<string, string>, b: Bindings): (r: seq<Owned>)
    ensures |r| == |kept|
  {
    seq(|kept|, i requires 0 <= i < |kept| =>
      if IsBound(kept[i], aliases, b) then ItemBinding(kept[i], aliases, b).value else ("", ""))
  }

  /** As many elements as positions: no element twice. */
  lemma {:induction false} FullSetDistinct<T>(s: seq<T>)
    ensures |set x | x in s| <= |s|
    ensures |set x | x in s| == |s| ==> forall i, j | 0 <= i < j < |s| :: s[i] != s[j]
  {
    if s != [] {
      FullSetDistinct(s[1..]);
      FirstOfSet(s);
      var rest := set x | x in s[1..];
      if s[0] !in rest {
        forall j | 0 < j < |s| ensures s[0] != s[j] { assert s[j] == s[1..][j - 1] && s[j] in rest; }
        if |rest| == |s| - 1 {
          forall i, j | 0 <= i < j < |s| ensures s[i] != s[j] {
            if i > 0 { assert s[i] == s[1..][i - 1] && s[j] == s[1..][j - 1]; }
          }
        }
      }
    }
  }

  lemma FirstOfSet<T>(s: seq<T>)
    requires s != []
    ensures var whole, rest := set x | x in s, set x | x in s[1..]; |whole| == |rest| + if s[0] in rest then 0 else 1
  {
    var whole, rest := set x | x in s, set x | x in s[1..];
    assert s == [s[0]] + s[1..];
    assert whole == {s[0]} + rest;
    if s[0] in rest { assert whole == rest; }
  }

  lemma KeptBound(items: seq<Item>, aliases: map<string, string>, b: Bindings)
    ensures forall k | 0 <= k < |Pick(items, KeepMask(items, aliases, b))| :: IsBound(Pick(items, KeepMask(items, aliases, b))[k], aliases, b)
  {
    var mask := KeepMask(items, aliases, b);
    forall k | 0 <= k < |Pick(items, mask)| ensures IsBound(Pick(items, mask)[k], aliases, b) {
      var i := PickFrom(items, mask, k);
    }
  }

  lemma {:induction false} PickHas<T>(s: seq<T>, mask: seq<bool>, i: nat) returns (k: nat)
    requires |mask| == |s| && i < |s| && mask[i]
    ensures k < |Pick(s, mask)| && Pick(s, mask)[k] == s[i]
  {
    if i == 0 { k := 0; }
    else {
      k := PickHas(s[1..], mask[1..], i - 1);
      PickCons(s, mask);
      if mask[0] { k := k + 1; assert Pick(s, mask)[k] == Pick(s, mask)[1..][k - 1]; }
    }
  }

  lemma {:induction false} AliasMapSource(sources: seq<Source>, n: string) returns (i: nat)
    requires n in AliasMap(sources)
    ensures i < |sources| && sources[i].Name() == n && sources[i].table == AliasMap(sources)[n]
  {
    if n in AliasMap(sources[1..]) { i := AliasMapSource(sources[1..], n); i := i + 1; } else { i := 0; }
  }

  /** Owners are sources, and every owning source is among them. */
  lemma {:induction false} OwnersComplete(sources: seq<Source>, tables: seq<TableInfo>, t: string, n: string)
    ensures forall o | o in Owners(sources, tables, t, n) :: o in sources && (t == "" || o.Name() == t) && n in ColumnsOf(tables, o.table)
    ensures forall i | 0 <= i < |sources| && (t == "" || sources[i].Name() == t) && n in ColumnsOf(tables, sources[i].table) ::
              sources[i] in Owners(sources, tables, t, n)
  {
    if sources != [] {
      OwnersComplete(sources[1..], tables, t, n);
      assert forall i | 0 < i < |sources| :: sources[i] == sources[1..][i - 1];
    }
  }

  /** SQLite reads the item from a source over the table it is bound to. */
  ghost predicate ReadsBinding(item: Item, aliases: map<string, string>, b: Bindings, q: Select, cat: Catalog) {
    var k := ItemBinding(item, aliases, b);
    && k.Some? && k.value in b
    && exists i :: 0 <= i < |q.sources| && q.sources[i].table == k.value.0
         && Elab(item.value, SourceScope(q, cat), true) == Some(Src(q.sources[i].Name(), k.value.1))
  }

  /** One kept output for every binding, and no two kept outputs for one. */
  ghost predicate OncePerBinding(kept: seq<Item>, aliases: map<string, string>, b: Bindings) {
    && (forall k | k in b :: exists j :: 0 <= j < |kept| && ItemBinding(kept[j], aliases, b) == Some(k))
    && (forall i, j | 0 <= i < j < |kept| :: ItemBinding(kept[i], aliases, b) != ItemBinding(kept[j], aliases, b))
  }

  lemma BindingSeqCovers(items: seq<Item>, aliases: map<string, string>, b: Bindings)
    requires Matched(items, aliases, b) == b.Keys
    ensures (set x | x in BindingSeq(Pick(items, KeepMask(items, aliases, b)), aliases, b)) == b.Keys
  {
    var mask := KeepMask(items, aliases, b);
    var kept := Pick(items, mask);
    var s := BindingSeq(kept, aliases, b);
    KeptBound(items, aliases, b);
    forall k | k in b.Keys ensures k in s {
      assert k in Matched(items, aliases, b);
      var i :| 0 <= i < |items| && IsBound(items[i], aliases, b) && ItemBinding(items[i], aliases, b).value == k;
      var j := PickHas(items, mask, i);
      assert s[j] == k;
    }
    forall k | k in s ensures k in b.Keys {
      var j :| 0 <= j < |s| && s[j] == k;
      assert IsBound(kept[j], aliases, b);
    }
  }

  lemma SurjectiveOnce<K>(s: seq<K>, keys: set<K>)
    requires (set x | x in s) == keys && |s| == |keys|
    ensures forall k | k in keys :: exists j :: 0 <= j < |s| && s[j] == k
    ensures forall i, j | 0 <= i < j < |s| :: s[i] != s[j]
  {
    FullSetDistinct(s);
    forall k | k in keys ensures exists j :: 0 <= j < |s| && s[j] == k { assert k in (set x | x in s); }
  }

  lemma BindingSeqAt(kept: seq<Item>, aliases: map<string, string>, b: Bindings, j: nat)
    requires j < |kept| && IsBound(kept[j], aliases, b)
    ensures ItemBinding(kept[j], aliases, b) == Some(BindingSeq(kept, aliases, b)[j])
  {
  }

  lemma KeptOnce(kept: seq<Item>, aliases: map<string, string>, b: Bindings)
    requires forall j | 0 <= j < |kept| :: IsBound(kept[j], aliases, b)
    requires (set x | x in BindingSeq(kept, aliases, b)) == b.Keys && |kept| == |b.Keys|
    ensures OncePerBinding(kept, aliases, b)
  {
    var s := BindingSeq(kept, aliases, b);
    SurjectiveOnce(s, b.Keys);
    forall k | k in b ensures exists j :: 0 <= j < |kept| && ItemBinding(kept[j], aliases, b) == Some(k) {
      var j :| 0 <= j < |s| && s[j] == k;
      BindingSeqAt(kept, aliases, b, j);
    }
    forall i, j | 0 <= i < j < |kept| ensures ItemBinding(kept[i], aliases, b) != ItemBinding(kept[j], aliases, b) {
      BindingSeqAt(kept, aliases, b, i);
      BindingSeqAt(kept, aliases, b, j);
      assert s[i] != s[j];
    }
  }

  /** The kept outputs are the requested columns: every requested column is read
      by exactly one kept output, every kept output reads one, and SQLite reads
      it from a source over the very table the request was bound to. */
  lemma KeptAreRequested(requested: set<string>, words: string -> set<string>, q: Select, cat: Catalog)
    requires Licensed(requested, words, q, cat.tables) && Compile(q, cat).Some?
    ensures var aliases, b := AliasMap(q.sources), EditBindings(requested, words, q, cat.tables);
            var kept := Pick(q.items, EditMask(requested, words, q, cat.tables));
            OncePerBinding(kept, aliases, b) && forall k | 0 <= k < |kept| :: ReadsBinding(kept[k], aliases, b, q, cat)
  {
    var aliases := AliasMap(q.sources);
    var b := EditBindings(requested, words, q, cat.tables);
    var mask := EditMask(requested, words, q, cat.tables);
    var kept := Pick(q.items, mask);
    KeptBound(q.items, aliases, b);
    BindingSeqCovers(q.items, aliases, b);
    KeptOnce(kept, aliases, b);
    forall k | 0 <= k < |kept| ensures ReadsBinding(kept[k], aliases, b, q, cat) { KeptReads(requested, words, q, cat, k); }
  }

  lemma KeptReads(requested: set<string>, words: string -> set<string>, q: Select, cat: Catalog, k: nat)
    requires Compile(q, cat).Some?
    requires k < |Pick(q.items, EditMask(requested, words, q, cat.tables))|
    ensures ReadsBinding(Pick(q.items, EditMask(requested, words, q, cat.tables))[k], AliasMap(q.sources),
                         EditBindings(requested, words, q, cat.tables), q, cat)
  {
    var mask := EditMask(requested, words, q, cat.tables);
    KeptBound(q.items, AliasMap(q.sources), EditBindings(requested, words, q, cat.tables));
    var i := PickFrom(q.items, mask, k);
    ElabEach(Values(q.items), SourceScope(q, cat), Compile(q, cat).value.outputs, i);
    BoundColumn(requested, words, Pick(q.items, mask)[k], q, cat);
  }

  lemma BoundColumn(requested: set<string>, words: string -> set<string>, item: Item, q: Select, cat: Catalog)
    requires IsBound(item, AliasMap(q.sources), EditBindings(requested, words, q, cat.tables))
    requires Elab(item.value, SourceScope(q, cat), true).Some?
    ensures ReadsBinding(item, AliasMap(q.sources), EditBindings(requested, words, q, cat.tables), q, cat)
  {
    var aliases := AliasMap(q.sources);
    var b := EditBindings(requested, words, q, cat.tables);
    var t, n := item.value.table, item.value.name;
    var owners := Owners(q.sources, cat.tables, t, n);
    OwnersComplete(q.sources, cat.tables, t, n);
    assert |owners| == 1;
    var o := owners[0];
    assert o in owners;
    var i :| 0 <= i < |q.sources| && q.sources[i] == o;
    BoundTable(requested, words, item, q, cat, o);
    assert q.sources[i].table == ItemBinding(item, aliases, b).value.0;
  }

  /** The one source that has a bound column is of the bound table. */
  lemma BoundTable(requested: set<string>, words: string -> set<string>, item: Item, q: Select, cat: Catalog, o: Source)
    requires IsBound(item, AliasMap(q.sources), EditBindings(requested, words, q, cat.tables))
    requires Owners(q.sources, cat.tables, item.value.table, item.value.name) == [o]
    ensures o.table == ItemBinding(item, AliasMap(q.sources), EditBindings(requested, words, q, cat.tables)).value.0
  {
    var aliases := AliasMap(q.sources);
    var b := EditBindings(requested, words, q, cat.tables);
    var t, n := item.value.table, item.value.name;
    OwnersComplete(q.sources, cat.tables, t, n);
    var j: nat;
    if t in aliases {
      j := AliasMapSource(q.sources, t);
    } else {
      var k := ItemBinding(item, aliases, b).value;
      assert k in b && k.0 in aliases.Values && n in ColumnsOf(cat.tables, k.0);
      var m :| m in aliases && aliases[m] == k.0;
      j := AliasMapSource(q.sources, m);
    }
    assert q.sources[j] in Owners(q.sources, cat.tables, t, n);
  }

  // --------------------------------------------------------- the failing families

  lemma {:induction false} SourcesLeak(sources: seq<Source>, x: Edit, i: nat)
    requires Sound(x) && i < |sources| && sources[i].on.Some? && !Free(sources[i].on.value, Gone(x.dropped))
    ensures ElabSources(sources, x.small) == None
  {
    if i == 0 {
      ElabShrinks(sources[0].on.value, x.full, x.small, Gone(x.dropped), false);
    } else {
      SourcesLeak(sources[1..], x, i - 1);
    }
  }

  /** A dropped alias in WHERE or ON: the edited statement does not even prepare. */
  lemma LeakFails(q: Select, cat: Catalog, mask: seq<bool>)
    requires Guarded(q, cat, mask) && Compile(q, cat).Some?
    requires AliasLeak(q, Pick(q.items, Negate(mask)))
    ensures Compile(EditOf(q, mask), cat) == None
  {
    var x := TheEdit(q, cat, mask);
    EditSound(q, cat, mask);
    PickElab(q.items, mask, x.outputs, x.src);
    ExpandKeepsItems(q, x.dropped);
    if !WhereFree(q, x.dropped) {
      ElabShrinks(q.where.value, x.full, x.small, Gone(x.dropped), false);
    } else {
      var i :| 0 <= i < |q.sources| && q.sources[i].on.Some? && !Free(q.sources[i].on.value, Gone(x.dropped));
      SourcesLeak(q.sources, x, i);
    }
  }
}
