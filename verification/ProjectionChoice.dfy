/** When the projection edit fires and which outputs it keeps, read off the question, the
    catalog and what SQLite makes of the draft. */
module ProjectionChoice {
  import opened Prelude
  import opened Orders
  import opened Sql
  import opened OutputContract
  import opened ProjectionPlan
  import opened ProjectionLimits

  /** No later source has the name of source `i`. */
  predicate Listed(q: Select, i: nat) {
    i < |q.sources| && forall j | i < j < |q.sources| :: q.sources[j].Name() != q.sources[i].Name()
  }

  /** Column `n` of source `i` is asked for: it has words, and all of them are requested. */
  ghost predicate Asked(requested: set<string>, words: string -> set<string>, q: Select, cat: Catalog, i: nat, n: string) {
    Listed(q, i) && n in ColumnsOf(cat.tables, q.sources[i].table) && words(n) != {} && words(n) <= requested
  }

  /** SQLite reads output `k` from column `n` of source `i`. */
  ghost predicate Reads(q: Select, cat: Catalog, k: nat, i: nat, n: string)
    requires Compile(q, cat).Some?
  {
    k < |Compile(q, cat).value.outputs| && i < |q.sources| && Compile(q, cat).value.outputs[k] == Src(q.sources[i].Name(), n)
  }

  /** SQLite reads output `k` from an asked column. */
  ghost predicate ReadsAsked(requested: set<string>, words: string -> set<string>, q: Select, cat: Catalog, k: nat)
    requires Compile(q, cat).Some?
  {
    exists i: nat, n :: Asked(requested, words, q, cat, i, n) && Reads(q, cat, k, i, n)
  }

  // ------------------------------------------------------------------ the sources

  lemma {:induction false} ListedSources(sources: seq<Source>, name: string) returns (i: nat)
    requires name in AliasMap(sources)
    ensures i < |sources| && sources[i].Name() == name && sources[i].table == AliasMap(sources)[name]
    ensures forall j | i < j < |sources| :: sources[j].Name() != name
  {
    if name in AliasMap(sources[1..]) {
      i := ListedSources(sources[1..], name);
      assert forall j | i < j < |sources| - 1 :: sources[1..][j] == sources[j + 1];
      i := i + 1;
    } else {
      i := 0;
      forall j | 0 < j < |sources| ensures sources[j].Name() != name { AliasHasSource(sources[1..], j - 1); }
    }
  }

  lemma {:induction false} AliasHasSource(sources: seq<Source>, j: nat)
    requires j < |sources|
    ensures sources[j].Name() in AliasMap(sources)
    ensures (forall k | j < k < |sources| :: sources[k].Name() != sources[j].Name()) ==> AliasMap(sources)[sources[j].Name()] == sources[j].table
  {
    assert forall k | 0 <= k < |sources| - 1 :: sources[1..][k] == sources[k + 1];
    if j == 0 {
      if sources[0].Name() in AliasMap(sources[1..]) { var i := ListedSources(sources[1..], sources[0].Name()); }
    } else {
      AliasHasSource(sources[1..], j - 1);
    }
  }

  /** The owners the code looks through are the tables of the listed sources. */
  lemma OwnerListed(q: Select, o: string)
    ensures o in AliasMap(q.sources).Values <==> exists i: nat :: Listed(q, i) && q.sources[i].table == o
  {
    var aliases := AliasMap(q.sources);
    if o in aliases.Values {
      var name :| name in aliases && aliases[name] == o;
      var i := ListedSources(q.sources, name);
      assert Listed(q, i);
    }
    if i: nat :| Listed(q, i) && q.sources[i].table == o { AliasHasSource(q.sources, i); }
  }

  lemma BindingAsked(requested: set<string>, words: string -> set<string>, q: Select, cat: Catalog, o: string, n: string)
    ensures var b := EditBindings(requested, words, q, cat.tables);
      && ((o, n) in b <==> exists i: nat :: Asked(requested, words, q, cat, i, n) && q.sources[i].table == o)
      && ((o, n) in b ==> b[(o, n)] == words(n))
  {
    OwnerListed(q, o);
    var b := EditBindings(requested, words, q, cat.tables);
    if (o, n) in b {
      var i: nat :| Listed(q, i) && q.sources[i].table == o;
      assert Asked(requested, words, q, cat, i, n);
    }
  }

  // ------------------------------------------------------------------ what is kept

  /** The source of an output that is a column. */
  lemma ColumnSource(q: Select, cat: Catalog, k: nat, i: nat, n: string) returns (t: string)
    requires Compile(q, cat).Some? && k < |q.items| && Reads(q, cat, k, i, n) && n in ColumnsOf(cat.tables, q.sources[i].table)
    ensures q.items[k].value == Column(t, n) && (t == "" || t == q.sources[i].Name())
    ensures Owners(q.sources, cat.tables, t, n) == [q.sources[i]]
  {
    var e := q.items[k].value;
    ElabEach(Values(q.items), SourceScope(q, cat), Compile(q, cat).value.outputs, k);
    assert Values(q.items)[k] == e && e.Column?;
    t := e.table;
    assert FindAlias([], e.name) == None;
    OwnersComplete(q.sources, cat.tables, t, e.name);
    var owners := Owners(q.sources, cat.tables, t, e.name);
    assert |owners| == 1 && owners[0] in owners;
    assert owners[0].Name() == q.sources[i].Name();
    assert q.sources[i] in owners;
  }

  /** The tables with a bound column `n` are those of one source, when only one has `n`. */
  lemma OneOwnerBound(requested: set<string>, words: string -> set<string>, q: Select, cat: Catalog, i: nat, n: string)
    requires Asked(requested, words, q, cat, i, n) && Owners(q.sources, cat.tables, "", n) == [q.sources[i]]
    ensures var b := EditBindings(requested, words, q, cat.tables);
      (set k | k in b && k.1 == n :: k.0) == {q.sources[i].table}
  {
    var b := EditBindings(requested, words, q, cat.tables);
    OwnersComplete(q.sources, cat.tables, "", n);
    BindingAsked(requested, words, q, cat, q.sources[i].table, n);
    assert (q.sources[i].table, n) in b;
    forall k | k in b && k.1 == n ensures k.0 == q.sources[i].table {
      BindingAsked(requested, words, q, cat, k.0, n);
      var j: nat :| Asked(requested, words, q, cat, j, n) && q.sources[j].table == k.0;
      assert q.sources[j] in Owners(q.sources, cat.tables, "", n);
    }
  }

  lemma AskedBound(requested: set<string>, words: string -> set<string>, q: Select, cat: Catalog, k: nat, i: nat, n: string)
    requires Compile(q, cat).Some? && k < |q.items| && (forall j | 0 <= j < |q.sources| :: q.sources[j].Name() != "")
    requires Asked(requested, words, q, cat, i, n) && Reads(q, cat, k, i, n)
    ensures ItemBinding(q.items[k], AliasMap(q.sources), EditBindings(requested, words, q, cat.tables)) == Some((q.sources[i].table, n))
    ensures (q.sources[i].table, n) in EditBindings(requested, words, q, cat.tables)
  {
    var t := ColumnSource(q, cat, k, i, n);
    BindingAsked(requested, words, q, cat, q.sources[i].table, n);
    if t in AliasMap(q.sources) {
      var j := ListedSources(q.sources, t);
      AliasHasSource(q.sources, i);
    } else {
      AliasHasSource(q.sources, i);
      OneOwnerBound(requested, words, q, cat, i, n);
    }
  }

  lemma BoundAsked(requested: set<string>, words: string -> set<string>, q: Select, cat: Catalog, k: nat) returns (i: nat)
    requires Compile(q, cat).Some? && k < |q.items| && (forall j | 0 <= j < |q.sources| :: q.sources[j].Name() != "")
    requires IsBound(q.items[k], AliasMap(q.sources), EditBindings(requested, words, q, cat.tables))
    ensures var bound := ItemBinding(q.items[k], AliasMap(q.sources), EditBindings(requested, words, q, cat.tables)).value;
      && Asked(requested, words, q, cat, i, bound.1) && q.sources[i].table == bound.0 && Reads(q, cat, k, i, bound.1)
  {
    var aliases, b := AliasMap(q.sources), EditBindings(requested, words, q, cat.tables);
    var e := q.items[k].value;
    var bound := ItemBinding(q.items[k], aliases, b).value;
    BindingAsked(requested, words, q, cat, bound.0, bound.1);
    if e.table in aliases {
      i := ListedSources(q.sources, e.table);
    } else {
      i :| Asked(requested, words, q, cat, i, bound.1) && q.sources[i].table == bound.0;
    }
    OwnerRead(q, cat, k, i);
  }

  /** An output column that source `i` has is read from that source, as there can be no other. */
  lemma OwnerRead(q: Select, cat: Catalog, k: nat, i: nat)
    requires Compile(q, cat).Some? && k < |q.items| && q.items[k].value.Column?
    requires i < |q.sources| && (q.items[k].value.table == "" || q.sources[i].Name() == q.items[k].value.table)
    requires q.items[k].value.name in ColumnsOf(cat.tables, q.sources[i].table)
    ensures Reads(q, cat, k, i, q.items[k].value.name)
  {
    var e := q.items[k].value;
    ElabEach(Values(q.items), SourceScope(q, cat), Compile(q, cat).value.outputs, k);
    OwnersComplete(q.sources, cat.tables, e.table, e.name);
    var owners := Owners(q.sources, cat.tables, e.table, e.name);
    assert q.sources[i] in owners && |owners| == 1;
  }

  /** An output is kept exactly when SQLite reads it from an asked column. */
  lemma KeptExactly(requested: set<string>, words: string -> set<string>, q: Select, cat: Catalog, k: nat)
    requires Compile(q, cat).Some? && k < |q.items| && (forall j | 0 <= j < |q.sources| :: q.sources[j].Name() != "")
    ensures EditMask(requested, words, q, cat.tables)[k] <==> ReadsAsked(requested, words, q, cat, k)
  {
    if EditMask(requested, words, q, cat.tables)[k] { var i := BoundAsked(requested, words, q, cat, k); }
    if i: nat, n :| Asked(requested, words, q, cat, i, n) && Reads(q, cat, k, i, n) { AskedBound(requested, words, q, cat, k, i, n); }
  }

  // -------------------------------------------------------------- when the edit fires

  /** A column is asked for that has the word, or a source's table has it. */
  ghost predicate Answered(word: string, requested: set<string>, words: string -> set<string>, q: Select, cat: Catalog) {
    AskedWord(word, requested, words, q, cat) || exists i: nat :: Listed(q, i) && word in words(q.sources[i].table)
  }

  ghost predicate AskedWord(word: string, requested: set<string>, words: string -> set<string>, q: Select, cat: Catalog) {
    exists i: nat, n :: Asked(requested, words, q, cat, i, n) && word in words(n)
  }

  /** SQLite reads output `k` from the asked column `n` of a source over table `o`. */
  ghost predicate ReadsFrom(requested: set<string>, words: string -> set<string>, q: Select, cat: Catalog, k: nat, o: string, n: string)
    requires Compile(q, cat).Some?
  {
    exists i: nat :: Asked(requested, words, q, cat, i, n) && q.sources[i].table == o && Reads(q, cat, k, i, n)
  }

  ghost predicate AllAnswered(requested: set<string>, words: string -> set<string>, q: Select, cat: Catalog) {
    && (exists i: nat, n :: Asked(requested, words, q, cat, i, n))
    && forall word | word in requested :: Answered(word, requested, words, q, cat)
  }

  ghost predicate AskedApart(requested: set<string>, words: string -> set<string>, q: Select, cat: Catalog) {
    forall i: nat, n, j: nat, m | Asked(requested, words, q, cat, i, n) && Asked(requested, words, q, cat, j, m) && words(n) == words(m) ::
      q.sources[i].table == q.sources[j].table && n == m
  }

  lemma CoveredExactly(requested: set<string>, words: string -> set<string>, q: Select, cat: Catalog)
    ensures Covered(EditBindings(requested, words, q, cat.tables), requested, words, AliasMap(q.sources))
      <==> AllAnswered(requested, words, q, cat)
  {
    CoveredMeans(requested, words, q, cat);
    SomeAsked(requested, words, q, cat);
    forall word
      ensures Answered(word, requested, words, q, cat)
        <==> word in Union(EditBindings(requested, words, q, cat.tables).Values) || word in Entities(words, q)
    {
      UnionAsked(requested, words, q, cat, word);
      EntityListed(words, q, word);
    }
  }

  lemma CoveredMeans(requested: set<string>, words: string -> set<string>, q: Select, cat: Catalog)
    ensures var all := Union(EditBindings(requested, words, q, cat.tables).Values);
      Covered(EditBindings(requested, words, q, cat.tables), requested, words, AliasMap(q.sources)) <==>
        all != {} && forall word | word in requested :: word in all || word in Entities(words, q)
  {
    NothingLeft(requested, Union(EditBindings(requested, words, q, cat.tables).Values), Entities(words, q));
  }

  lemma SomeAsked(requested: set<string>, words: string -> set<string>, q: Select, cat: Catalog)
    ensures Union(EditBindings(requested, words, q, cat.tables).Values) != {}
      <==> exists i: nat, n :: Asked(requested, words, q, cat, i, n)
  {
    var all := Union(EditBindings(requested, words, q, cat.tables).Values);
    if all != {} {
      var x :| x in all;
      UnionAsked(requested, words, q, cat, x);
    }
    if i: nat, n :| Asked(requested, words, q, cat, i, n) {
      var x :| x in words(n);
      AskedUnion(requested, words, q, cat, i, n, x);
    }
  }

  function Entities(words: string -> set<string>, q: Select): set<string> {
    set o, x | o in AliasMap(q.sources).Values && x in words(o) :: x
  }

  lemma EntityListed(words: string -> set<string>, q: Select, word: string)
    ensures word in Entities(words, q) <==> exists i: nat :: Listed(q, i) && word in words(q.sources[i].table)
  {
    if word in Entities(words, q) {
      var o :| o in AliasMap(q.sources).Values && word in words(o);
      OwnerListed(q, o);
    }
    if i: nat :| Listed(q, i) && word in words(q.sources[i].table) { OwnerListed(q, q.sources[i].table); }
  }

  lemma NothingLeft<T>(s: set<T>, a: set<T>, b: set<T>)
    ensures s - a - b == {} <==> forall x | x in s :: x in a || x in b
  {
    if s - a - b == {} {
      forall x | x in s ensures x in a || x in b { assert x !in s - a - b; }
    }
  }

  lemma UnionAsked(requested: set<string>, words: string -> set<string>, q: Select, cat: Catalog, word: string)
    ensures word in Union(EditBindings(requested, words, q, cat.tables).Values) <==> AskedWord(word, requested, words, q, cat)
  {
    var b := EditBindings(requested, words, q, cat.tables);
    if word in Union(b.Values) {
      var s :| s in b.Values && word in s;
      var k :| k in b && b[k] == s;
      BindingAsked(requested, words, q, cat, k.0, k.1);
    }
    if i: nat, n :| Asked(requested, words, q, cat, i, n) && word in words(n) { AskedUnion(requested, words, q, cat, i, n, word); }
  }

  lemma AskedUnion(requested: set<string>, words: string -> set<string>, q: Select, cat: Catalog, i: nat, n: string, word: string)
    requires Asked(requested, words, q, cat, i, n) && word in words(n)
    ensures word in Union(EditBindings(requested, words, q, cat.tables).Values)
  {
    var b := EditBindings(requested, words, q, cat.tables);
    BindingAsked(requested, words, q, cat, q.sources[i].table, n);
    assert b[(q.sources[i].table, n)] in b.Values;
  }

  lemma UnambiguousExactly(requested: set<string>, words: string -> set<string>, q: Select, cat: Catalog)
    ensures Unambiguous(EditBindings(requested, words, q, cat.tables)) <==> AskedApart(requested, words, q, cat)
  {
    var b := EditBindings(requested, words, q, cat.tables);
    forall i: nat, n | Asked(requested, words, q, cat, i, n)
      ensures (q.sources[i].table, n) in b && b[(q.sources[i].table, n)] == words(n)
    {
      BindingAsked(requested, words, q, cat, q.sources[i].table, n);
    }
    forall k | k in b
      ensures b[k] == words(k.1) && exists i: nat :: Asked(requested, words, q, cat, i, k.1) && q.sources[i].table == k.0
    {
      BindingAsked(requested, words, q, cat, k.0, k.1);
    }
  }

  // ------------------------------------------------------------------ the outputs

  lemma {:induction false} PickCount<T>(s: seq<T>, mask: seq<bool>)
    requires |mask| == |s|
    ensures |Pick(s, mask)| == |TrueAt(mask)|
  {
    if s != [] {
      PickCount(s[1..], mask[1..]);
      MaskShift(mask);
    }
  }

  function TrueAt(mask: seq<bool>): set<int> { set k | 0 <= k < |mask| && mask[k] }

  lemma MaskShift(mask: seq<bool>)
    requires mask != []
    ensures |TrueAt(mask)| == |TrueAt(mask[1..])| + if mask[0] then 1 else 0
  {
    var there := TrueAt(mask[1..]);
    var moved := set k | k in there :: k + 1;
    ShiftedSize(there);
    forall k | 0 < k < |mask| && mask[k] ensures k in moved { assert mask[1..][k - 1]; assert k - 1 in there; }
    assert TrueAt(mask) == moved + if mask[0] then {0} else {};
  }

  lemma ShiftedSize(s: set<int>)
    ensures |set k | k in s :: k + 1| == |s|
  {
    var m := map k | k in s :: k + 1;
    MapSizes(m);
    assert m.Keys == s && |m| == |m.Keys|;
    assert m.Values == set k | k in s :: k + 1 by {
      forall v | v in set k | k in s :: k + 1 ensures v in m.Values { assert v - 1 in s && m[v - 1] == v; }
    }
  }

  /** What the kept outputs are bound to. */
  function Bound(items: seq<Item>, aliases: map<string, string>, b: Bindings): map<int, Owned> {
    map k | 0 <= k < |items| && IsBound(items[k], aliases, b) :: ItemBinding(items[k], aliases, b).value
  }

  lemma BoundSizes(items: seq<Item>, aliases: map<string, string>, b: Bindings)
    ensures Bound(items, aliases, b).Values == Matched(items, aliases, b)
    ensures |Bound(items, aliases, b)| == |Pick(items, KeepMask(items, aliases, b))|
  {
    var m := Bound(items, aliases, b);
    PickCount(items, KeepMask(items, aliases, b));
    assert m.Keys == TrueAt(KeepMask(items, aliases, b)) && |m| == |m.Keys|;
    forall o | o in Matched(items, aliases, b) ensures o in m.Values {
      var k :| 0 <= k < |items| && IsBound(items[k], aliases, b) && ItemBinding(items[k], aliases, b).value == o;
      assert m[k] == o;
    }
  }

  ghost predicate HitOnce<K, V>(m: map<K, V>, v: V) {
    (exists k :: k in m && m[k] == v) && forall k, l | k in m && l in m && m[k] == v && m[l] == v :: k == l
  }

  /** A map into `keys` reaches all of them and has as many entries, exactly when it hits
      each once. */
  lemma Bijective<K, V>(m: map<K, V>, keys: set<V>)
    requires m.Values <= keys
    ensures m.Values == keys && |m| == |keys| <==> forall v | v in keys :: HitOnce(m, v)
  {
    MapSizes(m);
    if m.Values == keys && |m| == |keys| {
      forall v | v in keys ensures HitOnce(m, v) { assert v in m.Values; }
    }
    if forall v | v in keys :: HitOnce(m, v) {
      forall v | v in keys ensures v in m.Values { assert HitOnce(m, v); }
      forall k, l | k in m && l in m && m[k] == m[l] ensures k == l { assert m[k] in m.Values && HitOnce(m, m[k]); }
    }
  }

  /** All bindings are met and as many outputs kept, exactly when each is met once. */
  lemma MetOnce(items: seq<Item>, aliases: map<string, string>, b: Bindings)
    ensures Matched(items, aliases, b) == b.Keys && |Pick(items, KeepMask(items, aliases, b))| == |b| <==>
      forall o | o in b.Keys :: HitOnce(Bound(items, aliases, b), o)
  {
    BoundSizes(items, aliases, b);
    assert Bound(items, aliases, b).Values <= b.Keys && |b| == |b.Keys|;
    Bijective(Bound(items, aliases, b), b.Keys);
  }

  lemma ReadsFromBound(requested: set<string>, words: string -> set<string>, q: Select, cat: Catalog, k: nat, o: string, n: string)
    requires Compile(q, cat).Some? && k < |q.items| && (forall j | 0 <= j < |q.sources| :: q.sources[j].Name() != "")
    ensures var m := Bound(q.items, AliasMap(q.sources), EditBindings(requested, words, q, cat.tables));
      ReadsFrom(requested, words, q, cat, k, o, n) <==> k in m && m[k] == (o, n)
  {
    var m := Bound(q.items, AliasMap(q.sources), EditBindings(requested, words, q, cat.tables));
    if k in m && m[k] == (o, n) { var i := BoundAsked(requested, words, q, cat, k); }
    if i: nat :| Asked(requested, words, q, cat, i, n) && q.sources[i].table == o && Reads(q, cat, k, i, n) {
      AskedBound(requested, words, q, cat, k, i, n);
    }
  }

  /** Exactly one output is read from column `n` of a source over table `o`. */
  ghost predicate OneReads(requested: set<string>, words: string -> set<string>, q: Select, cat: Catalog, o: string, n: string)
    requires Compile(q, cat).Some?
  {
    && (exists k: nat :: ReadsFrom(requested, words, q, cat, k, o, n))
    && forall k: nat, l: nat | ReadsFrom(requested, words, q, cat, k, o, n) && ReadsFrom(requested, words, q, cat, l, o, n) :: k == l
  }

  /** Every asked column is read by exactly one output. */
  ghost predicate ReadOnce(requested: set<string>, words: string -> set<string>, q: Select, cat: Catalog)
    requires Compile(q, cat).Some?
  {
    forall i: nat, n | Asked(requested, words, q, cat, i, n) :: OneReads(requested, words, q, cat, q.sources[i].table, n)
  }

  lemma OutputsRange(q: Select, cat: Catalog)
    requires Compile(q, cat).Some?
    ensures |Compile(q, cat).value.outputs| == |q.items|
  {
  }

  lemma ReadOnceExactly(requested: set<string>, words: string -> set<string>, q: Select, cat: Catalog)
    requires Compile(q, cat).Some? && (forall j | 0 <= j < |q.sources| :: q.sources[j].Name() != "")
    ensures var aliases, b := AliasMap(q.sources), EditBindings(requested, words, q, cat.tables);
      Matched(q.items, aliases, b) == b.Keys && |Pick(q.items, KeepMask(q.items, aliases, b))| == |b| <==> ReadOnce(requested, words, q, cat)
  {
    var aliases, b := AliasMap(q.sources), EditBindings(requested, words, q, cat.tables);
    var m := Bound(q.items, aliases, b);
    MetOnce(q.items, aliases, b);
    forall i: nat, n | Asked(requested, words, q, cat, i, n)
      ensures (q.sources[i].table, n) in b
      ensures HitOnce(m, (q.sources[i].table, n)) <==> OneReads(requested, words, q, cat, q.sources[i].table, n)
    {
      BindingAsked(requested, words, q, cat, q.sources[i].table, n);
      OneReadsHit(requested, words, q, cat, q.sources[i].table, n);
    }
    forall o | o in b.Keys ensures exists i: nat :: Asked(requested, words, q, cat, i, o.1) && (q.sources[i].table, o.1) == o {
      BindingAsked(requested, words, q, cat, o.0, o.1);
    }
  }

  lemma OneReadsHit(requested: set<string>, words: string -> set<string>, q: Select, cat: Catalog, o: string, n: string)
    requires Compile(q, cat).Some? && (forall j | 0 <= j < |q.sources| :: q.sources[j].Name() != "")
    ensures HitOnce(Bound(q.items, AliasMap(q.sources), EditBindings(requested, words, q, cat.tables)), (o, n))
      <==> OneReads(requested, words, q, cat, o, n)
  {
    var m := Bound(q.items, AliasMap(q.sources), EditBindings(requested, words, q, cat.tables));
    OutputsRange(q, cat);
    forall k: nat ensures ReadsFrom(requested, words, q, cat, k, o, n) <==> k in m && m[k] == (o, n) {
      if k < |q.items| { ReadsFromBound(requested, words, q, cat, k, o, n); }
    }
    if HitOnce(m, (o, n)) {
      var k :| k in m && m[k] == (o, n);
      assert ReadsFrom(requested, words, q, cat, k, o, n);
    }
    if OneReads(requested, words, q, cat, o, n) {
      var k: nat :| ReadsFrom(requested, words, q, cat, k, o, n);
      assert k in m && m[k] == (o, n);
    }
  }

  // ------------------------------------------------------------------- the theorem

  /** The alias of output `k` names nothing else. */
  predicate OwnAlias(q: Select, cat: Catalog, k: nat)
    requires k < |q.items|
  {
    q.items[k].alias != "" ==>
      && (forall l | 0 <= l < |q.items| && l != k :: q.items[l].alias != q.items[k].alias)
      && forall t, c | 0 <= t < |cat.tables| && 0 <= c < |cat.tables[t].columns| :: cat.tables[t].columns[c].name != q.items[k].alias
  }

  lemma {:induction false} CountedOnce(items: seq<Item>, k: nat)
    requires k < |items|
    ensures CountAlias(items, items[k].alias) >= 1
    ensures CountAlias(items, items[k].alias) == 1 <==> forall l | 0 <= l < |items| && l != k :: items[l].alias != items[k].alias
  {
    var n := items[k].alias;
    assert forall l | 0 <= l < |items| - 1 :: items[1..][l] == items[l + 1];
    CountedNever(items[1..], n);
    if k > 0 { CountedOnce(items[1..], k - 1); }
  }

  lemma {:induction false} CountedNever(items: seq<Item>, n: string)
    ensures CountAlias(items, n) == 0 <==> forall l | 0 <= l < |items| :: items[l].alias != n
  {
    if items != [] {
      CountedNever(items[1..], n);
      assert forall l | 0 <= l < |items| - 1 :: items[1..][l] == items[l + 1];
    }
  }

  lemma OwnAliasExpands(q: Select, cat: Catalog, k: nat)
    requires k < |q.items|
    ensures Expandable(q.items[k], q.items, cat.tables) <==> OwnAlias(q, cat, k)
  {
    CountedOnce(q.items, k);
    var n := q.items[k].alias;
    if IsCatalogColumn(cat.tables, n) {
      var t :| 0 <= t < |cat.tables| && n in ColumnNames(cat.tables[t].columns);
      var c :| c in cat.tables[t].columns && c.name == n;
      var j :| 0 <= j < |cat.tables[t].columns| && cat.tables[t].columns[j] == c;
    }
    if t, c :| 0 <= t < |cat.tables| && 0 <= c < |cat.tables[t].columns| && cat.tables[t].columns[c].name == n {
      assert cat.tables[t].columns[c] in cat.tables[t].columns;
      assert n in ColumnNames(cat.tables[t].columns);
    }
  }

  /** Which outputs SQLite reads from asked columns. */
  ghost function ReadMask(requested: set<string>, words: string -> set<string>, q: Select, cat: Catalog): (r: seq<bool>)
    requires Compile(q, cat).Some?
    ensures |r| == |q.items|
  {
    seq(|q.items|, k requires 0 <= k < |q.items| => ReadsAsked(requested, words, q, cat, k))
  }

  lemma MasksAgree(requested: set<string>, words: string -> set<string>, q: Select, cat: Catalog)
    requires Compile(q, cat).Some? && (forall j | 0 <= j < |q.sources| :: q.sources[j].Name() != "")
    ensures EditMask(requested, words, q, cat.tables) == ReadMask(requested, words, q, cat)
  {
    forall k | 0 <= k < |q.items|
      ensures EditMask(requested, words, q, cat.tables)[k] == ReadMask(requested, words, q, cat)[k]
    {
      KeptExactly(requested, words, q, cat, k);
    }
  }

  predicate InCatalog(cat: Catalog, table: string) { exists t :: 0 <= t < |cat.tables| && cat.tables[t].name == table }

  ghost predicate SourcesInCatalog(q: Select, cat: Catalog) { forall i: nat | Listed(q, i) :: InCatalog(cat, q.sources[i].table) }

  /** Output `k` is read from no asked column. */
  ghost predicate Unasked(requested: set<string>, words: string -> set<string>, q: Select, cat: Catalog, k: nat)
    requires Compile(q, cat).Some?
  {
    k < |q.items| && !ReadsAsked(requested, words, q, cat, k)
  }

  /** All that has to hold for the edit: no aggregate without GROUP BY and no ordinal; every
      source in the catalog; every requested word answered, by one column at least; no two
      columns asked for by the same words; each of them read by one output, and at least one
      output read from none of them; and the alias of every such output its own. */
  ghost predicate Warranted(requested: set<string>, words: string -> set<string>, q: Select, cat: Catalog)
    requires Compile(q, cat).Some?
  {
    && (FindsAgg(q) ==> q.group != []) && !HasOrdinals(q)
    && SourcesInCatalog(q, cat)
    && AllAnswered(requested, words, q, cat)
    && AskedApart(requested, words, q, cat)
    && ReadOnce(requested, words, q, cat)
    && SomeUnasked(requested, words, q, cat)
  }

  /** Some output is read from no asked column, and the alias of each such is its own. */
  ghost predicate SomeUnasked(requested: set<string>, words: string -> set<string>, q: Select, cat: Catalog)
    requires Compile(q, cat).Some?
  {
    && (exists k: nat :: Unasked(requested, words, q, cat, k))
    && (forall k: nat | Unasked(requested, words, q, cat, k) :: OwnAlias(q, cat, k))
  }

  lemma SourcesKnown(q: Select, cat: Catalog)
    ensures (forall o | o in AliasMap(q.sources).Values :: Known(cat.tables, o)) <==> SourcesInCatalog(q, cat)
  {
    assert forall o :: Known(cat.tables, o) <==> InCatalog(cat, o);
    forall o | o in AliasMap(q.sources).Values ensures exists i: nat :: Listed(q, i) && q.sources[i].table == o { OwnerListed(q, o); }
    forall i: nat | Listed(q, i) ensures q.sources[i].table in AliasMap(q.sources).Values { OwnerListed(q, q.sources[i].table); }
  }

  lemma UnaskedDropped(requested: set<string>, words: string -> set<string>, q: Select, cat: Catalog, k: nat) returns (d: nat)
    requires Compile(q, cat).Some? && (forall j | 0 <= j < |q.sources| :: q.sources[j].Name() != "")
    requires Unasked(requested, words, q, cat, k)
    ensures d < |DroppedItems(requested, words, q, cat.tables)| && DroppedItems(requested, words, q, cat.tables)[d] == q.items[k]
  {
    KeptExactly(requested, words, q, cat, k);
    d := PickHas(q.items, Negate(EditMask(requested, words, q, cat.tables)), k);
  }

  lemma DroppedUnasked(requested: set<string>, words: string -> set<string>, q: Select, cat: Catalog, d: nat) returns (k: nat)
    requires Compile(q, cat).Some? && (forall j | 0 <= j < |q.sources| :: q.sources[j].Name() != "")
    requires d < |DroppedItems(requested, words, q, cat.tables)|
    ensures Unasked(requested, words, q, cat, k) && DroppedItems(requested, words, q, cat.tables)[d] == q.items[k]
  {
    k := PickFrom(q.items, Negate(EditMask(requested, words, q, cat.tables)), d);
    KeptExactly(requested, words, q, cat, k);
  }

  lemma SomeDropped(requested: set<string>, words: string -> set<string>, q: Select, cat: Catalog)
    requires Compile(q, cat).Some? && (forall j | 0 <= j < |q.sources| :: q.sources[j].Name() != "")
    ensures DroppedItems(requested, words, q, cat.tables) != [] <==> exists k: nat :: Unasked(requested, words, q, cat, k)
  {
    if DroppedItems(requested, words, q, cat.tables) != [] { var k := DroppedUnasked(requested, words, q, cat, 0); }
    if k: nat :| Unasked(requested, words, q, cat, k) { var d := UnaskedDropped(requested, words, q, cat, k); }
  }

  lemma DroppedExpand(requested: set<string>, words: string -> set<string>, q: Select, cat: Catalog)
    requires Compile(q, cat).Some? && (forall j | 0 <= j < |q.sources| :: q.sources[j].Name() != "")
    ensures AllExpandable(DroppedItems(requested, words, q, cat.tables), q.items, cat.tables) <==>
      forall k: nat | Unasked(requested, words, q, cat, k) :: OwnAlias(q, cat, k)
  {
    var dropped := DroppedItems(requested, words, q, cat.tables);
    forall k: nat | Unasked(requested, words, q, cat, k)
      ensures AllExpandable(dropped, q.items, cat.tables) ==> OwnAlias(q, cat, k)
    {
      var d := UnaskedDropped(requested, words, q, cat, k);
      OwnAliasExpands(q, cat, k);
    }
    forall d | 0 <= d < |dropped|
      ensures (forall k: nat | Unasked(requested, words, q, cat, k) :: OwnAlias(q, cat, k)) ==> Expandable(dropped[d], q.items, cat.tables)
    {
      var k := DroppedUnasked(requested, words, q, cat, d);
      OwnAliasExpands(q, cat, k);
    }
  }

  /** An asked column that one output reads, and another output. */
  lemma TwoOutputs(requested: set<string>, words: string -> set<string>, q: Select, cat: Catalog)
    requires Compile(q, cat).Some? && AllAnswered(requested, words, q, cat) && ReadOnce(requested, words, q, cat)
    requires SomeUnasked(requested, words, q, cat)
    ensures |q.items| >= 2
  {
    var i: nat, n :| Asked(requested, words, q, cat, i, n);
    assert OneReads(requested, words, q, cat, q.sources[i].table, n);
    var k: nat :| ReadsFrom(requested, words, q, cat, k, q.sources[i].table, n);
    var l: nat :| Unasked(requested, words, q, cat, l);
    ReadsFromAsked(requested, words, q, cat, k, q.sources[i].table, n);
    assert k != l;
  }

  lemma ReadsFromAsked(requested: set<string>, words: string -> set<string>, q: Select, cat: Catalog, k: nat, o: string, n: string)
    requires Compile(q, cat).Some? && ReadsFrom(requested, words, q, cat, k, o, n)
    ensures k < |q.items| && ReadsAsked(requested, words, q, cat, k)
  {
    OutputsRange(q, cat);
  }

  /** The guards on the sources, and those on the outputs. */
  predicate SourceGuards(requested: set<string>, words: string -> set<string>, q: Select, tables: seq<TableInfo>) {
    var aliases, b := AliasMap(q.sources), EditBindings(requested, words, q, tables);
    (forall o | o in aliases.Values :: Known(tables, o)) && Covered(b, requested, words, aliases) && Unambiguous(b)
  }

  predicate OutputGuards(requested: set<string>, words: string -> set<string>, q: Select, tables: seq<TableInfo>) {
    var aliases, b := AliasMap(q.sources), EditBindings(requested, words, q, tables);
    && (Matched(q.items, aliases, b) == b.Keys && |Pick(q.items, KeepMask(q.items, aliases, b))| == |b|)
    && DroppedItems(requested, words, q, tables) != []
    && AllExpandable(DroppedItems(requested, words, q, tables), q.items, tables)
  }

  lemma FiresParts(requested: set<string>, words: string -> set<string>, q: Select, tables: seq<TableInfo>)
    ensures ProjectionFires(requested, words, q, tables) <==>
      && |q.items| >= 2 && (FindsAgg(q) ==> q.group != []) && !HasOrdinals(q)
      && SourceGuards(requested, words, q, tables) && OutputGuards(requested, words, q, tables)
  {
  }

  lemma SourceGuardsExactly(requested: set<string>, words: string -> set<string>, q: Select, cat: Catalog)
    ensures SourceGuards(requested, words, q, cat.tables) <==>
      SourcesInCatalog(q, cat) && AllAnswered(requested, words, q, cat) && AskedApart(requested, words, q, cat)
  {
    SourcesKnown(q, cat);
    CoveredExactly(requested, words, q, cat);
    UnambiguousExactly(requested, words, q, cat);
  }

  lemma OutputGuardsExactly(requested: set<string>, words: string -> set<string>, q: Select, cat: Catalog)
    requires Compile(q, cat).Some? && (forall j | 0 <= j < |q.sources| :: q.sources[j].Name() != "")
    ensures OutputGuards(requested, words, q, cat.tables) <==> ReadOnce(requested, words, q, cat) && SomeUnasked(requested, words, q, cat)
  {
    ReadOnceExactly(requested, words, q, cat);
    SomeDropped(requested, words, q, cat);
    DroppedExpand(requested, words, q, cat);
  }

  /** The edit fires exactly when it is warranted. */
  lemma FiresExactly(requested: set<string>, words: string -> set<string>, q: Select, cat: Catalog)
    requires Compile(q, cat).Some? && (forall j | 0 <= j < |q.sources| :: q.sources[j].Name() != "")
    ensures ProjectionFires(requested, words, q, cat.tables) <==> Warranted(requested, words, q, cat)
  {
    FiresParts(requested, words, q, cat.tables);
    SourceGuardsExactly(requested, words, q, cat);
    OutputGuardsExactly(requested, words, q, cat);
    if Warranted(requested, words, q, cat) { TwoOutputs(requested, words, q, cat); }
  }

  /** The word is a word of a column that a kept output shows. */
  ghost predicate Shown(word: string, requested: set<string>, words: string -> set<string>, q: Select, cat: Catalog, kept: seq<Item>)
    requires Compile(q, cat).Some?
  {
    exists k: nat, i: nat, n ::
      Asked(requested, words, q, cat, i, n) && Reads(q, cat, k, i, n) && word in words(n) && k < |q.items| && q.items[k] in kept
  }

  /** When the edit fires, the outputs it keeps are those SQLite reads from asked columns, in
      their order, and every requested word is a word of a column they show, or of a table. */
  lemma RequestedShown(requested: set<string>, words: string -> set<string>, q: Select, cat: Catalog)
    requires Compile(q, cat).Some? && (forall j | 0 <= j < |q.sources| :: q.sources[j].Name() != "")
    requires ProjectionFires(requested, words, q, cat.tables)
    ensures var kept := Edited(requested, words, q, cat.tables).items;
      && kept == Pick(q.items, ReadMask(requested, words, q, cat))
      && forall word | word in requested :: Shown(word, requested, words, q, cat, kept) || TableWord(word, words, q)
  {
    var kept := Pick(q.items, ReadMask(requested, words, q, cat));
    FiresExactly(requested, words, q, cat);
    MasksAgree(requested, words, q, cat);
    forall word | word in requested ensures Shown(word, requested, words, q, cat, kept) || TableWord(word, words, q) {
      AnsweredShown(requested, words, q, cat, word);
    }
  }

  predicate TableWord(word: string, words: string -> set<string>, q: Select) {
    exists i :: 0 <= i < |q.sources| && word in words(q.sources[i].table)
  }

  lemma AnsweredShown(requested: set<string>, words: string -> set<string>, q: Select, cat: Catalog, word: string)
    requires Compile(q, cat).Some? && ReadOnce(requested, words, q, cat) && Answered(word, requested, words, q, cat)
    ensures Shown(word, requested, words, q, cat, Pick(q.items, ReadMask(requested, words, q, cat))) || TableWord(word, words, q)
  {
    if i: nat, n :| Asked(requested, words, q, cat, i, n) && word in words(n) { AskedShown(requested, words, q, cat, i, n, word); }
  }

  lemma AskedShown(requested: set<string>, words: string -> set<string>, q: Select, cat: Catalog, i: nat, n: string, word: string)
    requires Compile(q, cat).Some? && ReadOnce(requested, words, q, cat) && Asked(requested, words, q, cat, i, n) && word in words(n)
    ensures Shown(word, requested, words, q, cat, Pick(q.items, ReadMask(requested, words, q, cat)))
  {
    OutputsRange(q, cat);
    assert OneReads(requested, words, q, cat, q.sources[i].table, n);
    var k: nat :| ReadsFrom(requested, words, q, cat, k, q.sources[i].table, n);
    var j: nat :| Asked(requested, words, q, cat, j, n) && Reads(q, cat, k, j, n);
    var d := PickHas(q.items, ReadMask(requested, words, q, cat), k);
  }

  /** A requested word that no asked column and no source has refuses the edit. */
  lemma UnansweredRefused(requested: set<string>, words: string -> set<string>, q: Select, cat: Catalog, word: string)
    requires word in requested && !Answered(word, requested, words, q, cat)
    ensures !ProjectionFires(requested, words, q, cat.tables)
  {
    CoveredExactly(requested, words, q, cat);
  }
}
