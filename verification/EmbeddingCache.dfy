/** The chunked embedding cache of the index service. */
module EmbeddingCache {
  import opened Prelude

  type Vector = seq<real>

  const CHUNK := 500

  /** The stored rows.  A key is the hash of model, template and text; hashes are
      injective, so with model and template fixed the text stands for its key. */
  type Store = map<string, Vector>

  /** Every stored row is the embedding of its text. */
  ghost predicate Genuine(store: Store, embed: string -> Vector) { forall t | t in store :: store[t] == embed(t) }

  function Rows(store: Store, chunk: seq<string>): map<string, Vector> {
    map t | t in chunk && t in store :: store[t]
  }

  /** What the stored rows and a fresh embedding give for one text. */
  function Looked(store: Store, embed: string -> Vector, t: string): Vector { if t in store then store[t] else embed(t) }

  function Vectors(store: Store, embed: string -> Vector, texts: seq<string>): seq<Vector> {
    seq(|texts|, i requires 0 <= i < |texts| => Looked(store, embed, texts[i]))
  }

  predicate SameDimension(vs: seq<Vector>) { vs != [] && forall i | 0 <= i < |vs| :: |vs[i]| == |vs[0]| }

  /** The positions `i..` whose text is not stored, in order. */
  function MissingFrom(store: Store, texts: seq<string>, i: nat): (missing: seq<nat>)
    requires i <= |texts|
    ensures forall k | 0 <= k < |missing| :: missing[k] < |texts|
    decreases |texts| - i
  {
    if i == |texts| then [] else (if texts[i] in store then [] else [i]) + MissingFrom(store, texts, i + 1)
  }

  lemma MissingNext(store: Store, texts: seq<string>, i: nat, missing: seq<nat>)
    requires i < |texts|
    ensures missing + MissingFrom(store, texts, i)
         == (if texts[i] in store then missing else missing + [i]) + MissingFrom(store, texts, i + 1)
  {
    var found: seq<nat> := if texts[i] in store then [] else [i];
    assert missing + (found + MissingFrom(store, texts, i + 1)) == (missing + found) + MissingFrom(store, texts, i + 1);
    assert missing + [] == missing;
  }

  function Embedded(texts: seq<string>, positions: seq<nat>): seq<string>
    requires forall k | 0 <= k < |positions| :: positions[k] < |texts|
  {
    seq(|positions|, k requires 0 <= k < |positions| => texts[positions[k]])
  }

  /** What the provider is asked for: nothing, or the missing texts in one batch. */
  function Request(store: Store, texts: seq<string>): Option<seq<string>> {
    var missing := MissingFrom(store, texts, 0);
    if missing == [] then None else Some(Embedded(texts, missing))
  }

  predicate Miscounts(provider: seq<string> -> seq<Vector>, asked: Option<seq<string>>) {
    asked.Some? && |provider(asked.value)| != |asked.value|
  }

  lemma {:induction false} MissingPositions(store: Store, texts: seq<string>, i: nat)
    requires i <= |texts|
    ensures forall p :: p in MissingFrom(store, texts, i) <==> i <= p < |texts| && texts[p] !in store
    decreases |texts| - i
  {
    if i < |texts| { MissingPositions(store, texts, i + 1); }
  }

  /** A provider that answers the right number of vectors answers the right vectors. */
  ghost predicate Honest(provider: seq<string> -> seq<Vector>, embed: string -> Vector) {
    forall batch :: Faithful(batch, provider(batch), embed)
  }

  ghost predicate Faithful(batch: seq<string>, vectors: seq<Vector>, embed: string -> Vector) {
    |vectors| == |batch| ==> forall k | 0 <= k < |batch| :: vectors[k] == embed(batch[k])
  }

  class IndexService {
    var store: Store

    constructor (store: Store)
      ensures this.store == store
    {
      this.store := store;
    }

    /** The chunked SELECTs. */
    method Lookup(texts: seq<string>) returns (cached: map<string, Vector>)
      ensures cached == Rows(store, texts)
    {
      cached := map[];
      var offset := 0;
      while offset < |texts|
        invariant 0 <= offset
        invariant cached == Rows(store, texts[..if offset < |texts| then offset else |texts|])
        decreases |texts| - offset
      {
        var end := if offset + CHUNK < |texts| then offset + CHUNK else |texts|;
        assert texts[..end] == texts[..offset] + texts[offset..end];
        cached := cached + Rows(store, texts[offset..end]);
        offset := offset + CHUNK;
      }
      assert texts[..|texts|] == texts;
    }

    /** `_cached_embeddings`.  `provider` answers the batch of missing texts; `asked` is
        that batch (None: the provider was not called). */
    method CachedEmbeddings(texts: seq<string>, provider: seq<string> -> seq<Vector>, ghost embed: string -> Vector)
      returns (r: Result<seq<Vector>>, asked: Option<seq<string>>)
      requires Honest(provider, embed)
      modifies this
      ensures asked == Request(old(store), texts)
      ensures Miscounts(provider, asked) ==> r.Err? && store == old(store)
      ensures !Miscounts(provider, asked) ==>
        && store == Filled(old(store), embed, texts)
        && (r.Ok? <==> SameDimension(Vectors(old(store), embed, texts)))
        && (r.Ok? ==> r.value == Vectors(old(store), embed, texts))
    {
      var cached;
      cached, asked := Fill(texts, provider, embed);
      if cached.None? {
        return Err("embedding provider returned an unexpected vector count"), asked;
      }
      var vectors := seq(|texts|, i requires 0 <= i < |texts| && texts[i] in cached.value => cached.value[texts[i]]);
      assert vectors == Vectors(old(store), embed, texts);
      if vectors == [] || exists i :: 0 <= i < |vectors| && |vectors[i]| != |vectors[0]| {
        return Err("embedding cache contains inconsistent dimensions"), asked;
      }
      return Ok(vectors), asked;
    }

    /** The lookup, the one provider call and the inserts. */
    method Fill(texts: seq<string>, provider: seq<string> -> seq<Vector>, ghost embed: string -> Vector)
      returns (cached: Option<Store>, asked: Option<seq<string>>)
      requires Honest(provider, embed)
      modifies this
      ensures asked == Request(old(store), texts)
      ensures cached.None? <==> Miscounts(provider, asked)
      ensures cached.None? ==> store == old(store)
      ensures cached.Some? ==> store == Filled(old(store), embed, texts) && Held(cached.value, old(store), embed, texts)
    {
      var rows := Lookup(texts);
      var missing := Absent(texts, rows);
      FilledBy(store, embed, texts, missing);
      if missing == [] {
        assert Added(texts, missing, embed) == map[];
        assert rows + map[] == rows && store + map[] == store;
        return Some(rows), None;
      }
      var batch := Embedded(texts, missing);
      var generated := provider(batch);
      if |generated| != |missing| {
        return None, Some(batch);
      }
      assert Faithful(batch, provider(batch), embed);
      rows := Insert(texts, missing, generated, rows, embed);
      return Some(rows), Some(batch);
    }

    method Absent(texts: seq<string>, cached: map<string, Vector>) returns (missing: seq<nat>)
      requires cached == Rows(store, texts)
      ensures missing == MissingFrom(store, texts, 0)
    {
      missing := [];
      for i := 0 to |texts|
        invariant missing + MissingFrom(store, texts, i) == MissingFrom(store, texts, 0)
      {
        MissingNext(store, texts, i, missing);
        assert texts[i] in cached <==> texts[i] in store;
        if texts[i] !in cached {
          missing := missing + [i];
        }
      }
    }

    method Insert(texts: seq<string>, missing: seq<nat>, generated: seq<Vector>, before: map<string, Vector>, ghost embed: string -> Vector)
      returns (cached: map<string, Vector>)
      requires |generated| == |missing|
      requires forall k | 0 <= k < |missing| :: missing[k] < |texts| && generated[k] == embed(texts[missing[k]])
      modifies this
      ensures cached == before + Added(texts, missing, embed)
      ensures store == old(store) + Added(texts, missing, embed)
    {
      cached := before;
      for k := 0 to |missing|
        invariant cached == before + Added(texts, missing[..k], embed)
        invariant store == old(store) + Added(texts, missing[..k], embed)
      {
        AddedOne(before, texts, missing, k, embed);
        AddedOne(old(store), texts, missing, k, embed);
        cached := cached[texts[missing[k]] := generated[k]];
        store := store[texts[missing[k]] := generated[k]];
      }
      assert missing[..|missing|] == missing;
    }
  }

  /** The rows an honest provider adds for the texts at `positions`. */
  ghost function Added(texts: seq<string>, positions: seq<nat>, embed: string -> Vector): Store
    requires forall k | 0 <= k < |positions| :: positions[k] < |texts|
  {
    map t | t in Embedded(texts, positions) :: embed(t)
  }

  /** The store once every text is in it. */
  ghost function Filled(store: Store, embed: string -> Vector, texts: seq<string>): Store {
    map t | t in store.Keys + (set x | x in texts) :: Looked(store, embed, t)
  }

  lemma AddedOne(base: Store, texts: seq<string>, positions: seq<nat>, k: nat, embed: string -> Vector)
    requires k < |positions| && forall j | 0 <= j < |positions| :: positions[j] < |texts|
    ensures base + Added(texts, positions[..k + 1], embed)
         == (base + Added(texts, positions[..k], embed))[texts[positions[k]] := embed(texts[positions[k]])]
  {
    assert Embedded(texts, positions[..k + 1]) == Embedded(texts, positions[..k]) + [texts[positions[k]]];
    assert Added(texts, positions[..k + 1], embed)
        == Added(texts, positions[..k], embed)[texts[positions[k]] := embed(texts[positions[k]])];
  }

  /** The texts at the missing positions are just those not stored. */
  lemma MissingTexts(store: Store, texts: seq<string>)
    ensures var m := MissingFrom(store, texts, 0);
      && (forall k | 0 <= k < |m| :: m[k] < |texts|)
      && (forall t :: t in Embedded(texts, m) <==> t in texts && t !in store)
  {
    MissingPositions(store, texts, 0);
    var m := MissingFrom(store, texts, 0);
    var batch := Embedded(texts, m);
    forall t | t in texts && t !in store ensures t in batch {
      var p :| 0 <= p < |texts| && texts[p] == t;
      var k :| 0 <= k < |m| && m[k] == p;
      assert batch[k] == t;
    }
  }

  lemma FilledBy(store: Store, embed: string -> Vector, texts: seq<string>, missing: seq<nat>)
    requires missing == MissingFrom(store, texts, 0) && forall k | 0 <= k < |missing| :: missing[k] < |texts|
    ensures Filled(store, embed, texts) == store + Added(texts, missing, embed)
    ensures Held(Rows(store, texts) + Added(texts, missing, embed), store, embed, texts)
  {
    MissingTexts(store, texts);
  }

  ghost predicate Held(cached: Store, store: Store, embed: string -> Vector, texts: seq<string>) {
    forall t | t in texts :: t in cached && cached[t] == Looked(store, embed, t)
  }

  /** On a genuine store the cache is invisible: it answers the direct embedding of
      every document, duplicates included. */
  lemma CacheIsDirect(store: Store, embed: string -> Vector, texts: seq<string>)
    requires Genuine(store, embed)
    ensures Vectors(store, embed, texts) == seq(|texts|, i requires 0 <= i < |texts| => embed(texts[i]))
  {
  }

  /** A store that holds every text leaves nothing to embed, and conversely. */
  lemma NothingMissing(store: Store, texts: seq<string>)
    ensures MissingFrom(store, texts, 0) == [] <==> forall t | t in texts :: t in store
  {
    MissingPositions(store, texts, 0);
    if MissingFrom(store, texts, 0) == [] {
      forall t | t in texts ensures t in store { var p :| 0 <= p < |texts| && texts[p] == t; }
    } else {
      assert texts[MissingFrom(store, texts, 0)[0]] !in store;
    }
  }

  /** Two calls in a row: on a genuine store the first answers the direct embeddings
      and keeps the store genuine; the second asks the provider for nothing and answers
      the same. */
  method CallTwice(service: IndexService, texts: seq<string>, provider: seq<string> -> seq<Vector>, ghost embed: string -> Vector)
    returns (first: Result<seq<Vector>>, second: Result<seq<Vector>>, asked: Option<seq<string>>)
    requires Genuine(service.store, embed)
    requires Honest(provider, embed) && forall batch :: |provider(batch)| == |batch|
    modifies service
    ensures Genuine(service.store, embed) && asked == None && (first.Ok? <==> second.Ok?)
    ensures first.Ok? ==> first.value == second.value == seq(|texts|, i requires 0 <= i < |texts| => embed(texts[i]))
  {
    var firstAsked;
    CacheIsDirect(service.store, embed, texts);
    first, firstAsked := service.CachedEmbeddings(texts, provider, embed);
    NothingMissing(service.store, texts);
    CacheIsDirect(service.store, embed, texts);
    second, asked := service.CachedEmbeddings(texts, provider, embed);
  }
}
