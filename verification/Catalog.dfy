/** The catalog (src/relational/catalog.cpp): table schemas in the key-value store
    and a cache of them. */
module Catalog {
  import opened Bytes
  import opened Entries
  import opened Layers
  import opened Keys
  import opened Values
  import opened KeyValue

  /** "next_rowid". */
  const NEXT_ROWID: Bytes := [0x6E, 0x65, 0x78, 0x74, 0x5F, 0x72, 0x6F, 0x77, 0x69, 0x64]

  /** A table name as the tokenizer makes them: no colon, and below '~' in the key order. */
  predicate NameOk(name: Bytes) {
    PlainName(name) && Reachable(name)
  }

  predicate CacheOk(cache: map<Bytes, Schema>) {
    forall n :: n in cache ==> NameOk(n) && cache[n].name == n && SchemaFits(cache[n])
  }

  /** The cache equals the schemas stored in the engine: under the catalog prefix there is a key for
      each cached table, holding the encoding of its schema, and no other key. */
  ghost predicate Agree(m: map<Bytes, Bytes>, cache: map<Bytes, Schema>) {
    && CacheOk(cache)
    && (forall n: Bytes :: n in cache <==> CatalogKey(n) in m)
    && (forall n :: n in cache ==> m[CatalogKey(n)] == EncodeSchema(cache[n]))
  }

  lemma StoredAt(m: map<Bytes, Bytes>, cache: map<Bytes, Schema>, n: Bytes)
    requires Agree(m, cache)
    ensures CacheOk(cache) && (n in cache <==> CatalogKey(n) in m)
    ensures n in cache ==> m[CatalogKey(n)] == EncodeSchema(cache[n])
  {
    hide CacheOk;
    hide EncodeSchema;
  }

  lemma CatalogKeyInjective(a: Bytes, b: Bytes)
    ensures CatalogKey(a) == CatalogKey(b) <==> a == b
  {
    assert CatalogKey(a)[|CATALOG_PREFIX|..] == a && CatalogKey(b)[|CATALOG_PREFIX|..] == b;
  }

  /** Writing a schema under its key and into the cache keeps them equal. */
  lemma AgreeAdd(m: map<Bytes, Bytes>, cache: map<Bytes, Schema>, s: Schema)
    requires Agree(m, cache) && NameOk(s.name) && SchemaFits(s)
    ensures Agree(m[CatalogKey(s.name) := EncodeSchema(s)], cache[s.name := s])
  {
    hide EncodeSchema;
    hide SchemaFits;
    hide NameOk;
    hide CatalogKey;
    forall n ensures CatalogKey(n) == CatalogKey(s.name) <==> n == s.name { CatalogKeyInjective(n, s.name); }
  }

  lemma OnlyKey(k: Bytes, n: Bytes)
    ensures CATALOG_PREFIX <= k ==> (k[|CATALOG_PREFIX|..] == n <==> k == CatalogKey(n))
  {
    if CATALOG_PREFIX <= k {
      assert k == CATALOG_PREFIX + k[|CATALOG_PREFIX|..];
    }
  }

  lemma AgreeRemove(m: map<Bytes, Bytes>, cache: map<Bytes, Schema>, n: Bytes)
    requires Agree(m, cache)
    ensures Agree(m - {CatalogKey(n)}, cache - {n})
  {
    hide EncodeSchema;
    hide SchemaFits;
    hide NameOk;
    hide CatalogKey;
    forall x ensures CatalogKey(x) == CatalogKey(n) <==> x == n { CatalogKeyInjective(x, n); }
  }

  /** Changes outside the catalog prefix do not touch the schemas. */
  lemma AgreeElsewhere(m: map<Bytes, Bytes>, m': map<Bytes, Bytes>, cache: map<Bytes, Schema>)
    requires Agree(m, cache)
    requires forall k :: CATALOG_PREFIX <= k ==> (k in m <==> k in m') && (k in m ==> m[k] == m'[k])
    ensures Agree(m', cache)
  {
    hide EncodeSchema;
    hide CacheOk;
    hide CatalogKey;
    forall n: Bytes ensures CATALOG_PREFIX <= CatalogKey(n) { CatalogKeyPrefix(n); }
  }

  lemma CatalogKeyPrefix(n: Bytes)
    ensures CATALOG_PREFIX <= CatalogKey(n) && CatalogKey(n) != []
  {
  }

  /** The loop of `load_cache` over scanned entries. */
  function Loaded(es: seq<Entry>): map<Bytes, Schema> {
    if es == [] then map[]
    else
      var c, last := Loaded(es[..|es| - 1]), es[|es| - 1];
      match last.val
      case None => c
      case Some(v) =>
        match DecodeSchema(v)
        case None => c
        case Some(s) => if CATALOG_PREFIX <= last.key then c[s.name := s] else c
  }

  /** Every scanned catalog entry holds the schema of its name. */
  ghost predicate EntriesOf(es: seq<Entry>, cache: map<Bytes, Schema>) {
    forall i :: 0 <= i < |es| ==>
      && CATALOG_PREFIX <= es[i].key && es[i].key[|CATALOG_PREFIX|..] in cache
      && es[i].val == Some(EncodeSchema(cache[es[i].key[|CATALOG_PREFIX|..]]))
  }

  lemma {:induction false} LoadedIs(es: seq<Entry>, cache: map<Bytes, Schema>)
    requires CacheOk(cache) && EntriesOf(es, cache)
    ensures forall n :: n in Loaded(es) <==> n in cache && CatalogKey(n) in ToMap(es)
    ensures forall n :: n in Loaded(es) ==> Loaded(es)[n] == cache[n]
  {
    hide DecodeSchema;
    hide EncodeSchema;
    hide SchemaFits;
    hide NameOk;
    if es != [] {
      var t, last := es[..|es| - 1], es[|es| - 1];
      LoadedIs(t, cache);
      var n := last.key[|CATALOG_PREFIX|..];
      SchemaRoundTrip(cache[n]);
      forall x ensures CatalogKey(x) == last.key <==> x == n {
        OnlyKey(last.key, x);
      }
    }
  }

  /** A catalog freshly built over the same engine loads the same cache. */
  lemma ReloadSameCache(data: seq<Entry>, cache: map<Bytes, Schema>)
    requires StrictlySorted(data) && AllLive(data) && Agree(PlainMap(data), cache)
    ensures Loaded(Range(data, CATALOG_PREFIX, CATALOG_PREFIX + [TILDE])) == cache
  {
    hide *;
    var es := Range(data, CATALOG_PREFIX, CATALOG_PREFIX + [TILDE]);
    RangeOfLive(data, CATALOG_PREFIX, CATALOG_PREFIX + [TILDE]);
    ScannedEntries(data, cache, es);
    StoredAt(PlainMap(data), cache, []);
    LoadedIs(es, cache);
    forall n ensures n in cache ==> CatalogKey(n) in ToMap(es) {
      if n in cache {
        NameScanned(PlainMap(data), cache, n, es);
      }
    }
    assert Loaded(es).Keys == cache.Keys;
  }

  lemma NameScanned(m: map<Bytes, Bytes>, cache: map<Bytes, Schema>, n: Bytes, es: seq<Entry>)
    requires Agree(m, cache) && n in cache && PlainMap(es) == Within(m, CATALOG_PREFIX, CATALOG_PREFIX + [TILDE])
    ensures CatalogKey(n) in ToMap(es)
  {
    hide InRange;
    hide ToMap;
    hide EncodeSchema;
    StoredAt(m, cache, n);
    SuffixInScan(CATALOG_PREFIX, n);
    assert CatalogKey(n) in PlainMap(es);
  }

  lemma ScannedEntries(data: seq<Entry>, cache: map<Bytes, Schema>, es: seq<Entry>)
    requires Agree(PlainMap(data), cache) && StrictlySorted(es) && AllLive(es)
    requires PlainMap(es) == Within(PlainMap(data), CATALOG_PREFIX, CATALOG_PREFIX + [TILDE])
    ensures EntriesOf(es, cache)
  {
    hide PlainMap;
    hide InRange;
    hide EncodeSchema;
    hide StrictlySorted;
    forall i | 0 <= i < |es|
      ensures CATALOG_PREFIX <= es[i].key && es[i].key[|CATALOG_PREFIX|..] in cache
      ensures es[i].val == Some(EncodeSchema(cache[es[i].key[|CATALOG_PREFIX|..]]))
    {
      var k := es[i].key;
      EntryOfMap(es, i);
      ScanExact(CATALOG_PREFIX, k);
      StoredAt(PlainMap(data), cache, k[|CATALOG_PREFIX|..]);
      OnlyKey(k, k[|CATALOG_PREFIX|..]);
    }
  }

  /** A map without the keys of one table's scan. */
  function WithoutRows(m: map<Bytes, Bytes>, table: Bytes): map<Bytes, Bytes> {
    map k | k in m && !InScan(RowPrefix(table), k) :: m[k]
  }

  /** A map with some of a table's scanned rows, or its counter, missing. */
  ghost predicate Thinned(m: map<Bytes, Bytes>, p: map<Bytes, Bytes>, table: Bytes) {
    && (forall k :: k in p ==> k in m && p[k] == m[k])
    && (forall k :: k in m && k !in p ==> InScan(RowPrefix(table), k) || k == MetaKey(table, NEXT_ROWID))
  }

  /** Writes added states to the list, all of them such maps. */
  ghost predicate ThinnedSince(states: seq<map<Bytes, Bytes>>, n: nat, m: map<Bytes, Bytes>, table: Bytes) {
    n <= |states| && forall i :: n <= i < |states| ==> Thinned(m, states[i], table)
  }

  lemma ThinnedMore(states: seq<map<Bytes, Bytes>>, n: nat, m: map<Bytes, Bytes>, table: Bytes, p: map<Bytes, Bytes>)
    requires ThinnedSince(states, n, m, table) && Thinned(m, p, table)
    ensures ThinnedSince(states + [p], n, m, table)
  {
    hide Thinned;
  }

  lemma ThinnedLess(m: map<Bytes, Bytes>, p: map<Bytes, Bytes>, table: Bytes, k: Bytes)
    requires Thinned(m, p, table) && (InScan(RowPrefix(table), k) || k == MetaKey(table, NEXT_ROWID))
    ensures Thinned(m, p - {k}, table)
  {
    hide InScan;
    hide MetaKey;
  }

  function Known(cache: map<Bytes, Schema>, m: map<Bytes, Bytes>, name: Bytes): Option<Schema> {
    if name in cache then Some(cache[name])
    else if CatalogKey(name) in m then DecodeSchema(m[CatalogKey(name)])
    else None
  }

  lemma KnownWhenAgree(m: map<Bytes, Bytes>, cache: map<Bytes, Schema>, name: Bytes)
    ensures Agree(m, cache) ==> Known(cache, m, name) == Layers.Get(cache, name)
  {
    hide CacheOk;
    hide DecodeSchema;
    hide EncodeSchema;
  }

  class SchemaCatalog {
    const store: Store
    var cache: map<Bytes, Schema>

    ghost predicate Valid()
      reads this, store
    {
      store.Valid() && Agree(store.Map(), cache)
    }

    /** The constructor loads the cache. */
    constructor (kv: Store, ghost expected: map<Bytes, Schema>)
      requires kv.Valid() && Agree(kv.Map(), expected)
      ensures Valid() && store == kv && cache == expected
    {
      store := kv;
      cache := map[];
      new;
      hide *;
      LoadCache(expected);
    }

    method LoadCache(ghost expected: map<Bytes, Schema>)
      requires store.Valid() && Agree(store.Map(), expected) && cache == map[]
      modifies this
      ensures Valid() && cache == expected
    {
      hide Agree;
      hide DecodeSchema;
      hide StrictlySorted;
      var es := store.Scan(CATALOG_PREFIX, CATALOG_PREFIX + [TILDE]);
      for i := 0 to |es|
        invariant cache == Loaded(es[..i])
      {
        assert es[..i + 1][..i] == es[..i];
        if CATALOG_PREFIX <= es[i].key {
          var s := DeserializeSchema(es[i].val.value);
          if s.Some? {
            cache := cache[s.value.name := s.value];
          }
        }
      }
      assert es[..|es|] == es;
      ReloadSameCache(store.data, expected);
    }

    /** `get_schema`: the cache, or else the engine; while the two agree, the engine never adds anything. */
    method GetSchema(name: Bytes) returns (r: Option<Schema>)
      modifies this
      ensures r == Known(old(cache), store.Map(), name)
      ensures cache == if r.Some? then old(cache)[name := r.value] else old(cache)
      ensures old(Valid()) ==> Valid() && cache == old(cache) && r == Layers.Get(cache, name)
    {
      hide Agree;
      hide DecodeSchema;
      hide PlainMap;
      KnownWhenAgree(store.Map(), cache, name);
      if name in cache {
        return Some(cache[name]);
      }
      CatalogKeyPrefix(name);
      var v := store.Get(CatalogKey(name));
      if v.None? {
        return None;
      }
      r := DeserializeSchema(v.value);
      if r.Some? {
        cache := cache[name := r.value];
      }
    }

    /** `create_table`: any name is accepted; a name as the tokenizer makes them keeps cache and engine equal. */
    method CreateTable(schema: Schema) returns (s: Status)
      requires Valid() && SchemaFits(schema)
      modifies this, store
      ensures store.Valid() && (NameOk(schema.name) ==> Valid())
      ensures schema.name in old(cache) ==>
        s == InvalidArgument && cache == old(cache) && store.Map() == old(store.Map()) &&
          store.states == old(store.states)
      ensures schema.name !in old(cache) ==>
        && s == OK && cache == old(cache)[schema.name := schema]
        && store.states ==
          old(store.states) + [old(store.Map())[CatalogKey(schema.name) := EncodeSchema(schema)], store.Map()]
        && store.Map() ==
          old(store.Map())[CatalogKey(schema.name) := EncodeSchema(schema)][MetaKey(schema.name, NEXT_ROWID) := [0x31]]
    {
      hide Agree;
      hide EncodeSchema;
      hide PlainMap;
      if schema.name in cache {
        return InvalidArgument;
      }
      if NameOk(schema.name) {
        AgreeAdd(store.Map(), cache, schema);
      }
      var value := SerializeSchema(schema);
      s := store.Put(CatalogKey(schema.name), value);
      cache := cache[schema.name := schema];
      if NameOk(schema.name) {
        MetaElsewhere(store.Map(), MetaKey(schema.name, NEXT_ROWID), [0x31], cache, schema.name);
      }
      s := store.Put(MetaKey(schema.name, NEXT_ROWID), [0x31]);
    }

    /** `drop_table`: the rows in the table's scan, its counter and its schema go; nothing else does. */
    method DropTable(name: Bytes) returns (s: Status)
      requires Valid()
      modifies this, store
      ensures Valid()
      ensures name !in old(cache) ==>
        s == NotFound && cache == old(cache) && store.Map() == old(store.Map()) && store.states == old(store.states)
      ensures name in old(cache) ==>
        && s == OK && cache == old(cache) - {name} && |store.states| > |old(store.states)| &&
          old(store.states) <= store.states
        && ThinnedSince(store.states[..|store.states| - 1], |old(store.states)|, old(store.Map()), name)
        && store.states[|store.states| - 1] == store.Map()
        && store.Map() == WithoutRows(old(store.Map()), name) - {MetaKey(name, NEXT_ROWID)} - {CatalogKey(name)}
    {
      hide Agree;
      hide PlainMap;
      hide InScan;
      hide StrictlySorted;
      if name !in cache {
        return NotFound;
      }
      RemoveRows(name);
      ghost var m := store.Map();
      ghost var n := |old(store.states)|;
      RowsThinned(old(store.Map()), name);
      var _ := store.Remove(MetaKey(name, NEXT_ROWID));
      ThinnedMore(store.states[..|store.states| - 1], n, old(store.Map()), name, store.Map());
      ghost var before := store.states;
      assert before == before[..|before| - 1] + [store.Map()];
      var _ := store.Remove(CatalogKey(name));
      assert store.states[..|store.states| - 1] == before;
      RowsElsewhere(old(store.Map()), name, cache);
      MetaRemoved(m, name, cache);
      AgreeRemove(m - {MetaKey(name, NEXT_ROWID)}, cache, name);
      cache := cache - {name};
      s := OK;
    }

    method RemoveRows(name: Bytes)
      requires store.Valid()
      modifies store
      ensures store.Valid() && store.Map() == WithoutRows(old(store.Map()), name)
      ensures old(store.states) <= store.states &&
        ThinnedSince(store.states, |old(store.states)|, old(store.Map()), name)
    {
      hide PlainMap;
      hide Less;
      hide InScan;
      hide Thinned;
      hide RowPrefix;
      hide ThinnedSince;
      var rows := store.Scan(RowPrefix(name), RowPrefixEnd(name));
      ghost var n := |old(store.states)|;
      NothingThinned(store.states, old(store.Map()), name);
      for i := 0 to |rows|
        invariant store.Valid() && old(store.states) <= store.states
        invariant Thinned(old(store.Map()), store.Map(), name) && ThinnedSince(store.states, n, old(store.Map()), name)
        invariant store.Map() == old(store.Map()) - (set j | 0 <= j < i :: rows[j].key)
      {
        EntryOfMap(rows, i);
        assert (set j | 0 <= j < i + 1 :: rows[j].key) == (set j | 0 <= j < i :: rows[j].key) + {rows[i].key};
        RowKeyNotEmpty(old(store.Map()), rows[i].key, name);
        ScannedInScan(old(store.Map()), rows[i].key, name);
        ThinnedLess(old(store.Map()), store.Map(), name, rows[i].key);
        ThinnedMore(store.states, n, old(store.Map()), name, store.Map() - {rows[i].key});
        var _ := store.Remove(rows[i].key);
      }
      RemovedExactly(old(store.Map()), rows, name);
    }
  }

  lemma NothingThinned(states: seq<map<Bytes, Bytes>>, m: map<Bytes, Bytes>, table: Bytes)
    ensures ThinnedSince(states, |states|, m, table) && Thinned(m, m, table)
  {
  }

  lemma RowsThinned(m: map<Bytes, Bytes>, table: Bytes)
    ensures Thinned(m, WithoutRows(m, table), table) &&
      Thinned(m, WithoutRows(m, table) - {MetaKey(table, NEXT_ROWID)}, table)
  {
    hide InScan;
    hide MetaKey;
    hide RowPrefix;
  }

  lemma ScannedInScan(m: map<Bytes, Bytes>, k: Bytes, name: Bytes)
    requires k in Within(m, RowPrefix(name), RowPrefixEnd(name))
    ensures InScan(RowPrefix(name), k)
  {
    hide InRange;
  }

  lemma RowKeyNotEmpty(m: map<Bytes, Bytes>, k: Bytes, name: Bytes)
    requires k in Within(m, RowPrefix(name), RowPrefixEnd(name))
    ensures k != []
  {
    hide InRange;
    ScanExact(RowPrefix(name), k);
  }

  lemma RemovedExactly(m: map<Bytes, Bytes>, rows: seq<Entry>, name: Bytes)
    requires StrictlySorted(rows) && AllLive(rows)
    requires PlainMap(rows) == Within(m, RowPrefix(name), RowPrefixEnd(name))
    ensures m - (set j | 0 <= j < |rows| :: rows[j].key) == WithoutRows(m, name)
  {
    hide PlainMap;
    hide InRange;
    hide StrictlySorted;
    var ks := set j | 0 <= j < |rows| :: rows[j].key;
    forall k | k in m ensures k in ks <==> InScan(RowPrefix(name), k) {
      if InScan(RowPrefix(name), k) {
        var i := EntryOfKey(rows, k);
      }
      if k in ks {
        var j :| 0 <= j < |rows| && rows[j].key == k;
        EntryOfMap(rows, j);
      }
    }
  }

  lemma MetaElsewhere(m: map<Bytes, Bytes>, k: Bytes, v: Bytes, cache: map<Bytes, Schema>, name: Bytes)
    requires Agree(m, cache) && k == MetaKey(name, NEXT_ROWID)
    ensures Agree(m[k := v], cache) && k != []
  {
    hide Agree;
    assert k[..|META_PREFIX|] == META_PREFIX;
    KindsDisjoint(k);
    AgreeElsewhere(m, m[k := v], cache);
  }

  lemma MetaRemoved(m: map<Bytes, Bytes>, name: Bytes, cache: map<Bytes, Schema>)
    requires Agree(m, cache)
    ensures Agree(m - {MetaKey(name, NEXT_ROWID)}, cache)
  {
    hide Agree;
    var k := MetaKey(name, NEXT_ROWID);
    assert k[..|META_PREFIX|] == META_PREFIX;
    KindsDisjoint(k);
    AgreeElsewhere(m, m - {k}, cache);
  }

  lemma RowsElsewhere(m: map<Bytes, Bytes>, name: Bytes, cache: map<Bytes, Schema>)
    requires Agree(m, cache)
    ensures Agree(WithoutRows(m, name), cache)
  {
    hide Agree;
    hide InScan;
    forall k | CATALOG_PREFIX <= k ensures !InScan(RowPrefix(name), k) {
      ScanExact(RowPrefix(name), k);
      if RowPrefix(name) <= k {
        RowKeyTail(name, k);
      }
      KindsDisjoint(k);
    }
    AgreeElsewhere(m, WithoutRows(m, name), cache);
  }

  /** After DROP TABLE no row of the table with a reachable key text is left, and rows of every
      other table are as before. */
  lemma DropIsExact(m: map<Bytes, Bytes>, name: Bytes, other: Bytes, pk: Bytes)
    requires NameOk(name) && NameOk(other)
    ensures RowKey(name, pk) in WithoutRows(m, name) <==> RowKey(name, pk) in m && !Reachable(pk)
    ensures other != name ==> Layers.Get(WithoutRows(m, name), RowKey(other, pk)) == Layers.Get(m, RowKey(other, pk))
  {
    hide InScan;
    RowInScan(name, pk);
    var k := RowKey(other, pk);
    ScanExact(RowPrefix(name), k);
    if other != name && RowPrefix(name) <= k {
      assert RowPrefix(other) <= k;
      ScansDisjoint(name, other, k);
    }
  }
}
