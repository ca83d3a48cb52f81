/** A table as a map from key to row, and what rewriting and removing its rows keeps
    (src/sql/executor.cpp). */
module Relation {
  import opened Bytes
  import opened Codec
  import opened Entries
  import opened Layers
  import opened Keys
  import opened Values
  import opened KeyValue
  import opened Catalog
  import opened Ast
  import opened Eval

  // ---- A table as a map from key to row. ----

  /** The row a stored value decodes to. */
  function RowOf(data: Bytes): seq<Value> {
    match DecodeRow(data)
    case None => []
    case Some(d) => d.values
  }

  /** A stored value is a row of the schema. */
  predicate IsRow(data: Bytes, schema: Schema) {
    DecodeRow(data).Some? && AllCanonical(RowOf(data)) && |RowOf(data)| == |schema.columns| < U32_SIZE
  }

  /** The database is consistent: the cache equals the stored schemas, and every key in the scan of
      a possible table name belongs to a table of the catalog and holds a row of its schema. */
  ghost predicate DbOk(m: map<Bytes, Bytes>, cache: map<Bytes, Schema>) {
    && Agree(m, cache)
    && forall n, k :: NameOk(n) && k in m && InScan(RowPrefix(n), k) ==> n in cache && IsRow(m[k], cache[n])
  }

  lemma RowOfEncoded(vs: seq<Value>, schema: Schema)
    requires AllCanonical(vs) && |vs| == |schema.columns| < U32_SIZE
    ensures RowOf(EncodeRow(vs)) == vs && IsRow(EncodeRow(vs), schema)
  {
    hide DecodeRow;
    hide EncodeRow;
    hide AllCanonical;
    RowRoundTrip(vs);
  }

  /** The map with every scanned row of a table rewritten by f; None leaves a row alone. */
  function Rewritten(m: map<Bytes, Bytes>, table: Bytes, f: Bytes -> Option<Bytes>): map<Bytes, Bytes> {
    map k | k in m :: if InScan(RowPrefix(table), k) && f(m[k]).Some? then f(m[k]).value else m[k]
  }

  /** The map without the scanned rows of a table that p selects. */
  function Removed(m: map<Bytes, Bytes>, table: Bytes, p: Bytes -> bool): map<Bytes, Bytes> {
    map k | k in m && !(InScan(RowPrefix(table), k) && p(m[k])) :: m[k]
  }

  ghost predicate ScanOf(rows: seq<Entry>, m: map<Bytes, Bytes>, table: Bytes) {
    StrictlySorted(rows) && AllLive(rows) && PlainMap(rows) == Within(m, RowPrefix(table), RowPrefixEnd(table))
  }

  lemma ScannedRow(rows: seq<Entry>, m: map<Bytes, Bytes>, table: Bytes, i: nat)
    requires ScanOf(rows, m, table) && i < |rows|
    ensures var k := rows[i].key; k != [] && k in m && InScan(RowPrefix(table), k) && rows[i].val == Some(m[k])
  {
    hide PlainMap;
    hide InRange;
    hide StrictlySorted;
    EntryOfMap(rows, i);
    ScanExact(RowPrefix(table), rows[i].key);
  }

  lemma RowScanned(rows: seq<Entry>, m: map<Bytes, Bytes>, table: Bytes, k: Bytes) returns (i: nat)
    requires ScanOf(rows, m, table) && k in m && InScan(RowPrefix(table), k)
    ensures i < |rows| && rows[i].key == k
  {
    hide PlainMap;
    hide InRange;
    hide StrictlySorted;
    i := EntryOfKey(rows, k);
  }

  lemma ScannedOnce(rows: seq<Entry>, m: map<Bytes, Bytes>, table: Bytes, i: nat, j: nat)
    requires ScanOf(rows, m, table) && i < |rows| && j < |rows| && rows[i].key == rows[j].key
    ensures i == j
  {
    SortedIsDistinct(rows);
  }

  /** The map after the first n scanned rows were rewritten. */
  ghost predicate RewrittenUpTo(m: map<Bytes, Bytes>, m': map<Bytes, Bytes>, rows: seq<Entry>,
      f: Bytes -> Option<Bytes>, n: nat)
    requires n <= |rows| && AllLive(rows)
  {
    && m'.Keys == m.Keys
    && (forall i :: 0 <= i < n && rows[i].key in m ==>
        m'[rows[i].key] == if f(rows[i].val.value).Some? then f(rows[i].val.value).value else rows[i].val.value)
    && (forall k :: k in m && (forall i :: 0 <= i < n ==> rows[i].key != k) ==> m'[k] == m[k])
  }

  lemma RewriteStart(m: map<Bytes, Bytes>, rows: seq<Entry>, f: Bytes -> Option<Bytes>)
    requires AllLive(rows)
    ensures RewrittenUpTo(m, m, rows, f, 0)
  {
  }

  lemma RewriteSkip(m: map<Bytes, Bytes>, m': map<Bytes, Bytes>, rows: seq<Entry>, table: Bytes,
      f: Bytes -> Option<Bytes>, n: nat)
    requires ScanOf(rows, m, table) && n < |rows| && RewrittenUpTo(m, m', rows, f, n) && f(rows[n].val.value) == None
    ensures RewrittenUpTo(m, m', rows, f, n + 1)
  {
    hide PlainMap;
    hide StrictlySorted;
    hide ScanOf;
    ScannedRow(rows, m, table, n);
    forall i | 0 <= i < n ensures rows[i].key != rows[n].key {
      if rows[i].key == rows[n].key {
        ScannedOnce(rows, m, table, i, n);
      }
    }
  }

  lemma RewriteOne(m: map<Bytes, Bytes>, m': map<Bytes, Bytes>, rows: seq<Entry>, table: Bytes,
      f: Bytes -> Option<Bytes>, n: nat)
    requires ScanOf(rows, m, table) && n < |rows| && RewrittenUpTo(m, m', rows, f, n) && f(rows[n].val.value).Some?
    ensures RewrittenUpTo(m, m'[rows[n].key := f(rows[n].val.value).value], rows, f, n + 1)
  {
    hide PlainMap;
    hide StrictlySorted;
    hide ScanOf;
    ScannedRow(rows, m, table, n);
    forall i | 0 <= i < n ensures rows[i].key != rows[n].key {
      if rows[i].key == rows[n].key {
        ScannedOnce(rows, m, table, i, n);
      }
    }
  }

  /** Rewriting every scanned row, one after the other, rewrites exactly the table. */
  lemma RewriteDone(m: map<Bytes, Bytes>, m': map<Bytes, Bytes>, rows: seq<Entry>, table: Bytes,
      f: Bytes -> Option<Bytes>)
    requires ScanOf(rows, m, table) && RewrittenUpTo(m, m', rows, f, |rows|)
    ensures m' == Rewritten(m, table, f)
  {
    hide InScan;
    hide ScanOf;
    forall k | k in m ensures m'[k] == Rewritten(m, table, f)[k] {
      if InScan(RowPrefix(table), k) {
        var i := RowScanned(rows, m, table, k);
        ScannedRow(rows, m, table, i);
      } else {
        forall i | 0 <= i < |rows| ensures rows[i].key != k {
          ScannedRow(rows, m, table, i);
        }
      }
    }
  }

  /** Removing the selected keys of a scan removes exactly the selected rows. */
  lemma RemoveDone(m: map<Bytes, Bytes>, rows: seq<Entry>, table: Bytes, p: Bytes -> bool, keys: set<Bytes>)
    requires ScanOf(rows, m, table) && AllLive(rows)
    requires keys == set i | 0 <= i < |rows| && p(rows[i].val.value) :: rows[i].key
    ensures m - keys == Removed(m, table, p)
  {
    hide InScan;
    hide ScanOf;
    ScanIsLive(rows, m, table);
    forall k | k in m ensures k in keys <==> InScan(RowPrefix(table), k) && p(m[k]) {
      if InScan(RowPrefix(table), k) {
        var i := RowScanned(rows, m, table, k);
        ScannedRow(rows, m, table, i);
      }
      if k in keys {
        var j :| 0 <= j < |rows| && p(rows[j].val.value) && rows[j].key == k;
        ScannedRow(rows, m, table, j);
      }
    }
  }

  // ---- Table operations leave every other table alone. ----

  lemma OtherTable(a: Bytes, b: Bytes, k: Bytes)
    requires NameOk(a) && NameOk(b) && a != b && InScan(RowPrefix(b), k)
    ensures !InScan(RowPrefix(a), k) && !(RowPrefix(a) <= k)
  {
    hide InScan;
    ScanExact(RowPrefix(a), k);
    ScanExact(RowPrefix(b), k);
    if RowPrefix(a) <= k {
      ScansDisjoint(a, b, k);
    }
  }

  lemma RewriteKeepsOthers(m: map<Bytes, Bytes>, a: Bytes, b: Bytes, f: Bytes -> Option<Bytes>, k: Bytes)
    requires NameOk(a) && NameOk(b) && a != b && InScan(RowPrefix(b), k)
    ensures Layers.Get(Rewritten(m, a, f), k) == Layers.Get(m, k)
  {
    hide InScan;
    hide NameOk;
    OtherTable(a, b, k);
  }

  lemma RemoveKeepsOthers(m: map<Bytes, Bytes>, a: Bytes, b: Bytes, p: Bytes -> bool, k: Bytes)
    requires NameOk(a) && NameOk(b) && a != b && InScan(RowPrefix(b), k)
    ensures Layers.Get(Removed(m, a, p), k) == Layers.Get(m, k)
  {
    hide InScan;
    hide NameOk;
    OtherTable(a, b, k);
  }

  // ---- DELETE. ----

  function Selects(num: Numeric, w: Where, schema: Schema, data: Bytes): bool
    requires WhereOk(w)
  {
    Satisfies(num, w, schema.columns, RowOf(data))
  }

  /** The WHERE as a test on stored rows. */
  function Selector(num: Numeric, w: Where, schema: Schema): Bytes -> bool
    requires WhereOk(w)
  {
    d => Selects(num, w, schema, d)
  }

  /** After DELETE, the same WHERE selects no row of the table. */
  lemma DeleteLeavesNone(num: Numeric, w: Where, schema: Schema, m: map<Bytes, Bytes>, k: Bytes)
    requires WhereOk(w)
    ensures var m' := Removed(m, schema.name, Selector(num, w, schema));
      k in m' && InScan(RowPrefix(schema.name), k) ==> !Selects(num, w, schema, m'[k])
  {
    hide Satisfies;
    hide InScan;
  }

  method ReadRow(data: Bytes, ghost schema: Schema) returns (row: seq<Value>)
    requires IsRow(data, schema)
    ensures row == RowOf(data) && |row| == |schema.columns| && AllCanonical(row)
  {
    hide DecodeRow;
    var d := Deserialize(data);
    row := d.value.values;
  }

  // ---- What the statements keep. ----

  lemma NotCatalog(table: Bytes, k: Bytes)
    requires CATALOG_PREFIX <= k
    ensures !InScan(RowPrefix(table), k) && !(RowPrefix(table) <= k)
  {
    hide InScan;
    ScanExact(RowPrefix(table), k);
    if RowPrefix(table) <= k {
      RowKeyTail(table, k);
    }
    KindsDisjoint(k);
  }

  lemma RemovedOk(m: map<Bytes, Bytes>, cache: map<Bytes, Schema>, table: Bytes, p: Bytes -> bool)
    requires DbOk(m, cache)
    ensures DbOk(Removed(m, table, p), cache)
  {
    hide Agree;
    hide InScan;
    hide IsRow;
    hide NameOk;
    forall k | CATALOG_PREFIX <= k ensures !InScan(RowPrefix(table), k) { NotCatalog(table, k); }
    AgreeElsewhere(m, Removed(m, table, p), cache);
  }

  lemma RewrittenOk(m: map<Bytes, Bytes>, cache: map<Bytes, Schema>, table: Bytes, f: Bytes -> Option<Bytes>)
    requires DbOk(m, cache) && table in cache
    requires forall d :: IsRow(d, cache[table]) && f(d).Some? ==> IsRow(f(d).value, cache[table])
    ensures DbOk(Rewritten(m, table, f), cache)
  {
    hide Agree;
    hide InScan;
    hide IsRow;
    hide NameOk;
    var m' := Rewritten(m, table, f);
    forall k | CATALOG_PREFIX <= k ensures !InScan(RowPrefix(table), k) { NotCatalog(table, k); }
    AgreeElsewhere(m, m', cache);
    NameOfTable(m, cache, table);
    forall n, k | NameOk(n) && k in m' && InScan(RowPrefix(n), k) ensures n in cache && IsRow(m'[k], cache[n]) {
      if n != table {
        OtherTable(table, n, k);
      }
    }
  }

  lemma NameOfTable(m: map<Bytes, Bytes>, cache: map<Bytes, Schema>, table: Bytes)
    requires Agree(m, cache) && table in cache
    ensures NameOk(table) && cache[table].name == table && SchemaFits(cache[table])
  {
    StoredAt(m, cache, table);
  }

  lemma RowAddedOk(m: map<Bytes, Bytes>, cache: map<Bytes, Schema>, table: Bytes, pk: Bytes, data: Bytes)
    requires DbOk(m, cache) && table in cache && IsRow(data, cache[table])
    ensures DbOk(m[RowKey(table, pk) := data], cache)
  {
    hide Agree;
    hide InScan;
    hide IsRow;
    hide NameOk;
    hide RowPrefix;
    var key := RowKey(table, pk);
    var m' := m[key := data];
    RowNotCatalog(table, pk);
    AgreeElsewhere(m, m', cache);
    NameOfTable(m, cache, table);
    forall n, k | NameOk(n) && k in m' && InScan(RowPrefix(n), k) ensures n in cache && IsRow(m'[k], cache[n]) {
      if n != table && k == key {
        OtherTable(table, n, k);
      }
    }
  }

  lemma RowNotCatalog(table: Bytes, pk: Bytes)
    ensures !(CATALOG_PREFIX <= RowKey(table, pk)) && RowPrefix(table) <= RowKey(table, pk)
  {
    hide InScan;
    if CATALOG_PREFIX <= RowKey(table, pk) {
      NotCatalog(table, RowKey(table, pk));
    }
  }

  lemma NotMeta(table: Bytes, name: Bytes, field: Bytes)
    ensures !InScan(RowPrefix(table), MetaKey(name, field)) && !(CATALOG_PREFIX <= MetaKey(name, field))
    ensures !(RowPrefix(table) <= MetaKey(name, field)) && MetaKey(name, field) != []
  {
    hide InScan;
    var k := MetaKey(name, field);
    assert k[..|META_PREFIX|] == META_PREFIX;
    KindsDisjoint(k);
    ScanExact(RowPrefix(table), k);
    if RowPrefix(table) <= k {
      RowKeyTail(table, k);
    }
  }

  lemma MetaOk(m: map<Bytes, Bytes>, cache: map<Bytes, Schema>, name: Bytes, field: Bytes, v: Bytes)
    requires DbOk(m, cache)
    ensures DbOk(m[MetaKey(name, field) := v], cache)
  {
    hide Agree;
    hide InScan;
    hide IsRow;
    hide NameOk;
    hide MetaKey;
    forall n ensures !InScan(RowPrefix(n), MetaKey(name, field)) &&
      !(CATALOG_PREFIX <= MetaKey(name, field)) { NotMeta(n, name, field); }
    NotMeta([], name, field);
    AgreeElsewhere(m, m[MetaKey(name, field) := v], cache);
  }

  /** After DELETE a row of the table is left if and only if the WHERE does not select it, and then it is as before. */
  lemma DeleteExact(num: Numeric, w: Where, m: map<Bytes, Bytes>, schema: Schema, k: Bytes)
    requires WhereOk(w) && k in m && InScan(RowPrefix(schema.name), k)
    ensures var m' := Removed(m, schema.name, Selector(num, w, schema));
      && (k in m' <==> !Satisfies(num, w, schema.columns, RowOf(m[k])))
      && (k in m' ==> m'[k] == m[k])
  {
    hide Satisfies;
    hide InScan;
    hide RowOf;
    hide RowPrefix;
    SelectorAt(num, w, schema, m[k]);
  }

  function KeySet(ks: seq<Bytes>): set<Bytes> {
    set k | k in ks
  }

  lemma RowIsOk(m: map<Bytes, Bytes>, cache: map<Bytes, Schema>, table: Bytes, k: Bytes)
    requires DbOk(m, cache) && table in cache && k in m && InScan(RowPrefix(table), k)
    ensures IsRow(m[k], cache[table])
  {
    hide IsRow;
    hide InScan;
    hide NameOk;
    NameOfTable(m, cache, table);
  }

  lemma SelectorAt(num: Numeric, w: Where, schema: Schema, d: Bytes)
    requires WhereOk(w)
    ensures Selector(num, w, schema)(d) == Satisfies(num, w, schema.columns, RowOf(d))
  {
    hide Satisfies;
  }

  /** The keys of the first n rows that p selects. */
  function SelectedKeys(rows: seq<Entry>, p: Bytes -> bool, n: nat): set<Bytes>
    requires n <= |rows| && AllLive(rows)
  {
    if n == 0 then {} else SelectedKeys(rows, p, n - 1) + if p(rows[n - 1].val.value) then {rows[n - 1].key} else {}
  }

  lemma {:induction false} SelectedKeysAre(rows: seq<Entry>, p: Bytes -> bool, n: nat)
    requires n <= |rows| && AllLive(rows)
    ensures SelectedKeys(rows, p, n) == set i | 0 <= i < n && p(rows[i].val.value) :: rows[i].key
  {
    if n > 0 {
      SelectedKeysAre(rows, p, n - 1);
    }
  }

  lemma ScanIsLive(rows: seq<Entry>, m: map<Bytes, Bytes>, table: Bytes)
    requires ScanOf(rows, m, table)
    ensures AllLive(rows) && StrictlySorted(rows)
  {
  }

  lemma LiveAt(rows: seq<Entry>, i: nat)
    requires AllLive(rows) && i < |rows|
    ensures rows[i].val.Some?
  {
  }

  /** Some scanned row is selected. */
  ghost predicate AnySelected(m: map<Bytes, Bytes>, table: Bytes, p: Bytes -> bool) {
    exists k :: k in m && InScan(RowPrefix(table), k) && p(m[k])
  }

  lemma AnySelectedIs(m: map<Bytes, Bytes>, rows: seq<Entry>, table: Bytes, p: Bytes -> bool)
    requires ScanOf(rows, m, table) && AllLive(rows)
    ensures AnySelected(m, table, p) <==> exists i :: 0 <= i < |rows| && p(rows[i].val.value)
  {
    hide ScanOf;
    hide InScan;
    if AnySelected(m, table, p) {
      var k :| k in m && InScan(RowPrefix(table), k) && p(m[k]);
      var i := RowScanned(rows, m, table, k);
      ScannedRow(rows, m, table, i);
      assert p(rows[i].val.value);
    }
    if i :| 0 <= i < |rows| && p(rows[i].val.value) {
      ScannedRow(rows, m, table, i);
      assert p(m[rows[i].key]);
    }
  }

  lemma TableFits(m: map<Bytes, Bytes>, cache: map<Bytes, Schema>, table: Bytes)
    requires DbOk(m, cache) && table in cache
    ensures cache[table].name == table && |cache[table].columns| < 0x1_0000_0000
  {
    hide NameOk;
    NameOfTable(m, cache, table);
  }

  lemma RowKeyFilled(table: Bytes, pk: Bytes)
    ensures RowKey(table, pk) != []
  {
  }

  lemma CatalogNotRow(table: Bytes, name: Bytes)
    ensures !InScan(RowPrefix(table), CatalogKey(name))
  {
    hide InScan;
    CatalogKeyPrefix(name);
    NotCatalog(table, CatalogKey(name));
  }

  /** A new table starts empty: no stored key lies in its scan yet. */
  lemma CreatedOk(m: map<Bytes, Bytes>, cache: map<Bytes, Schema>, s: Schema)
    requires DbOk(m, cache) && s.name !in cache && NameOk(s.name)
    requires Agree(m[CatalogKey(s.name) := EncodeSchema(s)][MetaKey(s.name, NEXT_ROWID) := [0x31]], cache[s.name := s])
    ensures DbOk(m[CatalogKey(s.name) := EncodeSchema(s)][MetaKey(s.name, NEXT_ROWID) := [0x31]], cache[s.name := s])
  {
    hide Agree;
    hide InScan;
    hide IsRow;
    hide NameOk;
    hide EncodeSchema;
    hide CatalogKey;
    hide MetaKey;
    hide RowPrefix;
    forall n ensures !InScan(RowPrefix(n), CatalogKey(s.name)) && !InScan(RowPrefix(n), MetaKey(s.name, NEXT_ROWID)) {
      CatalogNotRow(n, s.name);
      NotMeta(n, s.name, NEXT_ROWID);
    }
  }

  lemma DroppedOk(m: map<Bytes, Bytes>, cache: map<Bytes, Schema>, table: Bytes)
    requires DbOk(m, cache)
    requires Agree(WithoutRows(m, table) - {MetaKey(table, NEXT_ROWID)} - {CatalogKey(table)}, cache - {table})
    ensures DbOk(WithoutRows(m, table) - {MetaKey(table, NEXT_ROWID)} - {CatalogKey(table)}, cache - {table})
  {
    hide Agree;
    hide InScan;
    hide IsRow;
    hide NameOk;
    hide CatalogKey;
    hide MetaKey;
    hide RowPrefix;
  }

  // ---- Between the writes of a statement. ----

  /** A catalog loaded from this map would make a consistent database. */
  ghost predicate Consistent(m: map<Bytes, Bytes>) {
    exists cache :: DbOk(m, cache)
  }

  /** The states from the n-th on are consistent. */
  ghost predicate ConsistentSince(states: seq<map<Bytes, Bytes>>, n: nat) {
    n <= |states| && forall i :: n <= i < |states| ==> Consistent(states[i])
  }

  lemma NoStates(states: seq<map<Bytes, Bytes>>)
    ensures ConsistentSince(states, |states|)
  {
  }

  lemma OneMoreState(states: seq<map<Bytes, Bytes>>, n: nat, m: map<Bytes, Bytes>, cache: map<Bytes, Schema>)
    requires ConsistentSince(states, n) && DbOk(m, cache)
    ensures ConsistentSince(states + [m], n)
  {
    hide DbOk;
  }

  /** Removing any keys but schemas keeps the database consistent. */
  lemma MinusOk(m: map<Bytes, Bytes>, cache: map<Bytes, Schema>, ks: set<Bytes>)
    requires DbOk(m, cache) && forall k :: k in ks ==> !(CATALOG_PREFIX <= k)
    ensures DbOk(m - ks, cache)
  {
    hide Agree;
    hide InScan;
    hide IsRow;
    hide NameOk;
    AgreeElsewhere(m, m - ks, cache);
  }

  lemma ThinnedOk(m: map<Bytes, Bytes>, cache: map<Bytes, Schema>, table: Bytes, p: map<Bytes, Bytes>)
    requires DbOk(m, cache) && Thinned(m, p, table)
    ensures DbOk(p, cache)
  {
    hide Agree;
    hide InScan;
    hide IsRow;
    hide NameOk;
    hide MetaKey;
    hide RowPrefix;
    forall k | CATALOG_PREFIX <= k ensures !InScan(RowPrefix(table), k) && k != MetaKey(table, NEXT_ROWID) {
      NotCatalog(table, k);
      NotMeta(table, table, NEXT_ROWID);
    }
    AgreeElsewhere(m, p, cache);
  }

  lemma ThinnedStatesOk(states: seq<map<Bytes, Bytes>>, n: nat, m: map<Bytes, Bytes>, cache: map<Bytes, Schema>,
      table: Bytes)
    requires DbOk(m, cache) && ThinnedSince(states, n, m, table)
    ensures ConsistentSince(states, n)
  {
    hide DbOk;
    hide Thinned;
    forall i | n <= i < |states| ensures Consistent(states[i]) { ThinnedOk(m, cache, table, states[i]); }
  }

  /** Half of CREATE TABLE: the schema is stored, the counter not yet. */
  lemma HalfCreatedOk(m: map<Bytes, Bytes>, cache: map<Bytes, Schema>, s: Schema)
    requires DbOk(m, cache) && s.name !in cache && NameOk(s.name) && SchemaFits(s)
    ensures DbOk(m[CatalogKey(s.name) := EncodeSchema(s)], cache[s.name := s])
  {
    hide Agree;
    hide InScan;
    hide IsRow;
    hide NameOk;
    hide EncodeSchema;
    hide CatalogKey;
    hide SchemaFits;
    hide RowPrefix;
    AgreeAdd(m, cache, s);
    forall n ensures !InScan(RowPrefix(n), CatalogKey(s.name)) { CatalogNotRow(n, s.name); }
  }

  lemma RowRewrittenOk(m: map<Bytes, Bytes>, cache: map<Bytes, Schema>, table: Bytes, k: Bytes, data: Bytes)
    requires DbOk(m, cache) && table in cache && InScan(RowPrefix(table), k) && IsRow(data, cache[table])
    ensures DbOk(m[k := data], cache)
  {
    hide DbOk;
    hide InScan;
    hide IsRow;
    ScanExact(RowPrefix(table), k);
    assert k == RowKey(table, k[|RowPrefix(table)|..]);
    RowAddedOk(m, cache, table, k[|RowPrefix(table)|..], data);
  }

  lemma ScannedNotSchema(table: Bytes, k: Bytes)
    requires InScan(RowPrefix(table), k)
    ensures !(CATALOG_PREFIX <= k)
  {
    hide InScan;
    if CATALOG_PREFIX <= k {
      NotCatalog(table, k);
    }
  }

  /** A crash between any two writes of a statement leaves a database that a freshly loaded catalog finds consistent. */
  lemma ReloadConsistent(data: seq<Entry>)
    requires StrictlySorted(data) && AllLive(data) && Consistent(PlainMap(data))
    ensures DbOk(PlainMap(data), Loaded(Range(data, CATALOG_PREFIX, CATALOG_PREFIX + [TILDE])))
  {
    hide PlainMap;
    hide StrictlySorted;
    hide Loaded;
    hide Range;
    hide IsRow;
    hide InScan;
    hide NameOk;
    hide Agree;
    var cache :| DbOk(PlainMap(data), cache);
    ReloadSameCache(data, cache);
  }
}
