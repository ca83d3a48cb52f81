/** Statements over the key-value store (src/sql/executor.cpp). */
module Executor {
  import opened Bytes
  import opened Codec
  import opened Entries
  import opened Layers
  import opened Keys
  import opened Values
  import opened KeyValue
  import opened Catalog
  import opened Ast
  import opened Eval
  import opened Relation
  import opened Assignments
  import opened Selection

  class Database {
    const store: Store
    const catalog: SchemaCatalog
    const num: Numeric

    ghost predicate Valid()
      reads this, store, catalog
    {
      store.Valid() && catalog.store == store && DbOk(store.Map(), catalog.cache) && NumericOk(num)
    }

    constructor (kv: Store, cat: SchemaCatalog, lib: Numeric)
      requires kv.Valid() && cat.store == kv && DbOk(kv.Map(), cat.cache) && NumericOk(lib)
      ensures Valid() && store == kv && catalog == cat && num == lib
    {
      store, catalog, num := kv, cat, lib;
    }

    method TableScan(table: Bytes) returns (rows: seq<Entry>)
      requires Valid()
      ensures ScanOf(rows, store.Map(), table) && rows == Range(store.data, RowPrefix(table), RowPrefixEnd(table))
    {
      hide PlainMap;
      rows := store.Scan(RowPrefix(table), RowPrefixEnd(table));
    }

    /** `exec_delete`: the rows the WHERE selects go, and nothing else. */
    method ExecDelete(table: Bytes, w: Where) returns (s: Status)
      requires Valid() && WhereOk(w)
      modifies store, catalog
      ensures Valid() && catalog.cache == old(catalog.cache)
      ensures table !in catalog.cache ==> s == InvalidArgument && store.Map() == old(store.Map())
      ensures table in catalog.cache ==>
        s == OK && store.Map() == Removed(old(store.Map()), table, Selector(num, w, catalog.cache[table]))
      ensures old(store.states) <= store.states && ConsistentSince(store.states, |old(store.states)|)
    {
      hide Agree;
      hide PlainMap;
      hide ScanOf;
      hide Removed;
      hide Selects;
      hide IsRow;
      hide InScan;
      hide NameOk;
      hide StrictlySorted;
      hide ConsistentSince;
      NoStates(store.states);
      var schema := catalog.GetSchema(table);
      if schema.None? {
        return InvalidArgument;
      }
      ghost var p := Selector(num, w, schema.value);
      NameOfTable(store.Map(), catalog.cache, table);
      RemovedOk(store.Map(), catalog.cache, table, p);
      var rows := TableScan(table);
      var keys := SelectKeys(rows, table, w, schema.value);
      DeleteKeys(keys);
      SelectedKeysAre(rows, p, |rows|);
      RemoveDone(old(store.Map()), rows, table, p, SelectedKeys(rows, p, |rows|));
      s := OK;
    }

    /** The collecting loop. */
    method SelectKeys(rows: seq<Entry>, table: Bytes, w: Where, schema: Schema) returns (keys: seq<Bytes>)
      requires Valid() && WhereOk(w) && ScanOf(rows, store.Map(), table)
      requires table in catalog.cache && catalog.cache[table] == schema
      ensures AllLive(rows) && (forall i :: 0 <= i < |keys| ==> keys[i] != [] && !(CATALOG_PREFIX <= keys[i]))
      ensures KeySet(keys) == SelectedKeys(rows, Selector(num, w, schema), |rows|)
    {
      hide Agree;
      hide PlainMap;
      hide ScanOf;
      hide Satisfies;
      hide IsRow;
      hide InScan;
      hide NameOk;
      hide DbOk;
      hide Selector;
      hide StrictlySorted;
      hide RowOf;
      ScanIsLive(rows, store.Map(), table);
      keys := [];
      for i := 0 to |rows|
        invariant forall j :: 0 <= j < |keys| ==> keys[j] != [] && !(CATALOG_PREFIX <= keys[j])
        invariant KeySet(keys) == SelectedKeys(rows, Selector(num, w, schema), i)
      {
        ScannedRow(rows, store.Map(), table, i);
        RowIsOk(store.Map(), catalog.cache, table, rows[i].key);
        var row := ReadRow(rows[i].val.value, schema);
        SelectorAt(num, w, schema, rows[i].val.value);
        var hit := EvaluateWhere(num, w, schema.columns, row);
        if hit {
          ScannedNotSchema(table, rows[i].key);
          assert KeySet(keys + [rows[i].key]) == KeySet(keys) + {rows[i].key};
          keys := keys + [rows[i].key];
        }
      }
    }

    method DeleteKeys(keys: seq<Bytes>)
      requires Valid() && forall i :: 0 <= i < |keys| ==> keys[i] != [] && !(CATALOG_PREFIX <= keys[i])
      modifies store
      ensures store.Valid() && store.Map() == old(store.Map()) - KeySet(keys)
      ensures old(store.states) <= store.states && ConsistentSince(store.states, |old(store.states)|)
    {
      hide PlainMap;
      hide StrictlySorted;
      hide DbOk;
      hide NumericOk;
      hide ConsistentSince;
      NoStates(store.states);
      assert old(store.Map()) - KeySet(keys[..0]) == old(store.Map());
      for i := 0 to |keys|
        invariant store.Valid() && store.Map() == old(store.Map()) - KeySet(keys[..i])
        invariant DbOk(store.Map(), catalog.cache)
        invariant old(store.states) <= store.states && ConsistentSince(store.states, |old(store.states)|)
      {
        MinusOk(store.Map(), catalog.cache, {keys[i]});
        OneMoreState(store.states, |old(store.states)|, store.Map() - {keys[i]}, catalog.cache);
        var _ := store.Remove(keys[i]);
        assert keys[..i + 1] == keys[..i] + [keys[i]];
        assert KeySet(keys[..i + 1]) == KeySet(keys[..i]) + {keys[i]};
      }
      assert keys[..|keys|] == keys;
    }

    // ---- UPDATE. ----

    /** `exec_update`: the rows the WHERE selects get the assigned cells, and nothing else changes; with an
        unknown column nothing changes, and it is an error exactly when some row is selected. */
    method ExecUpdate(table: Bytes, sets: seq<Assignment>, w: Where) returns (s: Status)
      requires Valid() && WhereOk(w) && ValuesOk(sets)
      modifies store, catalog
      ensures Valid() && catalog.cache == old(catalog.cache)
      ensures table !in catalog.cache ==> s == InvalidArgument && store.Map() == old(store.Map())
      ensures table in catalog.cache && AllKnown(catalog.cache[table].columns, sets) ==>
        s == OK && store.Map() == Rewritten(old(store.Map()), table, Updater(num, sets, w, catalog.cache[table]))
      ensures table in catalog.cache && !AllKnown(catalog.cache[table].columns, sets) ==>
        && store.Map() == old(store.Map())
        && s == if AnySelected(store.Map(), table, Selector(num, w, catalog.cache[table])) then InvalidArgument else OK
      ensures old(store.states) <= store.states && ConsistentSince(store.states, |old(store.states)|)
    {
      hide Agree;
      hide PlainMap;
      hide ScanOf;
      hide Rewritten;
      hide Selects;
      hide IsRow;
      hide InScan;
      hide NameOk;
      hide StrictlySorted;
      hide NumericOk;
      hide Updater;
      hide Selector;
      hide AnySelected;
      hide AllKnown;
      hide RewrittenUpTo;
      hide ConsistentSince;
      NoStates(store.states);
      var schema := catalog.GetSchema(table);
      if schema.None? {
        return InvalidArgument;
      }
      ghost var m := store.Map();
      NameOfTable(m, catalog.cache, table);
      var rows := TableScan(table);
      ScanIsLive(rows, m, table);
      UpdaterKeepsRows(num, sets, w, schema.value);
      RewrittenOk(m, catalog.cache, table, Updater(num, sets, w, schema.value));
      var ok := UpdateRows(rows, table, sets, w, schema.value);
      if AllKnown(schema.value.columns, sets) {
        RewriteDone(m, store.Map(), rows, table, Updater(num, sets, w, schema.value));
      } else {
        AnySelectedIs(m, rows, table, Selector(num, w, schema.value));
      }
      s := if ok then OK else InvalidArgument;
    }

    /** The loop over the scanned rows. */
    method UpdateRows(rows: seq<Entry>, table: Bytes, sets: seq<Assignment>, w: Where, schema: Schema)
      returns (ok: bool)
      requires Valid() && WhereOk(w) && ValuesOk(sets) && ScanOf(rows, store.Map(), table) && AllLive(rows)
      requires table in catalog.cache && catalog.cache[table] == schema
      modifies store
      ensures store.Valid()
      ensures AllKnown(schema.columns, sets) ==>
        ok && RewrittenUpTo(old(store.Map()), store.Map(), rows, Updater(num, sets, w, schema), |rows|)
      ensures !AllKnown(schema.columns, sets) ==> store.Map() == old(store.Map())
      ensures !AllKnown(schema.columns, sets) ==>
        (ok <==> forall i :: 0 <= i < |rows| ==> !Selector(num, w, schema)(rows[i].val.value))
      ensures old(store.states) <= store.states && ConsistentSince(store.states, |old(store.states)|)
    {
      hide *;
      ValidParts();
      NoStates(store.states);
      ghost var m := store.Map();
      ghost var f := Updater(num, sets, w, schema);
      ghost var known := AllKnown(schema.columns, sets);
      forall j: nat | j < |rows| ensures rows[j].val.Some? { LiveAt(rows, j); }
      RewriteStart(m, rows, f);
      for i := 0 to |rows|
        invariant store.Valid() && DbOk(store.Map(), catalog.cache)
        invariant old(store.states) <= store.states && ConsistentSince(store.states, |old(store.states)|)
        invariant known ==> RewrittenUpTo(m, store.Map(), rows, f, i)
        invariant !known ==> store.Map() == m && forall j :: 0 <= j < i ==> !Selector(num, w, schema)(rows[j].val.value)
      {
        ScannedRow(rows, m, table, i);
        RowIsOk(m, catalog.cache, table, rows[i].key);
        UpdaterAt(num, sets, w, schema, rows[i].val.value);
        SelectorAt(num, w, schema, rows[i].val.value);
        ghost var before := store.Map();
        NewRowIs(num, sets, schema, rows[i].val.value);
        RowRewrittenOk(before, catalog.cache, table, rows[i].key, NewRow(num, sets, schema, rows[i].val.value));
        OneMoreState(store.states, |old(store.states)|,
          before[rows[i].key := NewRow(num, sets, schema, rows[i].val.value)], catalog.cache);
        ok := UpdateRow(rows[i], sets, w, schema);
        if !ok {
          return;
        }
        if known {
          if Selector(num, w, schema)(rows[i].val.value) {
            RewriteOne(m, before, rows, table, f, i);
          } else {
            RewriteSkip(m, before, rows, table, f, i);
          }
        }
      }
      ok := true;
    }

    lemma ValidParts()
      requires Valid()
      ensures store.Valid() && DbOk(store.Map(), catalog.cache) && NumericOk(num)
    {
      hide DbOk;
      hide NumericOk;
    }

    /** One scanned row: skipped, rewritten under its own key, or refused for an unknown column. */
    method UpdateRow(e: Entry, sets: seq<Assignment>, w: Where, schema: Schema) returns (ok: bool)
      requires store.Valid() && NumericOk(num) && WhereOk(w) && ValuesOk(sets)
      requires e.key != [] && e.val.Some? && IsRow(e.val.value, schema)
      modifies store
      ensures store.Valid()
      ensures ok <==> (Selector(num, w, schema)(e.val.value) ==> AllKnown(schema.columns, sets))
      ensures store.Map() == if Selector(num, w, schema)(e.val.value) &&
        ok then old(store.Map())[e.key := NewRow(num, sets, schema, e.val.value)]
        else old(store.Map())
      ensures store.states == if Selector(num, w, schema)(e.val.value) &&
        ok then old(store.states) + [store.Map()] else old(store.states)
    {
      hide PlainMap;
      hide RowOf;
      hide Selector;
      hide NumericOk;
      hide Assigned;
      hide EncodeRow;
      hide StrictlySorted;
      hide AllCanonical;
      hide NewRow;
      hide Satisfies;
      hide AllKnown;
      hide DecodeRow;
      var row := ReadRow(e.val.value, schema);
      SelectorAt(num, w, schema, e.val.value);
      var hit := EvaluateWhere(num, w, schema.columns, row);
      if !hit {
        return true;
      }
      var r := AssignAll(num, schema.columns, sets, row);
      if r.None? {
        return false;
      }
      NewRowIs(num, sets, schema, e.val.value);
      var data := Serialize(r.value);
      var _ := store.Put(e.key, data);
      ok := true;
    }

    // ---- INSERT. ----

    /** `exec_insert`: a refused statement changes nothing; otherwise one row is added under a key that was
        free. Only a generated key touches the counter, before the duplicate check. */
    method ExecInsert(table: Bytes, names: seq<Bytes>, values: seq<Value>) returns (s: Status)
      requires Valid() && AllCanonical(values)
      modifies store, catalog
      ensures Valid() && catalog.cache == old(catalog.cache)
      ensures table !in catalog.cache ==> s == InvalidArgument && store.Map() == old(store.Map())
      ensures table in catalog.cache ==>
        var m, schema := old(store.Map()), catalog.cache[table];
        match PlanInsert(num, schema, names, values)
        case Rejected => s == InvalidArgument && store.Map() == m
        case WithKey(row) => Added(num, m, schema, row, s, store.Map())
        case AutoKey(row) => Added(num, Bumped(num, m, table), schema, Keyed(num, m, schema, row), s, store.Map())
      ensures old(store.states) <= store.states && ConsistentSince(store.states, |old(store.states)|)
    {
      hide *;
      ValidParts();
      NoStates(store.states);
      ghost var m := store.Map();
      var schema := SchemaOf(table);
      if schema.None? {
        return InvalidArgument;
      }
      TableFits(m, catalog.cache, table);
      var plan, pk := MakePlan(num, schema.value, names, values);
      PlanCanonical(num, schema.value, names, values);
      match plan {
        case Rejected => return InvalidArgument;
        case WithKey(row) =>
          s := AddRow(schema.value, row, pk);
          ValidParts();
          OneMoreState(old(store.states), |old(store.states)|, store.Map(), catalog.cache);
        case AutoKey(row) =>
          KeyedCanonical(num, m, schema.value, row);
          var id := NextRowId(table);
          ValidParts();
          OneMoreState(old(store.states), |old(store.states)|, store.Map(), catalog.cache);
          ghost var bumped := store.states;
          var k := FindColumn(schema.value.columns, schema.value.pk);
          KeyedIs(num, m, schema.value, row);
          s := AddRow(schema.value, row[k := MakeInt(Signed(id))], MakeInt(Signed(id)));
          ValidParts();
          OneMoreState(bumped, |old(store.states)|, store.Map(), catalog.cache);
      }
    }

    method SchemaOf(table: Bytes) returns (r: Option<Schema>)
      requires Valid()
      modifies catalog
      ensures Valid() && catalog.cache == old(catalog.cache) && store.Map() == old(store.Map())
      ensures r == if table in catalog.cache then Some(catalog.cache[table]) else None
    {
      hide Agree;
      hide PlainMap;
      hide IsRow;
      hide InScan;
      hide NumericOk;
      hide StrictlySorted;
      r := catalog.GetSchema(table);
    }

    /** `next_row_id`. */
    method NextRowId(table: Bytes) returns (id: nat)
      requires Valid()
      modifies store
      ensures Valid() && store.Map() == Bumped(num, old(store.Map()), table) &&
        store.states == old(store.states) + [store.Map()]
      ensures id == NextId(num, old(store.Map()), table)
    {
      hide DbOk;
      hide PlainMap;
      hide NumericOk;
      hide StrictlySorted;
      hide MetaKey;
      NotMeta([], table, NEXT_ROWID);
      var v := store.Get(MetaKey(table, NEXT_ROWID));
      id := 1;
      if v.Some? && num.parseId(v.value).Some? {
        id := num.parseId(v.value).value;
      }
      var text := ShowInt((id + 1) % U64_SIZE);
      MetaOk(store.Map(), catalog.cache, table, NEXT_ROWID, text);
      var _ := store.Put(MetaKey(table, NEXT_ROWID), text);
    }

    /** The duplicate check and the write. */
    method AddRow(schema: Schema, row: seq<Value>, pk: Value) returns (s: Status)
      requires Valid() && schema.name in catalog.cache && catalog.cache[schema.name] == schema
      requires AllCanonical(row) && |row| == |schema.columns| < 0x1_0000_0000 && KeyColumn(schema) >= 0 &&
        pk == row[KeyColumn(schema)]
      modifies store
      ensures Valid() && (store.states == old(store.states) || store.states == old(store.states) + [store.Map()])
      ensures Added(num, old(store.Map()), schema, row, s, store.Map())
    {
      hide DbOk;
      hide PlainMap;
      hide NumericOk;
      hide StrictlySorted;
      hide AllCanonical;
      hide EncodeRow;
      hide IsRow;
      hide ColumnIndex;
      hide RowPrefix;
      var key := RowKey(schema.name, FormatKey(num, pk));
      RowKeyFilled(schema.name, FormatKey(num, pk));
      var there := store.Get(key);
      if there.Some? {
        return InvalidArgument;
      }
      RowOfEncoded(row, schema);
      RowAddedOk(store.Map(), catalog.cache, schema.name, FormatKey(num, pk), EncodeRow(row));
      var data := Serialize(row);
      s := store.Put(key, data);
    }

    // ---- SELECT. ----

    /** `exec_select`: filter, project, sort and limit over the table's scan. */
    method ExecSelect(q: Statement) returns (r: QueryResult)
      requires Valid() && q.Select? && WhereOk(q.filter)
      modifies catalog
      ensures Valid() && catalog.cache == old(catalog.cache) && store.Map() == old(store.Map())
      ensures q.table !in catalog.cache ==> r == Failed
      ensures q.table in catalog.cache ==>
        var scan := Range(store.data, RowPrefix(q.table), RowPrefixEnd(q.table));
        ScanOf(scan, store.Map(), q.table) && Answers(num, catalog.cache[q.table], q, scan, r)
    {
      hide *;
      var schema := SchemaOf(q.table);
      if schema.None? {
        return Failed;
      }
      var cols := schema.value.columns;
      var idx := FindPositions(cols, q.all, q.names);
      var titles := Titles(cols, q.all, q.names);
      var scan := TableScan(q.table);
      if idx.None? {
        AnswerNoColumn(num, schema.value, q, scan);
        return Failed;
      }
      var rows := PickRows(scan, q.table, q.filter, schema.value, idx.value);
      if q.orderBy == [] {
        AnswerPlain(num, schema.value, q, scan, idx.value);
        return Rows(titles, Limited(rows, q.limit));
      }
      var c := FindTitle(titles, q.orderBy);
      if c < 0 {
        AnswerNoTitle(num, schema.value, q, scan, idx.value);
        return Failed;
      }
      var sorted := SortRows(num, q.desc, c, rows);
      AnswerSorted(num, schema.value, q, scan, idx.value, sorted);
      return Rows(titles, Limited(sorted, q.limit));
    }

    /** The filtering and projecting loop. */
    method PickRows(rows: seq<Entry>, table: Bytes, w: Where, schema: Schema, idx: seq<nat>) returns (out: seq<Row>)
      requires Valid() && WhereOk(w) && ScanOf(rows, store.Map(), table)
      requires table in catalog.cache && catalog.cache[table] == schema
      ensures out == Picked(Selector(num, w, schema), idx, rows)
    {
      hide Agree;
      hide PlainMap;
      hide ScanOf;
      hide Satisfies;
      hide IsRow;
      hide InScan;
      hide NameOk;
      hide DbOk;
      hide Selector;
      hide StrictlySorted;
      hide RowOf;
      hide Project;
      hide NumericOk;
      out := [];
      for i := 0 to |rows|
        invariant out == Picked(Selector(num, w, schema), idx, rows[..i])
      {
        assert rows[..i + 1][..i] == rows[..i];
        ScannedRow(rows, store.Map(), table, i);
        RowIsOk(store.Map(), catalog.cache, table, rows[i].key);
        var row := ReadRow(rows[i].val.value, schema);
        SelectorAt(num, w, schema, rows[i].val.value);
        var hit := EvaluateWhere(num, w, schema.columns, row);
        if hit {
          out := out + [Project(idx, row)];
        }
      }
      assert rows[..|rows|] == rows;
    }

    // ---- CREATE TABLE and DROP TABLE. ----

    /** `exec_create_table`. */
    method ExecCreate(table: Bytes, columns: seq<ColumnDef>, pk: Bytes) returns (s: Status)
      requires Valid() && NameOk(table) && SchemaFits(Schema(table, columns, pk))
      modifies store, catalog
      ensures Valid()
      ensures table == [] || columns == [] || pk == [] || table in old(catalog.cache) ==>
        s == InvalidArgument && catalog.cache == old(catalog.cache) && store.Map() == old(store.Map())
      ensures table != [] && columns != [] && pk != [] && table !in old(catalog.cache) ==>
        var schema := Schema(table, columns, pk);
        && s == OK && catalog.cache == old(catalog.cache)[table := schema]
        && store.Map() ==
          old(store.Map())[CatalogKey(table) := EncodeSchema(schema)][MetaKey(table, NEXT_ROWID) := [0x31]]
      ensures old(store.states) <= store.states && ConsistentSince(store.states, |old(store.states)|)
    {
      hide Agree;
      hide PlainMap;
      hide IsRow;
      hide InScan;
      hide NumericOk;
      hide StrictlySorted;
      hide NameOk;
      hide SchemaFits;
      hide EncodeSchema;
      hide MetaKey;
      hide CatalogKey;
      hide ConsistentSince;
      NoStates(store.states);
      if table == [] || columns == [] || pk == [] {
        return InvalidArgument;
      }
      ghost var m, cache := store.Map(), catalog.cache;
      ghost var schema, states := Schema(table, columns, pk), store.states;
      s := catalog.CreateTable(Schema(table, columns, pk));
      if s == OK {
        CreatedOk(m, cache, schema);
        HalfCreatedOk(m, cache, schema);
        ghost var half := m[CatalogKey(table) := EncodeSchema(schema)];
        OneMoreState(states, |states|, half, catalog.cache);
        OneMoreState(states + [half], |states|, store.Map(), catalog.cache);
        assert states + [half] + [store.Map()] == store.states;
      }
    }

    /** `exec_drop_table`; IF EXISTS makes a missing table no error. */
    method ExecDrop(table: Bytes, ifExists: bool) returns (s: Status)
      requires Valid()
      modifies store, catalog
      ensures Valid()
      ensures table !in old(catalog.cache) ==>
        && s == (if ifExists then OK else InvalidArgument)
        && catalog.cache == old(catalog.cache) && store.Map() == old(store.Map())
      ensures table in old(catalog.cache) ==>
        && s == OK && catalog.cache == old(catalog.cache) - {table}
        && store.Map() == WithoutRows(old(store.Map()), table) - {MetaKey(table, NEXT_ROWID)} - {CatalogKey(table)}
      ensures old(store.states) <= store.states && ConsistentSince(store.states, |old(store.states)|)
    {
      hide Agree;
      hide PlainMap;
      hide IsRow;
      hide InScan;
      hide NumericOk;
      hide StrictlySorted;
      hide NameOk;
      hide MetaKey;
      hide CatalogKey;
      hide WithoutRows;
      hide ConsistentSince;
      hide ThinnedSince;
      NoStates(store.states);
      if table !in catalog.cache {
        return if ifExists then OK else InvalidArgument;
      }
      ghost var m, cache, n := store.Map(), catalog.cache, |store.states|;
      s := catalog.DropTable(table);
      DroppedOk(m, cache, table);
      ghost var before := store.states[..|store.states| - 1];
      ThinnedStatesOk(before, n, m, cache, table);
      OneMoreState(before, n, store.Map(), catalog.cache);
      assert before + [store.Map()] == store.states;
    }
  }
}
