/** NOT NULL columns (src/sql/executor.cpp): when an INSERT is accepted, and what keeps NULL out of stored rows. */
module NotNull {
  import opened Bytes
  import opened Codec
  import opened Keys
  import opened Values
  import opened Catalog
  import opened Ast
  import opened Eval
  import opened Comparisons
  import opened Relation
  import opened Assignments
  import opened PrimaryKeys

  /** A row with a value in every NOT NULL column. */
  predicate Filled(schema: Schema, row: seq<Value>) {
    |row| == |schema.columns| && forall i :: 0 <= i < |row| ==> schema.columns[i].notNull ==> !row[i].isNull
  }

  /** Every scanned row of every table is one. */
  ghost predicate NoNulls(m: map<Bytes, Bytes>, cache: map<Bytes, Schema>) {
    forall n, k :: n in cache && k in m && InScan(RowPrefix(n), k) ==> Filled(cache[n], RowOf(m[k]))
  }

  // ---- INSERT. ----

  /** Column c is given no value, or NULL as its last. */
  predicate GivenNull(schema: Schema, sets: seq<Assignment>, c: nat) {
    var j := LastTo(schema.columns, sets, c);
    j == |sets| || sets[j].value.isNull
  }

  /** No column has this name. */
  predicate Unknown(columns: seq<ColumnDef>, name: Bytes) {
    forall c :: 0 <= c < |columns| ==> columns[c].name != name
  }

  lemma InsertedNull(num: Numeric, schema: Schema, sets: seq<Assignment>, c: nat)
    requires c < |schema.columns|
    ensures Assigned(num, schema.columns, sets, Nulls(schema.columns))[c].isNull <==> GivenNull(schema, sets, c)
  {
    hide Coerce;
    hide LastTo;
    hide Assigned;
    hide ColumnIndex;
    var j := LastTo(schema.columns, sets, c);
    AssignedCell(num, schema.columns, sets, Nulls(schema.columns), c, j);
    if j < |sets| {
      KeepsNull(num, sets[j].value, schema.columns[c].ty);
    }
  }

  /** The checks of INSERT before it looks for a duplicate: as many values as columns, no unknown column, no NOT NULL
      column without a value, and a key that is given or can be generated. */
  lemma RejectedExactly(num: Numeric, schema: Schema, names: seq<Bytes>, values: seq<Value>)
    ensures PlanInsert(num, schema, names, values) == Rejected <==>
      var cols := if names == [] then ColumnNames(schema.columns) else names;
      || |cols| != |values|
      || (exists i :: 0 <= i < |cols| && Unknown(schema.columns, cols[i]))
      || (exists c :: 0 <= c < |schema.columns| && schema.columns[c].notNull &&
            GivenNull(schema, Zip(cols, values), c))
      || (schema.pk !in cols && !(KeyColumn(schema) >= 0 && schema.columns[KeyColumn(schema)].ty == INT))
  {
    hide Coerce;
    hide LastTo;
    hide Assigned;
    hide ColumnIndex;
    hide GivenNull;
    hide Unknown;
    var cols := if names == [] then ColumnNames(schema.columns) else names;
    if |cols| == |values| {
      var sets := Zip(cols, values);
      UnknownColumns(schema.columns, cols, sets);
      forall c | 0 <= c < |schema.columns|
        ensures Assigned(num, schema.columns, sets, Nulls(schema.columns))[c].isNull <==> GivenNull(schema, sets, c)
      {
        InsertedNull(num, schema, sets, c);
      }
    }
  }

  lemma UnknownColumns(columns: seq<ColumnDef>, cols: seq<Bytes>, sets: seq<Assignment>)
    requires |sets| == |cols| && forall i :: 0 <= i < |cols| ==> sets[i].column == cols[i]
    ensures AllKnown(columns, sets) <==> !exists i :: 0 <= i < |cols| && Unknown(columns, cols[i])
  {
    hide ColumnIndex;
    forall i | 0 <= i < |cols| ensures ColumnIndex(columns, sets[i].column) < 0 <==> Unknown(columns, cols[i]) {
      var c := ColumnIndex(columns, cols[i]);
      assert c >= 0 ==> columns[c].name == cols[i];
    }
  }

  /** A planned row has a value in every NOT NULL column. */
  lemma PlannedFilled(num: Numeric, schema: Schema, names: seq<Bytes>, values: seq<Value>)
    requires PlanInsert(num, schema, names, values) != Rejected
    ensures var row := PlanInsert(num, schema, names, values).row;
      && Filled(schema, row) && KeyColumn(schema) >= 0
      && forall n :: Filled(schema, row[KeyColumn(schema) := MakeInt(n)])
  {
    hide Assigned;
    hide ColumnIndex;
  }

  lemma InsertFills(num: Numeric, m: map<Bytes, Bytes>, cache: map<Bytes, Schema>, table: Bytes, row: seq<Value>,
      s: Status, m': map<Bytes, Bytes>)
    requires NoNulls(m, cache) && Agree(m, cache) && table in cache && Filled(cache[table], row)
    requires |row| < U32_SIZE && KeyColumn(cache[table]) >= 0 && Added(num, m, cache[table], row, s, m')
    ensures NoNulls(m', cache)
  {
    hide Filled;
    hide InScan;
    hide RowPrefix;
    hide EncodeRow;
    hide AllCanonical;
    hide ColumnIndex;
    hide Agree;
    hide NameOk;
    hide FormatKey;
    hide RowOf;
    hide IsRow;
    assert |row| == |cache[table].columns| by { FilledLength(cache[table], row); }
    var schema := cache[table];
    var key := KeyOf(num, schema, row);
    NameOfTable(m, cache, table);
    RowOfEncoded(row, schema);
    forall n | n in cache && n != table ensures !InScan(RowPrefix(n), key) {
      NameOfTable(m, cache, n);
      NotInOther(n, table, FormatKey(num, row[KeyColumn(schema)]));
    }
  }

  lemma FilledLength(schema: Schema, row: seq<Value>)
    requires Filled(schema, row)
    ensures |row| == |schema.columns|
  {
  }

  // ---- Statements that write no row. ----

  lemma FewerRowsFilled(m: map<Bytes, Bytes>, m': map<Bytes, Bytes>, cache: map<Bytes, Schema>,
      cache': map<Bytes, Schema>)
    requires NoNulls(m, cache)
    requires forall k :: k in m' ==> k in m && m'[k] == m[k]
    requires forall n :: n in cache' ==> n in cache && cache'[n] == cache[n]
    ensures NoNulls(m', cache')
  {
    hide Filled;
    hide InScan;
    hide RowPrefix;
    hide RowOf;
  }

  lemma CounterFilled(m: map<Bytes, Bytes>, cache: map<Bytes, Schema>, table: Bytes, v: Bytes)
    requires NoNulls(m, cache)
    ensures NoNulls(m[MetaKey(table, NEXT_ROWID) := v], cache)
  {
    hide Filled;
    hide InScan;
    hide RowPrefix;
    hide RowOf;
    hide MetaKey;
    forall n ensures !InScan(RowPrefix(n), MetaKey(table, NEXT_ROWID)) { NotMeta(n, table, NEXT_ROWID); }
  }

  lemma CreateFilled(m: map<Bytes, Bytes>, cache: map<Bytes, Schema>, s: Schema)
    requires NoNulls(m, cache) && DbOk(m, cache) && s.name !in cache && NameOk(s.name)
    ensures NoNulls(m[CatalogKey(s.name) := EncodeSchema(s)][MetaKey(s.name, NEXT_ROWID) := [0x31]], cache[s.name := s])
  {
    hide Filled;
    hide InScan;
    hide RowPrefix;
    hide RowOf;
    hide MetaKey;
    hide CatalogKey;
    hide EncodeSchema;
    hide Agree;
    hide NameOk;
    hide IsRow;
    forall n ensures !InScan(RowPrefix(n), CatalogKey(s.name)) && !InScan(RowPrefix(n), MetaKey(s.name, NEXT_ROWID)) {
      CatalogNotRow(n, s.name);
      NotMeta(n, s.name, NEXT_ROWID);
    }
  }

  // ---- UPDATE, which does not check. ----

  /** No NOT NULL column is assigned NULL as its last value. */
  predicate GivesNoNull(schema: Schema, sets: seq<Assignment>) {
    forall c :: 0 <= c < |schema.columns| && schema.columns[c].notNull ==>
      var j := LastTo(schema.columns, sets, c); j < |sets| ==> !sets[j].value.isNull
  }

  lemma AssignedFilled(num: Numeric, schema: Schema, sets: seq<Assignment>, row: seq<Value>)
    requires Filled(schema, row)
    ensures Filled(schema, Assigned(num, schema.columns, sets, row)) <==> GivesNoNull(schema, sets)
  {
    hide Coerce;
    hide LastTo;
    hide Assigned;
    hide ColumnIndex;
    forall c | 0 <= c < |schema.columns| && schema.columns[c].notNull
      ensures Assigned(num, schema.columns, sets, row)[c].isNull <==>
        var j := LastTo(schema.columns, sets, c); j < |sets| && sets[j].value.isNull
    {
      var j := LastTo(schema.columns, sets, c);
      AssignedCell(num, schema.columns, sets, row, c, j);
      if j < |sets| {
        KeepsNull(num, sets[j].value, schema.columns[c].ty);
      }
    }
  }

  /** From rows without NULL in NOT NULL columns, UPDATE leaves such rows if and only if it selects none or assigns no
      such column NULL. */
  lemma UpdateFillsExactly(num: Numeric, sets: seq<Assignment>, w: Where, m: map<Bytes, Bytes>, cache: map<Bytes,
      Schema>, table: Bytes)
    requires NumericOk(num) && ValuesOk(sets) && WhereOk(w) && DbOk(m, cache) && table in cache && NoNulls(m, cache)
    ensures NoNulls(Rewritten(m, table, Updater(num, sets, w, cache[table])), cache) <==>
      (AnySelected(m, table, Selector(num, w, cache[table])) ==> GivesNoNull(cache[table], sets))
  {
    hide NumericOk;
    hide Filled;
    hide InScan;
    hide RowPrefix;
    hide Updater;
    hide Satisfies;
    hide Selector;
    hide GivesNoNull;
    hide DbOk;
    hide RowOf;
    hide Assigned;
    var schema, f, p := cache[table], Updater(num, sets, w, cache[table]), Selector(num, w, cache[table]);
    var m' := Rewritten(m, table, f);
    forall k | k in m && InScan(RowPrefix(table), k)
      ensures Filled(schema, RowOf(m'[k])) <==> (p(m[k]) ==> GivesNoNull(schema, sets))
    {
      UpdateExact(num, sets, w, m, cache, table, k);
      SelectorAt(num, w, schema, m[k]);
      AssignedFilled(num, schema, sets, RowOf(m[k]));
    }
    TableNames(m, cache);
    forall n, k | n in cache && n != table && k in m && InScan(RowPrefix(n), k) ensures m'[k] == m[k] {
      OtherTable(table, n, k);
    }
  }

  /** `UPDATE t SET id = NULL` on the row 1, the key of table t being NOT NULL. */
  const SET_NULL: seq<Assignment> := [Assignment(ID, MakeNull(TEXT))]

  lemma UpdateStoresNull(num: Numeric)
    ensures T.columns[0].notNull && Filled(T, One(1)) && !GivesNoNull(T, SET_NULL)
    ensures Assigned(num, T.columns, SET_NULL, One(1)) == [MakeNull(INT)]
  {
    hide ColumnIndex;
    hide LastTo;
    IdColumn();
    assert SET_NULL[..0] == [];
    var j := LastTo(T.columns, SET_NULL, 0);
    assert ColumnIndex(T.columns, SET_NULL[0].column) == 0;
    assert j == 0;
  }
}
