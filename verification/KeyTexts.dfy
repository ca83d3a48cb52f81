/** Which rows share a key: the text a key cell is stored under (`format_pk` of src/sql/executor.cpp), and when an
    INSERT is refused as a duplicate. */
module KeyTexts {
  import opened Bytes
  import opened Codec
  import opened Keys
  import opened Values
  import opened Catalog
  import opened Ast
  import opened Eval
  import opened Decimals
  import opened Comparisons
  import opened Relation
  import opened Assignments
  import opened PrimaryKeys

  /** The text of a key cell: an INT in decimal, ten characters at least, where NULL counts as 0; anything else as it
      prints. */
  predicate Spells(num: Numeric, v: Value, t: Bytes) {
    if v.ty == INT then IsDecimal(t, v.intVal, 10) else Prints(num, v, t)
  }

  lemma KeySpelled(num: Numeric, v: Value, t: Bytes)
    requires Canonical(v)
    ensures Spells(num, v, t) <==> t == FormatKey(num, v)
  {
    hide Show;
    hide Prints;
    hide FormatInt;
    hide IsDecimal;
    FormatIntIs(v.intVal, t);
    ShowPrints(num, v, t);
  }

  /** A row is stored under the table's prefix and exactly the text of its key cell. */
  lemma RowStoredUnder(num: Numeric, schema: Schema, row: seq<Value>, t: Bytes)
    requires |row| == |schema.columns| && KeyColumn(schema) >= 0 && Canonical(row[KeyColumn(schema)])
    ensures KeyOf(num, schema, row) == TABLE_PREFIX + schema.name + ROW_MARK + t <==>
      Spells(num, row[KeyColumn(schema)], t)
  {
    hide ColumnIndex;
    hide Spells;
    hide FormatKey;
    hide Canonical;
    KeySpelled(num, row[KeyColumn(schema)], t);
    SameRowKey(schema.name, FormatKey(num, row[KeyColumn(schema)]), t);
  }

  /** Two cells have one key text. */
  ghost predicate SameText(num: Numeric, a: Value, b: Value) {
    exists t :: Spells(num, a, t) && Spells(num, b, t)
  }

  lemma SameTextIs(num: Numeric, a: Value, b: Value)
    requires Canonical(a) && Canonical(b)
    ensures SameText(num, a, b) <==> FormatKey(num, a) == FormatKey(num, b)
  {
    hide Spells;
    hide FormatKey;
    hide Canonical;
    KeySpelled(num, a, FormatKey(num, a));
    KeySpelled(num, b, FormatKey(num, a));
    if t :| Spells(num, a, t) && Spells(num, b, t) {
      KeySpelled(num, a, t);
      KeySpelled(num, b, t);
    }
  }

  /** Keys of one type, INT, TEXT or BOOL, not NULL: equal texts are equal cells. */
  lemma OneTypeOneText(num: Numeric, a: Value, b: Value)
    requires Canonical(a) && Canonical(b) && !a.isNull && !b.isNull
    requires a.ty == b.ty && (a.ty == INT || a.ty == TEXT || a.ty == BOOL)
    ensures SameText(num, a, b) <==> a == b
  {
    hide FormatInt;
    hide SameText;
    SameTextIs(num, a, b);
    if a.ty == INT && FormatInt(a.intVal) == FormatInt(b.intVal) {
      FormatIntInjective(a.intVal, b.intVal);
    }
    Words();
  }

  /** Across types: an INT shares its text with the TEXT that spells it, a BOOL with the word, and no INT with a
      BOOL. */
  lemma MixedTypesOneText(num: Numeric, a: Value, b: Value)
    requires Canonical(a) && Canonical(b) && !a.isNull && !b.isNull
    ensures a.ty == INT && b.ty == TEXT ==> (SameText(num, a, b) <==> IsDecimal(b.text, a.intVal, 10))
    ensures a.ty == BOOL && b.ty == TEXT ==>
      (SameText(num, a, b) <==> b.text == if a.boolVal then TRUE_TEXT else FALSE_TEXT)
    ensures a.ty == INT && b.ty == BOOL ==> !SameText(num, a, b)
  {
    hide IsDecimal;
    if a.ty == INT && b.ty == TEXT && IsDecimal(b.text, a.intVal, 10) {
      assert Spells(num, a, b.text) && Spells(num, b, b.text);
    }
    if a.ty == BOOL && b.ty == TEXT && b.text == (if a.boolVal then TRUE_TEXT else FALSE_TEXT) {
      assert Spells(num, a, b.text) && Spells(num, b, b.text);
    }
    if t :| a.ty == INT && b.ty == BOOL && Spells(num, a, t) && Spells(num, b, t) {
      DecimalHead(t, a.intVal);
      assert false;
    }
  }

  lemma DecimalHead(t: Bytes, n: int)
    requires IsDecimal(t, n, 10)
    ensures t != [] && t[0] < 0x40
  {
  }

  /** NULL in an INT key has the text of 0, a NULL of another type the word NULL. */
  lemma NullText(num: Numeric, t: Bytes, ty: Byte)
    ensures Spells(num, MakeNull(INT), t) <==> IsDecimal(t, 0, 10)
    ensures ty != INT ==> (Spells(num, MakeNull(ty), t) <==> t == NULL_TEXT)
  {
    hide IsDecimal;
  }

  // ---- Duplicates. ----

  /** A scanned row of the table. */
  ghost predicate IsStored(m: map<Bytes, Bytes>, schema: Schema, k: Bytes) {
    k in m && InScan(RowPrefix(schema.name), k) && |RowOf(m[k])| == |schema.columns|
  }

  /** Some row of the table has a key cell with the text of this one. */
  ghost predicate Taken(num: Numeric, m: map<Bytes, Bytes>, schema: Schema, cell: Value)
    requires KeyColumn(schema) >= 0
  {
    exists k :: IsStored(m, schema, k) && SameText(num, RowOf(m[k])[KeyColumn(schema)], cell)
  }

  lemma StoredKeyCell(num: Numeric, schema: Schema, k: Bytes, data: Bytes)
    requires OwnKey(num, schema, k, data)
    ensures |RowOf(data)| == |schema.columns| && Canonical(RowOf(data)[KeyColumn(schema)])
    ensures k == RowKey(schema.name, FormatKey(num, RowOf(data)[KeyColumn(schema)]))
  {
    hide ColumnIndex;
    hide FormatKey;
    hide DecodeRow;
    hide Canonical;
    hide RowOf;
  }

  lemma TakenIs(num: Numeric, m: map<Bytes, Bytes>, cache: map<Bytes, Schema>, table: Bytes, cell: Value)
    requires KeysMatch(num, m, cache) && table in cache && cache[table].name == table
    requires KeyColumn(cache[table]) >= 0 && Canonical(cell) && Reachable(FormatKey(num, cell))
    ensures Taken(num, m, cache[table], cell) <==> RowKey(table, FormatKey(num, cell)) in m
  {
    hide OwnKey;
    hide InScan;
    hide RowPrefix;
    hide RowKey;
    hide FormatKey;
    hide ColumnIndex;
    hide RowOf;
    hide SameText;
    hide Canonical;
    var schema, key := cache[table], RowKey(table, FormatKey(num, cell));
    RowInScan(table, FormatKey(num, cell));
    if key in m {
      StoredKeyCell(num, schema, key, m[key]);
      var there := RowOf(m[key])[KeyColumn(schema)];
      SameRowKey(table, FormatKey(num, there), FormatKey(num, cell));
      SameTextIs(num, there, cell);
    }
    if k :| IsStored(m, schema, k) && SameText(num, RowOf(m[k])[KeyColumn(schema)], cell) {
      StoredKeyCell(num, schema, k, m[k]);
      SameTextIs(num, RowOf(m[k])[KeyColumn(schema)], cell);
    }
  }

  /** While rows are stored under their own keys, an INSERT that passes the other checks is refused if and only if a
      row of the table has its key text. */
  lemma RefusedExactly(num: Numeric, m: map<Bytes, Bytes>, cache: map<Bytes, Schema>, table: Bytes, row: seq<Value>,
      s: Status, m': map<Bytes, Bytes>)
    requires KeysMatch(num, m, cache) && table in cache && cache[table].name == table
    requires |row| == |cache[table].columns| && KeyColumn(cache[table]) >= 0
    requires Added(num, m, cache[table], row, s, m')
    requires forall t :: Spells(num, row[KeyColumn(cache[table])], t) ==> Reachable(t)
    ensures s == InvalidArgument <==> Taken(num, m, cache[table], row[KeyColumn(cache[table])])
    ensures s == InvalidArgument || s == OK
  {
    hide KeysMatch;
    hide RowKey;
    hide FormatKey;
    hide ColumnIndex;
    hide Taken;
    hide Canonical;
    hide EncodeRow;
    hide Spells;
    hide Reachable;
    KeySpelled(num, row[KeyColumn(cache[table])], FormatKey(num, row[KeyColumn(cache[table])]));
    TakenIs(num, m, cache, table, row[KeyColumn(cache[table])]);
  }

  /** In particular, where all key cells are of one type, INT, TEXT or BOOL, and not NULL: if and only if the same key
      cell is stored. */
  lemma RefusedForDuplicates(num: Numeric, m: map<Bytes, Bytes>, cache: map<Bytes, Schema>, table: Bytes,
      row: seq<Value>, s: Status, m': map<Bytes, Bytes>)
    requires KeysMatch(num, m, cache) && table in cache && cache[table].name == table
    requires |row| == |cache[table].columns| && KeyColumn(cache[table]) >= 0
    requires Added(num, m, cache[table], row, s, m')
    requires forall t :: Spells(num, row[KeyColumn(cache[table])], t) ==> Reachable(t)
    requires var cell := row[KeyColumn(cache[table])];
      !cell.isNull && (cell.ty == INT || cell.ty == TEXT || cell.ty == BOOL)
    requires forall k :: IsStored(m, cache[table], k) ==>
      var there := RowOf(m[k])[KeyColumn(cache[table])]; !there.isNull && there.ty == row[KeyColumn(cache[table])].ty
    ensures s == InvalidArgument <==>
      exists k :: IsStored(m, cache[table], k) && RowOf(m[k])[KeyColumn(cache[table])] == row[KeyColumn(cache[table])]
  {
    hide OwnKey;
    hide InScan;
    hide RowPrefix;
    hide FormatKey;
    hide ColumnIndex;
    hide RowOf;
    hide SameText;
    hide Canonical;
    hide Added;
    hide Spells;
    hide Reachable;
    var schema := cache[table];
    var cell := row[KeyColumn(schema)];
    RefusedExactly(num, m, cache, table, row, s, m');
    assert Canonical(cell) by { AddedCanonical(num, m, schema, row, s, m'); }
    forall k | IsStored(m, schema, k)
      ensures SameText(num, RowOf(m[k])[KeyColumn(schema)], cell) <==> RowOf(m[k])[KeyColumn(schema)] == cell
    {
      StoredKeyCell(num, schema, k, m[k]);
      OneTypeOneText(num, RowOf(m[k])[KeyColumn(schema)], cell);
    }
  }

  lemma AddedCanonical(num: Numeric, m: map<Bytes, Bytes>, schema: Schema, row: seq<Value>, s: Status,
      m': map<Bytes, Bytes>)
    requires |row| == |schema.columns| && KeyColumn(schema) >= 0 && Added(num, m, schema, row, s, m')
    ensures Canonical(row[KeyColumn(schema)])
  {
    hide Canonical;
    hide ColumnIndex;
    hide EncodeRow;
  }
}
