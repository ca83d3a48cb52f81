/** Primary keys (src/sql/executor.cpp): when every row is stored under the text of its own key cell, and what
    happens when it is not. */
module PrimaryKeys {
  import opened Bytes
  import opened Codec
  import opened Layers
  import opened Keys
  import opened Values
  import opened Catalog
  import opened Ast
  import opened Eval
  import opened Relation
  import opened Assignments

  /** A stored row whose key is that of its key cell. */
  ghost predicate OwnKey(num: Numeric, schema: Schema, k: Bytes, data: Bytes) {
    IsRow(data, schema) && KeyColumn(schema) >= 0 && k == KeyOf(num, schema, RowOf(data))
  }

  /** Every scanned row of every table is stored under its own key. */
  ghost predicate KeysMatch(num: Numeric, m: map<Bytes, Bytes>, cache: map<Bytes, Schema>) {
    forall n, k :: n in cache && k in m && InScan(RowPrefix(n), k) ==> OwnKey(num, cache[n], k, m[k])
  }

  /** Then no two rows of a table have the same key cell. */
  lemma PrimaryKeyUnique(num: Numeric, m: map<Bytes, Bytes>, cache: map<Bytes, Schema>, table: Bytes, k: Bytes,
      l: Bytes)
    requires KeysMatch(num, m, cache) && table in cache && k in m && l in m
    requires InScan(RowPrefix(table), k) && InScan(RowPrefix(table), l)
    ensures KeyColumn(cache[table]) >= 0
    ensures |RowOf(m[k])| == |cache[table].columns| == |RowOf(m[l])|
    ensures RowOf(m[k])[KeyColumn(cache[table])] == RowOf(m[l])[KeyColumn(cache[table])] ==> k == l
  {
    hide InScan;
    hide FormatKey;
    hide RowPrefix;
    hide ColumnIndex;
    hide DecodeRow;
    hide AllCanonical;
    hide RowOf;
    assert OwnKey(num, cache[table], k, m[k]) && OwnKey(num, cache[table], l, m[l]);
  }

  // ---- Statements that keep it. ----

  /** DELETE and DROP TABLE: rows go. */
  lemma FewerRowsMatch(num: Numeric, m: map<Bytes, Bytes>, m': map<Bytes, Bytes>, cache: map<Bytes, Schema>,
      cache': map<Bytes, Schema>)
    requires KeysMatch(num, m, cache)
    requires forall k :: k in m' ==> k in m && m'[k] == m[k]
    requires forall n :: n in cache' ==> n in cache && cache'[n] == cache[n]
    ensures KeysMatch(num, m', cache')
  {
    hide OwnKey;
    hide InScan;
    hide RowPrefix;
  }

  lemma CounterMatches(num: Numeric, m: map<Bytes, Bytes>, cache: map<Bytes, Schema>, table: Bytes, v: Bytes)
    requires KeysMatch(num, m, cache)
    ensures KeysMatch(num, m[MetaKey(table, NEXT_ROWID) := v], cache)
  {
    hide OwnKey;
    hide InScan;
    hide RowPrefix;
    hide MetaKey;
    forall n ensures !InScan(RowPrefix(n), MetaKey(table, NEXT_ROWID)) { NotMeta(n, table, NEXT_ROWID); }
  }

  /** CREATE TABLE: the new table has no rows. */
  lemma CreateMatches(num: Numeric, m: map<Bytes, Bytes>, cache: map<Bytes, Schema>, s: Schema)
    requires KeysMatch(num, m, cache) && DbOk(m, cache) && s.name !in cache && NameOk(s.name)
    ensures KeysMatch(num, m[CatalogKey(s.name) := EncodeSchema(s)][MetaKey(s.name, NEXT_ROWID) := [0x31]],
      cache[s.name := s])
  {
    hide OwnKey;
    hide InScan;
    hide RowPrefix;
    hide MetaKey;
    hide CatalogKey;
    hide EncodeSchema;
    hide Agree;
    hide NameOk;
    hide IsRow;
    forall n ensures !InScan(RowPrefix(n), CatalogKey(s.name)) && !InScan(RowPrefix(n), MetaKey(s.name, NEXT_ROWID)) {
      CatalogNotRow(n, s.name);
      NotMeta(n, s.name, NEXT_ROWID);
    }
  }

  /** INSERT: the new row is under its own key. */
  lemma InsertMatches(num: Numeric, m: map<Bytes, Bytes>, cache: map<Bytes, Schema>, table: Bytes, row: seq<Value>,
      s: Status, m': map<Bytes, Bytes>)
    requires KeysMatch(num, m, cache) && Agree(m, cache) && table in cache
    requires |row| == |cache[table].columns| < U32_SIZE && KeyColumn(cache[table]) >= 0 &&
      Added(num, m, cache[table], row, s, m')
    ensures KeysMatch(num, m', cache)
  {
    hide OwnKey;
    hide InScan;
    hide RowPrefix;
    hide EncodeRow;
    hide AllCanonical;
    hide ColumnIndex;
    hide Agree;
    hide NameOk;
    hide FormatKey;
    var schema := cache[table];
    var key := KeyOf(num, schema, row);
    NameOfTable(m, cache, table);
    NewRowOwnKey(num, schema, row);
    forall n | n in cache && n != table ensures !InScan(RowPrefix(n), key) {
      NameOfTable(m, cache, n);
      NotInOther(n, table, FormatKey(num, row[KeyColumn(schema)]));
    }
  }

  lemma NewRowOwnKey(num: Numeric, schema: Schema, row: seq<Value>)
    requires AllCanonical(row) && |row| == |schema.columns| < U32_SIZE && KeyColumn(schema) >= 0
    ensures OwnKey(num, schema, KeyOf(num, schema, row), EncodeRow(row))
  {
    hide EncodeRow;
    hide AllCanonical;
    hide IsRow;
    hide RowOf;
    hide KeyOf;
    RowOfEncoded(row, schema);
  }

  lemma NotInOther(n: Bytes, table: Bytes, pk: Bytes)
    requires NameOk(n) && NameOk(table) && n != table
    ensures !InScan(RowPrefix(n), RowKey(table, pk))
  {
    hide InScan;
    hide NameOk;
    RowNotCatalog(table, pk);
    if InScan(RowPrefix(n), RowKey(table, pk)) {
      OtherTable(table, n, RowKey(table, pk));
    }
  }

  // ---- UPDATE. ----

  /** The last assignment to column c, or |sets|. */
  function LastTo(cols: seq<ColumnDef>, sets: seq<Assignment>, c: nat): (j: nat)
    ensures LastSet(cols, sets, c, j)
  {
    if sets == [] then 0
    else
      var n := |sets| - 1;
      if ColumnIndex(cols, sets[n].column) == c then n
      else
        var j := LastTo(cols, sets[..n], c);
        if j == n then n + 1 else j
  }

  /** The key cell the assignments give a row, if any, has the key text of the old one. */
  predicate SameKeyText(num: Numeric, schema: Schema, sets: seq<Assignment>, row: seq<Value>) {
    var c := KeyColumn(schema);
    c >= 0 && |row| == |schema.columns| &&
    FormatKey(num, CellAfter(num, schema.columns, sets, row, c, LastTo(schema.columns, sets, c))) ==
      FormatKey(num, row[c])
  }

  /** An assignment list that does not mention the key column never moves it. */
  lemma KeyNotAssigned(num: Numeric, schema: Schema, sets: seq<Assignment>, row: seq<Value>)
    requires KeyColumn(schema) >= 0 && |row| == |schema.columns|
    requires forall i :: 0 <= i < |sets| ==> ColumnIndex(schema.columns, sets[i].column) != KeyColumn(schema)
    ensures SameKeyText(num, schema, sets, row)
  {
    hide ColumnIndex;
    hide FormatKey;
    hide LastTo;
    var j := LastTo(schema.columns, sets, KeyColumn(schema));
  }

  lemma RewrittenOwnKey(num: Numeric, schema: Schema, sets: seq<Assignment>, k: Bytes, data: Bytes)
    requires NumericOk(num) && ValuesOk(sets) && OwnKey(num, schema, k, data)
    ensures OwnKey(num, schema, k, NewRow(num, sets, schema, data)) <==> SameKeyText(num, schema, sets, RowOf(data))
  {
    hide NumericOk;
    hide RowOf;
    hide NewRow;
    hide Assigned;
    hide AllCanonical;
    hide FormatKey;
    hide ColumnIndex;
    hide DecodeRow;
    hide LastTo;
    hide CellAfter;
    NewRowIs(num, sets, schema, data);
    UpdateKeepsKey(num, schema, sets, RowOf(data), LastTo(schema.columns, sets, KeyColumn(schema)));
  }

  /** UPDATE never moves a row: afterwards all rows are still under their own keys if and only if every row the
      WHERE selects is given a key cell with its old key text. */
  lemma UpdateMatchesExactly(num: Numeric, sets: seq<Assignment>, w: Where, m: map<Bytes, Bytes>, cache: map<Bytes,
      Schema>, table: Bytes)
    requires NumericOk(num) && ValuesOk(sets) && WhereOk(w) && DbOk(m, cache) && table in cache &&
      KeysMatch(num, m, cache)
    ensures KeysMatch(num, Rewritten(m, table, Updater(num, sets, w, cache[table])), cache) <==>
      forall k :: k in m && InScan(RowPrefix(table), k) && Selects(num, w, cache[table], m[k]) ==>
        SameKeyText(num, cache[table], sets, RowOf(m[k]))
  {
    hide NumericOk;
    hide OwnKey;
    hide InScan;
    hide RowPrefix;
    hide Updater;
    hide Selects;
    hide SameKeyText;
    hide DbOk;
    hide RowOf;
    hide NewRow;
    hide IsRow;
    var schema, f := cache[table], Updater(num, sets, w, cache[table]);
    var m' := Rewritten(m, table, f);
    forall k | k in m && InScan(RowPrefix(table), k)
      ensures OwnKey(num, schema, k, m'[k]) <==>
        (Selects(num, w, schema, m[k]) ==> SameKeyText(num, schema, sets, RowOf(m[k])))
    {
      RowIsOk(m, cache, table, k);
      UpdaterSelects(num, sets, w, schema, m[k]);
      RewrittenOwnKey(num, schema, sets, k, m[k]);
    }
    TableNames(m, cache);
    forall n, k | n in cache && n != table && k in m && InScan(RowPrefix(n), k) ensures m'[k] == m[k] {
      OtherTable(table, n, k);
    }
  }

  lemma UpdaterSelects(num: Numeric, sets: seq<Assignment>, w: Where, schema: Schema, d: Bytes)
    requires NumericOk(num) && ValuesOk(sets) && WhereOk(w) && IsRow(d, schema)
    ensures Updater(num, sets, w, schema)(d) == if Selects(num, w, schema, d) then
      Some(NewRow(num, sets, schema, d)) else None
  {
    hide NumericOk;
    hide IsRow;
    hide NewRow;
    hide Selects;
  }

  lemma TableNames(m: map<Bytes, Bytes>, cache: map<Bytes, Schema>)
    requires DbOk(m, cache)
    ensures forall n :: n in cache ==> NameOk(n)
  {
    hide NameOk;
    hide SchemaFits;
    forall n | n in cache ensures NameOk(n) { NameOfTable(m, cache, n); }
  }

  // ---- A failing UPDATE. ----

  const ID: Bytes := [0x69, 0x64]

  /** Table t with the one column id INT PRIMARY KEY. */
  const T: Schema := Schema([0x74], [ColumnDef(ID, INT, true, true)], ID)

  function One(n: int): seq<Value> { [MakeInt(n)] }

  lemma IdColumn()
    ensures ColumnIndex(T.columns, ID) == 0 && KeyColumn(T) == 0 && |T.columns| == 1
  {
    assert T.columns[0].name == ID;
  }

  lemma OneCanonical(n: int)
    requires 0 <= n < 10
    ensures AllCanonical(One(n))
  {
  }

  /** Different integers have different keys. */
  lemma OneKeys(num: Numeric, a: int, b: int)
    ensures KeyColumn(T) == 0
    ensures KeyOf(num, T, One(a)) == KeyOf(num, T, One(b)) ==> a == b
    ensures InScan(RowPrefix(T.name), KeyOf(num, T, One(a)))
  {
    hide FormatInt;
    hide InScan;
    hide ColumnIndex;
    IdColumn();
    SameRowKey(T.name, FormatInt(a), FormatInt(b));
    if FormatInt(a) == FormatInt(b) {
      FormatIntInjective(a, b);
    }
    RowInScan(T.name, FormatInt(a));
    IntKeyReachable(a);
  }

  /** INSERT INTO t VALUES (n) is planned as the row (n). */
  lemma OnePlan(num: Numeric, n: int)
    ensures PlanInsert(num, T, [], One(n)) == WithKey(One(n))
  {
    hide ColumnIndex;
    IdColumn();
    var cols := ColumnsFor(T, []);
    assert cols == [ID];
    var sets := Zip(cols, One(n));
    assert sets == [Assignment(ID, MakeInt(n))] && sets[..0] == [];
    assert Nulls(T.columns) == [MakeNull(INT)];
    assert Assigned(num, T.columns, sets, Nulls(T.columns)) == One(n);
    assert ID in cols;
  }

  /** `UPDATE t SET id = 2` on the row 1. */
  const SET_TWO: seq<Assignment> := [Assignment(ID, MakeInt(2))]

  lemma SetTwo(num: Numeric, n: int)
    ensures |T.columns| == 1 && Assigned(num, T.columns, SET_TWO, One(n)) == One(2)
  {
    hide ColumnIndex;
    IdColumn();
    assert SET_TWO[..0] == [];
  }

  /** It leaves the row under key 1 with id 2. Then INSERT of 2 is accepted, so that two rows have id 2, and
      INSERT of 1 is refused, although no row has id 1. */
  lemma UpdateBreaksKeys(num: Numeric)
    requires NumericOk(num)
    ensures KeyColumn(T) == 0 && AllCanonical(One(1)) && AllCanonical(One(2)) && ValuesOk(SET_TWO)
    ensures var k1, k2 := KeyOf(num, T, One(1)), KeyOf(num, T, One(2));
      var m := map[k1 := EncodeRow(One(1))];
      var m' := Rewritten(m, T.name, Updater(num, SET_TWO, NO_WHERE, T));
      && m' == map[k1 := EncodeRow(One(2))]
      && PlanInsert(num, T, [], One(2)) == WithKey(One(2)) && Added(num, m', T, One(2), OK, m'[k2 := EncodeRow(One(2))])
      && k1 != k2 && RowOf(m'[k1]) == One(2) && RowOf(m'[k2 := EncodeRow(One(2))][k2]) == One(2)
      && PlanInsert(num, T, [], One(1)) == WithKey(One(1)) && Added(num, m', T, One(1), InvalidArgument, m')
  {
    hide EncodeRow;
    hide RowOf;
    hide InScan;
    hide KeyOf;
    hide ColumnIndex;
    hide NumericOk;
    hide PlanInsert;
    hide Assigned;
    hide NewRow;
    hide IsRow;
    hide Updater;
    hide RowPrefix;
    IdColumn();
    OneCanonical(1);
    OneCanonical(2);
    OneKeys(num, 1, 2);
    OneKeys(num, 2, 1);
    OnePlan(num, 1);
    OnePlan(num, 2);
    RowOfEncoded(One(1), T);
    RowOfEncoded(One(2), T);
    SetTwo(num, 1);
    var d := EncodeRow(One(1));
    NewRowIs(num, SET_TWO, T, d);
    UpdaterAt(num, SET_TWO, NO_WHERE, T, d);
  }
}
