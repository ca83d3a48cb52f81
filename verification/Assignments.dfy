/** Assigning values to columns: what UPDATE and INSERT do to a row (src/sql/executor.cpp). */
module Assignments {
  import opened Bytes
  import opened Codec
  import opened Layers
  import opened Keys
  import opened Values
  import opened Catalog
  import opened Ast
  import opened Eval
  import opened Relation

  predicate AllKnown(cols: seq<ColumnDef>, sets: seq<Assignment>) {
    forall i :: 0 <= i < |sets| ==> ColumnIndex(cols, sets[i].column) >= 0
  }

  /** A row after assignments, first to last. */
  function Assigned(num: Numeric, cols: seq<ColumnDef>, sets: seq<Assignment>, row: seq<Value>): (r: seq<Value>)
    requires |row| == |cols|
    ensures |r| == |row|
  {
    if sets == [] then row
    else
      var r, last := Assigned(num, cols, sets[..|sets| - 1], row), sets[|sets| - 1];
      var i := ColumnIndex(cols, last.column);
      if i < 0 then r else r[i := Coerce(num, last.value, cols[i].ty)]
  }

  /** Assignment j is the last one to column c; j == |sets| says that there is none. */
  predicate LastSet(cols: seq<ColumnDef>, sets: seq<Assignment>, c: nat, j: nat) {
    && j <= |sets| && (j < |sets| ==> ColumnIndex(cols, sets[j].column) == c)
    && (forall k :: 0 <= k < |sets| && (j == |sets| || k > j) ==> ColumnIndex(cols, sets[k].column) != c)
  }

  /** A cell holds the coerced value of the last assignment to its column; without one it is as before. */
  lemma {:induction false} AssignedCell(num: Numeric, cols: seq<ColumnDef>, sets: seq<Assignment>, row: seq<Value>,
      c: nat, j: nat)
    requires |row| == |cols| && c < |cols| && LastSet(cols, sets, c, j)
    ensures Assigned(num, cols, sets, row)[c] == if j < |sets| then Coerce(num, sets[j].value, cols[c].ty) else row[c]
  {
    hide Coerce;
    hide ColumnIndex;
    if sets != [] {
      var n := |sets| - 1;
      if j != n {
        AssignedCell(num, cols, sets[..n], row, c, if j < n then j else n);
      }
    }
  }

  lemma {:induction false} AssignedCanonical(num: Numeric, cols: seq<ColumnDef>, sets: seq<Assignment>, row: seq<Value>)
    requires NumericOk(num) && ValuesOk(sets) && AllCanonical(row) && |row| == |cols|
    ensures AllCanonical(Assigned(num, cols, sets, row))
  {
    hide NumericOk;
    hide Coerce;
    hide Canonical;
    hide ColumnIndex;
    if sets != [] {
      var last := sets[|sets| - 1];
      AssignedCanonical(num, cols, sets[..|sets| - 1], row);
      var i := ColumnIndex(cols, last.column);
      if i >= 0 {
        CoerceCanonical(num, last.value, cols[i].ty);
      }
    }
  }

  /** The assignment loop of `exec_update`; None for an unknown column. */
  method AssignAll(num: Numeric, cols: seq<ColumnDef>, sets: seq<Assignment>, row: seq<Value>)
    returns (r: Option<seq<Value>>)
    requires |row| == |cols|
    ensures r == if AllKnown(cols, sets) then Some(Assigned(num, cols, sets, row)) else None
  {
    hide Coerce;
    hide ColumnIndex;
    var cells := row;
    for i := 0 to |sets|
      invariant |cells| == |cols| && cells == Assigned(num, cols, sets[..i], row)
      invariant forall k :: 0 <= k < i ==> ColumnIndex(cols, sets[k].column) >= 0
    {
      assert sets[..i + 1][..i] == sets[..i];
      var c := FindColumn(cols, sets[i].column);
      if c < 0 {
        return None;
      }
      cells := cells[c := Coerce(num, sets[i].value, cols[c].ty)];
    }
    assert sets[..|sets|] == sets;
    r := Some(cells);
  }

  // ---- UPDATE. ----

  /** The stored bytes of a row after UPDATE. */
  ghost function NewRow(num: Numeric, sets: seq<Assignment>, schema: Schema, data: Bytes): Bytes
    requires NumericOk(num) && ValuesOk(sets) && IsRow(data, schema)
  {
    AssignedCanonical(num, schema.columns, sets, RowOf(data));
    EncodeRow(Assigned(num, schema.columns, sets, RowOf(data)))
  }

  lemma NewRowIs(num: Numeric, sets: seq<Assignment>, schema: Schema, data: Bytes)
    requires NumericOk(num) && ValuesOk(sets) && IsRow(data, schema)
    ensures AllCanonical(Assigned(num, schema.columns, sets, RowOf(data)))
    ensures NewRow(num, sets, schema, data) == EncodeRow(Assigned(num, schema.columns, sets, RowOf(data)))
    ensures IsRow(NewRow(num, sets, schema, data), schema)
    ensures RowOf(NewRow(num, sets, schema, data)) == Assigned(num, schema.columns, sets, RowOf(data))
  {
    hide RowOf;
    hide Assigned;
    hide EncodeRow;
    hide AllCanonical;
    hide DecodeRow;
    hide NumericOk;
    AssignedCanonical(num, schema.columns, sets, RowOf(data));
    RowOfEncoded(Assigned(num, schema.columns, sets, RowOf(data)), schema);
  }

  /** UPDATE as a function on stored rows. */
  ghost function Updater(num: Numeric, sets: seq<Assignment>, w: Where, schema: Schema): Bytes -> Option<Bytes>
    requires NumericOk(num) && ValuesOk(sets) && WhereOk(w)
  {
    d => if IsRow(d, schema) && Selects(num, w, schema, d) then Some(NewRow(num, sets, schema, d)) else None
  }

  lemma UpdaterAt(num: Numeric, sets: seq<Assignment>, w: Where, schema: Schema, d: Bytes)
    requires NumericOk(num) && ValuesOk(sets) && WhereOk(w) && IsRow(d, schema)
    ensures Updater(num, sets, w, schema)(d) ==
      if Satisfies(num, w, schema.columns, RowOf(d)) then Some(NewRow(num, sets, schema, d)) else None
  {
    hide Satisfies;
    hide IsRow;
    hide NewRow;
    hide NumericOk;
  }

  lemma UpdaterKeepsRows(num: Numeric, sets: seq<Assignment>, w: Where, schema: Schema)
    requires NumericOk(num) && ValuesOk(sets) && WhereOk(w)
    ensures forall d :: IsRow(d, schema) && Updater(num, sets, w, schema)(d).Some? ==>
      IsRow(Updater(num, sets, w, schema)(d).value, schema)
  {
    hide Satisfies;
    hide IsRow;
    hide NewRow;
    hide NumericOk;
    forall d | IsRow(d, schema) &&
      Updater(num, sets, w, schema)(d).Some? ensures IsRow(Updater(num, sets, w, schema)(d).value, schema) {
      NewRowIs(num, sets, schema, d);
    }
  }

  /** After UPDATE, a row of the table that matched holds the assigned cells; every other row of it is unchanged. */
  lemma UpdateExact(num: Numeric, sets: seq<Assignment>, w: Where, m: map<Bytes, Bytes>, cache: map<Bytes, Schema>,
      table: Bytes, k: Bytes)
    requires NumericOk(num) && ValuesOk(sets) && WhereOk(w) && DbOk(m, cache) && table in cache
    requires k in m && InScan(RowPrefix(table), k)
    ensures |RowOf(m[k])| == |cache[table].columns|
    ensures var m' := Rewritten(m, table, Updater(num, sets, w, cache[table]));
      k in m' && RowOf(m'[k]) ==
        if Satisfies(num, w, cache[table].columns, RowOf(m[k])) then
          Assigned(num, cache[table].columns, sets, RowOf(m[k]))
        else RowOf(m[k])
  {
    hide Satisfies;
    hide RowOf;
    hide Assigned;
    hide AllCanonical;
    hide NewRow;
    hide NumericOk;
    hide DbOk;
    hide Updater;
    hide InScan;
    RowIsOk(m, cache, table, k);
    UpdaterAt(num, sets, w, cache[table], m[k]);
    NewRowIs(num, sets, cache[table], m[k]);
  }

  /** The cell UPDATE leaves in a column: the coerced value assigned last, or the old one. */
  function CellAfter(num: Numeric, cols: seq<ColumnDef>, sets: seq<Assignment>, row: seq<Value>, c: nat, j: nat): Value
    requires |row| == |cols| && c < |cols| && LastSet(cols, sets, c, j)
  {
    if j < |sets| then Coerce(num, sets[j].value, cols[c].ty) else row[c]
  }

  /** UPDATE never moves a row, so the stored key still belongs to the key column if and only if the key
      cell it assigns, if any, has the same key text. */
  lemma UpdateKeepsKey(num: Numeric, schema: Schema, sets: seq<Assignment>, row: seq<Value>, j: nat)
    requires |row| == |schema.columns| && KeyColumn(schema) >= 0 && LastSet(schema.columns, sets, KeyColumn(schema), j)
    ensures KeyOf(num, schema, Assigned(num, schema.columns, sets, row)) == KeyOf(num, schema, row) <==>
      FormatKey(num, CellAfter(num, schema.columns, sets, row, KeyColumn(schema), j)) ==
        FormatKey(num, row[KeyColumn(schema)])
    ensures j == |sets| ==> KeyOf(num, schema, Assigned(num, schema.columns, sets, row)) == KeyOf(num, schema, row)
  {
    hide Coerce;
    hide ColumnIndex;
    hide Assigned;
    hide FormatKey;
    var c := KeyColumn(schema);
    AssignedCell(num, schema.columns, sets, row, c, j);
    var x, y := FormatKey(num, Assigned(num, schema.columns, sets, row)[c]), FormatKey(num, row[c]);
    SameRowKey(schema.name, x, y);
  }

  lemma SameRowKey(table: Bytes, x: Bytes, y: Bytes)
    ensures RowKey(table, x) == RowKey(table, y) <==> x == y
  {
    assert RowKey(table, x)[|RowPrefix(table)|..] == x && RowKey(table, y)[|RowPrefix(table)|..] == y;
  }

  // ---- INSERT. ----

  function ColumnNames(cols: seq<ColumnDef>): (r: seq<Bytes>)
    ensures |r| == |cols|
  {
    seq(|cols|, i requires 0 <= i < |cols| => cols[i].name)
  }

  /** The columns an INSERT gives values for: all of them when it names none. */
  function ColumnsFor(schema: Schema, names: seq<Bytes>): seq<Bytes> {
    if names == [] then ColumnNames(schema.columns) else names
  }

  function Zip(cols: seq<Bytes>, values: seq<Value>): (r: seq<Assignment>)
    requires |cols| == |values|
    ensures |r| == |cols|
  {
    seq(|cols|, i requires 0 <= i < |cols| => Assignment(cols[i], values[i]))
  }

  function Nulls(cols: seq<ColumnDef>): (r: seq<Value>)
    ensures |r| == |cols| && AllCanonical(r)
  {
    seq(|cols|, i requires 0 <= i < |cols| => MakeNull(cols[i].ty))
  }

  predicate NotNullOk(cols: seq<ColumnDef>, row: seq<Value>)
    requires |row| == |cols|
  {
    forall i :: 0 <= i < |cols| ==> !(cols[i].notNull && row[i].isNull)
  }

  function KeyColumn(schema: Schema): int {
    ColumnIndex(schema.columns, schema.pk)
  }

  /** The outcome of the checks that do not look at the store. */
  datatype Plan = Rejected | WithKey(row: seq<Value>) | AutoKey(row: seq<Value>)

  /** INSERT assigns its values to a row of NULLs; then come the NOT NULL check and the key. */
  function PlanInsert(num: Numeric, schema: Schema, names: seq<Bytes>, values: seq<Value>): (p: Plan)
    ensures p.WithKey? || p.AutoKey? ==> |p.row| == |schema.columns| && KeyColumn(schema) >= 0
  {
    var cols := ColumnsFor(schema, names);
    if |cols| != |values| || !AllKnown(schema.columns, Zip(cols, values)) then Rejected
    else
      var row := Assigned(num, schema.columns, Zip(cols, values), Nulls(schema.columns));
      if !NotNullOk(schema.columns, row) then Rejected
      else if schema.pk in cols then
        assert KeyColumn(schema) >= 0 by { var i :| 0 <= i < |cols| &&
          cols[i] == schema.pk; assert Zip(cols, values)[i].column == schema.pk; }
        WithKey(row)
      else if KeyColumn(schema) >= 0 && schema.columns[KeyColumn(schema)].ty == INT then AutoKey(row)
      else Rejected
  }

  lemma PlanCanonical(num: Numeric, schema: Schema, names: seq<Bytes>, values: seq<Value>)
    requires NumericOk(num) && AllCanonical(values)
    ensures var p := PlanInsert(num, schema, names, values); p != Rejected ==> AllCanonical(p.row)
  {
    hide NumericOk;
    hide Canonical;
    hide Assigned;
    hide ColumnIndex;
    var cols := ColumnsFor(schema, names);
    if |cols| == |values| {
      AssignedCanonical(num, schema.columns, Zip(cols, values), Nulls(schema.columns));
    }
  }

  /** The key of a row. */
  function KeyOf(num: Numeric, schema: Schema, row: seq<Value>): Bytes
    requires |row| == |schema.columns| && KeyColumn(schema) >= 0
  {
    RowKey(schema.name, FormatKey(num, row[KeyColumn(schema)]))
  }

  /** `next_row_id`: the counter, 1 when it is missing or does not parse. */
  function NextId(num: Numeric, m: map<Bytes, Bytes>, table: Bytes): nat {
    match Layers.Get(m, MetaKey(table, NEXT_ROWID))
    case None => 1
    case Some(v) => if num.parseId(v).Some? then num.parseId(v).value else 1
  }

  function Bumped(num: Numeric, m: map<Bytes, Bytes>, table: Bytes): map<Bytes, Bytes> {
    m[MetaKey(table, NEXT_ROWID) := ShowInt((NextId(num, m, table) + 1) % U64_SIZE)]
  }

  function Keyed(num: Numeric, m: map<Bytes, Bytes>, schema: Schema, row: seq<Value>): (r: seq<Value>)
    requires |row| == |schema.columns| && KeyColumn(schema) >= 0
    ensures |r| == |row|
  {
    row[KeyColumn(schema) := MakeInt(Signed(NextId(num, m, schema.name)))]
  }

  lemma KeyedCanonical(num: Numeric, m: map<Bytes, Bytes>, schema: Schema, row: seq<Value>)
    requires NumericOk(num) && |row| == |schema.columns| && KeyColumn(schema) >= 0 && AllCanonical(row)
    ensures NextId(num, m, schema.name) < U64_SIZE
    ensures AllCanonical(Keyed(num, m, schema, row))
  {
    hide Canonical;
    hide ColumnIndex;
    var id := NextId(num, m, schema.name);
    assert Canonical(MakeInt(Signed(id))) by { IdCanonical(id); }
  }

  lemma IdCanonical(id: nat)
    requires id < U64_SIZE
    ensures Canonical(MakeInt(Signed(id)))
  {
  }

  lemma KeyedIs(num: Numeric, m: map<Bytes, Bytes>, schema: Schema, row: seq<Value>)
    requires |row| == |schema.columns| && KeyColumn(schema) >= 0
    ensures KeyColumn(schema) == ColumnIndex(schema.columns, schema.pk)
    ensures var id := MakeInt(Signed(NextId(num, m, schema.name)));
      Keyed(num, m, schema, row) == row[KeyColumn(schema) := id] && Keyed(num, m, schema, row)[KeyColumn(schema)] == id
  {
    hide ColumnIndex;
    hide NextId;
  }

  /** A row was added to m under its own key, unless that key was taken. */
  ghost predicate Added(num: Numeric, m: map<Bytes, Bytes>, schema: Schema, row: seq<Value>, s: Status, m': map<Bytes,
      Bytes>)
    requires |row| == |schema.columns| && KeyColumn(schema) >= 0
  {
    && AllCanonical(row)
    && if KeyOf(num, schema, row) in m then s == InvalidArgument && m' == m
       else s == OK && m' == m[KeyOf(num, schema, row) := EncodeRow(row)]
  }

  /** The loops of `exec_insert` that do not look at the store. */
  method MakePlan(num: Numeric, schema: Schema, names: seq<Bytes>, values: seq<Value>) returns (p: Plan, pk: Value)
    ensures p == PlanInsert(num, schema, names, values)
    ensures p.WithKey? ==> pk == p.row[KeyColumn(schema)]
  {
    hide Coerce;
    hide ColumnIndex;
    hide Assigned;
    var cols := ColumnsFor(schema, names);
    pk := MakeNull(TEXT);
    if |cols| != |values| {
      return Rejected, pk;
    }
    var row, hasKey, known;
    row, pk, hasKey, known := FillRow(num, schema, cols, values);
    if !known {
      return Rejected, pk;
    }
    for i := 0 to |schema.columns|
      invariant forall k :: 0 <= k < i ==> !(schema.columns[k].notNull && row[k].isNull)
    {
      if schema.columns[i].notNull && row[i].isNull {
        return Rejected, pk;
      }
    }
    if hasKey {
      return WithKey(row), pk;
    }
    var k := FindColumn(schema.columns, schema.pk);
    p := if k >= 0 && schema.columns[k].ty == INT then AutoKey(row) else Rejected;
  }

  /** The filling loop, which also remembers the value given for the key column. */
  method FillRow(num: Numeric, schema: Schema, cols: seq<Bytes>, values: seq<Value>)
    returns (row: seq<Value>, pk: Value, hasKey: bool, known: bool)
    requires |cols| == |values|
    ensures known <==> AllKnown(schema.columns, Zip(cols, values))
    ensures known ==> row == Assigned(num, schema.columns, Zip(cols, values), Nulls(schema.columns))
    ensures known ==> (hasKey <==> schema.pk in cols)
    ensures known && hasKey ==> 0 <= KeyColumn(schema) && pk == row[KeyColumn(schema)]
  {
    hide Coerce;
    hide ColumnIndex;
    ghost var sets := Zip(cols, values);
    row, pk, hasKey, known := Nulls(schema.columns), MakeNull(TEXT), false, true;
    for i := 0 to |cols|
      invariant |row| == |schema.columns| && row == Assigned(num, schema.columns, sets[..i], Nulls(schema.columns))
      invariant forall k :: 0 <= k < i ==> ColumnIndex(schema.columns, sets[k].column) >= 0
      invariant hasKey <==> schema.pk in cols[..i]
      invariant hasKey ==> 0 <= KeyColumn(schema) && pk == row[KeyColumn(schema)]
    {
      assert sets[..i + 1][..i] == sets[..i];
      assert cols[..i + 1] == cols[..i] + [cols[i]];
      var c := FindColumn(schema.columns, cols[i]);
      if c < 0 {
        assert sets[i].column == cols[i];
        return row, pk, hasKey, false;
      }
      var v := Coerce(num, values[i], schema.columns[c].ty);
      row := row[c := v];
      if cols[i] == schema.pk {
        pk, hasKey := v, true;
      }
    }
    assert sets[..|sets|] == sets && cols[..|cols|] == cols;
  }

  /** The columns the primary key names are marked NOT NULL, as the parser of CREATE TABLE does. */
  predicate KeyMarked(schema: Schema) {
    forall i :: 0 <= i < |schema.columns| && schema.columns[i].name == schema.pk ==> schema.columns[i].notNull
  }

  /** A table made by CREATE TABLE never gets a generated key: its key column is NOT NULL, and that check comes first.
      */
  lemma AutoKeyUnreachable(num: Numeric, schema: Schema, names: seq<Bytes>, values: seq<Value>)
    requires KeyMarked(schema)
    ensures !PlanInsert(num, schema, names, values).AutoKey?
  {
    hide Coerce;
    var cols := ColumnsFor(schema, names);
    if |cols| == |values| && KeyColumn(schema) >= 0 && schema.pk !in cols {
      var sets := Zip(cols, values);
      forall j | 0 <= j < |sets| ensures ColumnIndex(schema.columns, sets[j].column) != KeyColumn(schema) {
        assert sets[j].column in cols;
      }
      AssignedCell(num, schema.columns, sets, Nulls(schema.columns), KeyColumn(schema), |sets|);
    }
  }

  /** The cells of an inserted row: the coerced value given last for the column, NULL where none is given. */
  lemma InsertedCell(num: Numeric, schema: Schema, names: seq<Bytes>, values: seq<Value>, c: nat, j: nat)
    requires |ColumnsFor(schema, names)| == |values| && c < |schema.columns|
    requires LastSet(schema.columns, Zip(ColumnsFor(schema, names), values), c, j)
    ensures PlanInsert(num, schema, names, values).WithKey? ==>
      PlanInsert(num, schema, names, values).row[c] ==
        if j < |values| then Coerce(num, values[j], schema.columns[c].ty) else MakeNull(schema.columns[c].ty)
  {
    hide Coerce;
    hide ColumnIndex;
    hide Assigned;
    AssignedCell(num, schema.columns, Zip(ColumnsFor(schema, names), values), Nulls(schema.columns), c, j);
  }

  lemma {:induction false} PaddedHead(n: nat, w: nat)
    requires n > 0 || w > 0
    ensures PaddedDigits(n, w) != [] && ZERO <= PaddedDigits(n, w)[0] <= ZERO + 9
    decreases n, w
  {
    if n == 0 {
      FixedZero(w);
    } else {
      var v := if w == 0 then 0 else w - 1;
      if n / 10 > 0 || v > 0 {
        PaddedHead(n / 10, v);
      } else {
        assert PaddedDigits(n / 10, v) == [];
      }
    }
  }

  /** Integer keys are always reachable. */
  lemma IntKeyReachable(n: int)
    ensures Reachable(FormatInt(n))
  {
    hide PaddedDigits;
    if n >= 0 {
      PaddedHead(n, 10);
    }
  }

  /** An inserted row reads back; it is scanned exactly when its key text is reachable. */
  lemma InsertVisible(num: Numeric, m: map<Bytes, Bytes>, schema: Schema, row: seq<Value>)
    requires |row| == |schema.columns| < U32_SIZE && KeyColumn(schema) >= 0 && AllCanonical(row)
    ensures var m' := m[KeyOf(num, schema, row) := EncodeRow(row)];
      && RowOf(m'[KeyOf(num, schema, row)]) == row
      && (InScan(RowPrefix(schema.name), KeyOf(num, schema, row)) <==>
          Reachable(FormatKey(num, row[KeyColumn(schema)])))
      && (row[KeyColumn(schema)].ty == INT ==> Reachable(FormatKey(num, row[KeyColumn(schema)])))
  {
    hide RowOf;
    hide EncodeRow;
    hide AllCanonical;
    hide IsRow;
    hide InScan;
    hide FormatInt;
    hide Reachable;
    hide ColumnIndex;
    RowOfEncoded(row, schema);
    RowInScan(schema.name, FormatKey(num, row[KeyColumn(schema)]));
    IntKeyReachable(row[KeyColumn(schema)].intVal);
  }
}
