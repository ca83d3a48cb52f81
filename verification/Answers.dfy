/** What a SELECT returns (src/sql/executor.cpp): which rows, how many, in which order, with which cells. */
module Answers {
  import opened Bytes
  import opened Codec
  import opened Entries
  import opened Keys
  import opened Values
  import opened Catalog
  import opened Ast
  import opened Eval
  import opened Comparisons
  import opened Ordering
  import opened Relation
  import opened Assignments
  import opened Selection
  import opened NotNull

  /** `out` shows a stored row under these titles: all its cells for `*`, or for each title the cell of the first
      column of that name. */
  ghost predicate Shows(q: Statement, cols: seq<ColumnDef>, titles: seq<Bytes>, out: Row, row: Row)
    requires q.Select?
  {
    if q.all || q.names == [] then out == row
    else |out| == |titles| && forall i :: 0 <= i < |titles| ==> IsCell(cols, row, titles[i], out[i])
  }

  lemma ProjectedShows(q: Statement, cols: seq<ColumnDef>, row: Row)
    requires q.Select? && |row| == |cols| && Positions(cols, q.all, q.names).Some?
    ensures Shows(q, cols, Titles(cols, q.all, q.names), Project(Positions(cols, q.all, q.names).value, row), row)
  {
    hide ColumnIndex;
    var idx, titles := Positions(cols, q.all, q.names).value, Titles(cols, q.all, q.names);
    var out := Project(idx, row);
    if q.all || q.names == [] {
      assert out == row;
    } else {
      forall i | 0 <= i < |titles| ensures IsCell(cols, row, titles[i], out[i]) {
        assert cols[idx[i]].name == titles[i] && row[idx[i]] == out[i];
      }
    }
  }

  // ---- The selected rows in key order. ----

  /** The keys of the selected rows, in the order of the scan. */
  ghost function HitKeys(p: Bytes -> bool, rows: seq<Entry>): (ks: seq<Bytes>)
  {
    if rows == [] then []
    else
      var e := rows[|rows| - 1];
      HitKeys(p, rows[..|rows| - 1]) + if Hit(p, e) then [e.key] else []
  }

  ghost predicate KeyAscending(ks: seq<Bytes>) {
    forall i, j :: 0 <= i < j < |ks| ==> Less(ks[i], ks[j])
  }

  lemma {:induction false} HitKeysBelow(p: Bytes -> bool, rows: seq<Entry>)
    requires StrictlySorted(rows)
    ensures KeyAscending(HitKeys(p, rows))
    ensures forall k :: k in HitKeys(p, rows) ==> exists i :: 0 <= i < |rows| && rows[i].key == k
  {
    hide Less;
    if rows != [] {
      var n := |rows| - 1;
      var ks := HitKeys(p, rows[..n]);
      HitKeysBelow(p, rows[..n]);
      forall i | 0 <= i < |ks| ensures Less(ks[i], rows[n].key) {
        assert ks[i] in ks;
        var j :| 0 <= j < n && rows[..n][j].key == ks[i];
      }
      forall k | k in HitKeys(p, rows) ensures exists i :: 0 <= i < |rows| && rows[i].key == k {
        if k in ks {
          var j :| 0 <= j < n && rows[..n][j].key == k;
          assert rows[j].key == k;
        } else {
          assert rows[n].key == k;
        }
      }
    }
  }

  lemma {:induction false} HitKeysFrom(p: Bytes -> bool, rows: seq<Entry>, k: Bytes)
    ensures k in HitKeys(p, rows) <==> exists i :: 0 <= i < |rows| && Hit(p, rows[i]) && rows[i].key == k
  {
    if rows != [] {
      var n := |rows| - 1;
      HitKeysFrom(p, rows[..n], k);
      if i :| 0 <= i < n && Hit(p, rows[..n][i]) && rows[..n][i].key == k {
        assert Hit(p, rows[i]);
      }
      if i :| 0 <= i < n && Hit(p, rows[i]) && rows[i].key == k {
        assert Hit(p, rows[..n][i]);
      }
      assert Hit(p, rows[n]) || !Hit(p, rows[n]);
    }
  }

  lemma {:induction false} PickedAt(p: Bytes -> bool, idx: seq<nat>, rows: seq<Entry>, m: map<Bytes, Bytes>)
    requires forall i :: 0 <= i < |rows| ==> rows[i].key in m && rows[i].val == Some(m[rows[i].key])
    ensures |Picked(p, idx, rows)| == |HitKeys(p, rows)|
    ensures forall i :: 0 <= i < |HitKeys(p, rows)| ==>
      HitKeys(p, rows)[i] in m && Picked(p, idx, rows)[i] == Project(idx, RowOf(m[HitKeys(p, rows)[i]]))
  {
    hide RowOf;
    hide Project;
    if rows != [] {
      PickedAt(p, idx, rows[..|rows| - 1], m);
    }
  }

  /** The keys of the rows a SELECT picks: each once, ascending. */
  ghost predicate SelectedList(ks: seq<Bytes>, m: map<Bytes, Bytes>, table: Bytes, p: Bytes -> bool) {
    KeyAscending(ks) && forall k :: k in ks <==> k in SelectedIn(m, table, p)
  }

  lemma HitKeysSelected(p: Bytes -> bool, idx: seq<nat>, rows: seq<Entry>, m: map<Bytes, Bytes>, table: Bytes)
    requires ScanOf(rows, m, table)
    ensures SelectedList(HitKeys(p, rows), m, table, p)
    ensures |Picked(p, idx, rows)| == |HitKeys(p, rows)| == |SelectedIn(m, table, p)|
    ensures forall i :: 0 <= i < |HitKeys(p, rows)| ==>
      HitKeys(p, rows)[i] in m && Picked(p, idx, rows)[i] == Project(idx, RowOf(m[HitKeys(p, rows)[i]]))
  {
    hide ScanOf;
    hide InScan;
    hide RowOf;
    hide Project;
    hide Picked;
    hide HitKeys;
    hide KeyAscending;
    hide StrictlySorted;
    ScanIsLive(rows, m, table);
    HitKeysBelow(p, rows);
    PickedCount(p, idx, rows, m, table);
    forall i | 0 <= i < |rows| ensures rows[i].key in m && rows[i].val == Some(m[rows[i].key]) {
      ScannedRow(rows, m, table, i);
    }
    PickedAt(p, idx, rows, m);
    forall k ensures k in HitKeys(p, rows) <==> k in SelectedIn(m, table, p) {
      HitKeysFrom(p, rows, k);
      if k in SelectedIn(m, table, p) {
        var i := RowScanned(rows, m, table, k);
        ScannedRow(rows, m, table, i);
        assert Hit(p, rows[i]);
      }
      if i :| 0 <= i < |rows| && Hit(p, rows[i]) && rows[i].key == k {
        ScannedRow(rows, m, table, i);
      }
    }
  }

  // ---- The answer. ----

  /** How many of n selected rows a LIMIT lets through; a negative one is none. */
  function Count(limit: int, n: nat): nat {
    if 0 <= limit < n then limit else n
  }

  lemma LimitedIs(s: seq<Row>, limit: int)
    ensures |Limited(s, limit)| == Count(limit, |s|) && Limited(s, limit) <= s
  {
  }

  /** The selected rows, in key order, as the answer shows them. */
  ghost predicate Shown(q: Statement, schema: Schema, m: map<Bytes, Bytes>, ks: seq<Bytes>, titles: seq<Bytes>,
      rows: seq<Row>)
    requires q.Select?
  {
    |rows| == |ks| && forall i :: 0 <= i < |ks| ==>
      ks[i] in m && Shows(q, schema.columns, titles, rows[i], RowOf(m[ks[i]]))
  }

  lemma PickedShown(num: Numeric, m: map<Bytes, Bytes>, cache: map<Bytes, Schema>, q: Statement, scan: seq<Entry>)
    requires DbOk(m, cache) && q.Select? && WhereOk(q.filter) && q.table in cache && ScanOf(scan, m, q.table)
    requires Positions(cache[q.table].columns, q.all, q.names).Some?
    ensures var schema := cache[q.table];
      var p, idx := Selector(num, q.filter, schema), Positions(schema.columns, q.all, q.names).value;
      && SelectedList(HitKeys(p, scan), m, q.table, p)
      && |HitKeys(p, scan)| == |SelectedIn(m, q.table, p)|
      && Shown(q, schema, m, HitKeys(p, scan), Titles(schema.columns, q.all, q.names), Picked(p, idx, scan))
  {
    hide DbOk;
    hide ScanOf;
    hide InScan;
    hide RowOf;
    hide Project;
    hide Picked;
    hide HitKeys;
    hide KeyAscending;
    hide Positions;
    hide Titles;
    hide Shows;
    hide Satisfies;
    hide DecodeRow;
    hide AllCanonical;
    hide Selector;
    var schema := cache[q.table];
    var p, idx := Selector(num, q.filter, schema), Positions(schema.columns, q.all, q.names).value;
    HitKeysSelected(p, idx, scan, m, q.table);
    var ks := HitKeys(p, scan);
    forall i | 0 <= i < |ks|
      ensures Shows(q, schema.columns, Titles(schema.columns, q.all, q.names), Picked(p, idx, scan)[i], RowOf(m[ks[i]]))
    {
      assert ks[i] in SelectedIn(m, q.table, p);
      RowIsOk(m, cache, q.table, ks[i]);
      ProjectedShows(q, schema.columns, RowOf(m[ks[i]]));
    }
  }

  /** An answer and the lists behind it: the keys ks of the selected rows in key order; those rows, as their titles
      name their cells; the same rows in the order asked for, if any; and of these the first `limit`, or all. */
  ghost predicate Describes(num: Numeric, m: map<Bytes, Bytes>, schema: Schema, q: Statement, r: QueryResult,
      ks: seq<Bytes>, picked: seq<Row>, listed: seq<Row>)
    requires q.Select? && WhereOk(q.filter) && r.Rows?
  {
    && r.names == (if q.all || q.names == [] then ColumnNames(schema.columns) else q.names)
    && SelectedList(ks, m, schema.name, Selector(num, q.filter, schema))
    && |ks| == |SelectedIn(m, schema.name, Selector(num, q.filter, schema))|
    && Shown(q, schema, m, ks, r.names, picked)
    && multiset(listed) == multiset(picked) && |listed| == |ks|
    && (if q.orderBy == [] then listed == picked else InOrder(num, q, r.names, picked, listed))
    && r.rows <= listed && |r.rows| == Count(q.limit, |ks|)
  }

  /** Sorted by the first column titled as ORDER BY says. */
  ghost predicate InOrder(num: Numeric, q: Statement, titles: seq<Bytes>, picked: seq<Row>, listed: seq<Row>)
    requires q.Select?
  {
    exists c :: 0 <= c < |titles| && titles[c] == q.orderBy && q.orderBy !in titles[..c] &&
      IsSorting(num, q.desc, c, picked, listed)
  }

  /** Every answer is of this form. */
  lemma SelectAnswer(num: Numeric, m: map<Bytes, Bytes>, cache: map<Bytes, Schema>, q: Statement, scan: seq<Entry>,
      r: QueryResult)
    requires DbOk(m, cache) && q.Select? && WhereOk(q.filter) && q.table in cache && ScanOf(scan, m, q.table)
    requires Answers(num, cache[q.table], q, scan, r) && r.Rows?
    ensures exists ks, picked, listed :: Describes(num, m, cache[q.table], q, r, ks, picked, listed)
  {
    hide DbOk;
    hide ScanOf;
    hide RowOf;
    hide Picked;
    hide HitKeys;
    hide SelectedIn;
    hide SelectedList;
    hide Shown;
    hide Positions;
    hide Selector;
    hide IsSorting;
    hide Limited;
    var schema := cache[q.table];
    var p, titles := Selector(num, q.filter, schema), Titles(schema.columns, q.all, q.names);
    var idx := Positions(schema.columns, q.all, q.names).value;
    TableFits(m, cache, q.table);
    PickedShown(num, m, cache, q, scan);
    var ks, picked, listed := HitKeys(p, scan), Picked(p, idx, scan), Picked(p, idx, scan);
    ShownLength(q, schema, m, ks, titles, picked);
    if q.orderBy != [] {
      var c := TitleIndex(titles, q.orderBy);
      listed :| IsSorting(num, q.desc, c, picked, listed) && r == Rows(titles, Limited(listed, q.limit));
      SameSize(num, q.desc, c, picked, listed);
      assert titles[c] == q.orderBy && q.orderBy !in titles[..c];
    }
    LimitedIs(listed, q.limit);
    assert Describes(num, m, schema, q, r, ks, picked, listed);
  }

  lemma ShownLength(q: Statement, schema: Schema, m: map<Bytes, Bytes>, ks: seq<Bytes>, titles: seq<Bytes>,
      rows: seq<Row>)
    requires q.Select? && Shown(q, schema, m, ks, titles, rows)
    ensures |rows| == |ks|
  {
  }

  lemma SameSize(num: Numeric, desc: bool, c: nat, rows: seq<Row>, s: seq<Row>)
    requires IsSorting(num, desc, c, rows, s)
    ensures multiset(s) == multiset(rows) && |s| == |rows|
  {
    hide StrictWeak;
    hide Sorted;
    assert |multiset(s)| == |s| && |multiset(rows)| == |rows|;
  }

  /** It fails if and only if it names an unknown column, or orders by a column that it does not return. */
  lemma FailsExactly(num: Numeric, schema: Schema, q: Statement, scan: seq<Entry>, r: QueryResult)
    requires q.Select? && WhereOk(q.filter) && Answers(num, schema, q, scan, r)
    ensures r == Failed <==>
      || (!q.all && exists i :: 0 <= i < |q.names| && Unknown(schema.columns, q.names[i]))
      || (q.orderBy != [] && q.orderBy !in if q.all || q.names == [] then ColumnNames(schema.columns) else q.names)
  {
    hide Picked;
    hide Selector;
    hide IsSorting;
    hide Limited;
    hide ColumnIndex;
    hide TitleIndex;
    forall i | 0 <= i < |q.names|
      ensures ColumnIndex(schema.columns, q.names[i]) < 0 <==> Unknown(schema.columns, q.names[i])
    {
      var c := ColumnIndex(schema.columns, q.names[i]);
      assert c >= 0 ==> schema.columns[c].name == q.names[i];
    }
  }

  // ---- ORDER BY. ----

  /** Sorted by integers: ascending, or descending with DESC. */
  lemma OrderedInts(num: Numeric, desc: bool, c: nat, rows: seq<Row>, s: seq<Row>, i: nat, j: nat)
    requires DoubleOrder(num) && KeysCanonical(c, rows) && IsSorting(num, desc, c, rows, s) && i < j < |s|
    requires forall a :: a in rows ==> !CellOf(a, c).isNull && CellOf(a, c).ty == INT
    ensures var x, y := CellOf(s[i], c), CellOf(s[j], c);
      && x.ty == y.ty == INT && (!desc ==> x.intVal <= y.intVal) && (desc ==> x.intVal >= y.intVal)
  {
    hide DoubleOrder;
    hide Canonical;
    hide CellOf;
    hide StrictWeak;
    SortKeysOrdered(num, desc, c, rows, INT);
    FromRows(rows, s, i);
    FromRows(rows, s, j);
    assert !Before(num, desc, c, s[j], s[i]);
  }

  /** Sorted by texts: in byte order, or against it with DESC. */
  lemma OrderedTexts(num: Numeric, desc: bool, c: nat, rows: seq<Row>, s: seq<Row>, i: nat, j: nat)
    requires DoubleOrder(num) && KeysCanonical(c, rows) && IsSorting(num, desc, c, rows, s) && i < j < |s|
    requires forall a :: a in rows ==> !CellOf(a, c).isNull && CellOf(a, c).ty == TEXT
    ensures var x, y := CellOf(s[i], c), CellOf(s[j], c);
      && x.ty == y.ty == TEXT && (!desc ==> AtMost(x.text, y.text)) && (desc ==> AtMost(y.text, x.text))
  {
    hide DoubleOrder;
    hide Canonical;
    hide CellOf;
    hide StrictWeak;
    hide Less;
    SortKeysOrdered(num, desc, c, rows, TEXT);
    FromRows(rows, s, i);
    FromRows(rows, s, j);
    assert !Before(num, desc, c, s[j], s[i]);
    LessIsStrictTotalOrder();
  }

  lemma FromRows(rows: seq<Row>, s: seq<Row>, i: nat)
    requires multiset(s) == multiset(rows) && i < |s|
    ensures s[i] in rows
  {
    assert s[i] in multiset(s);
  }
}
