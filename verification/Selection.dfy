/** SELECT: filter, project, sort, limit (src/sql/executor.cpp). */
module Selection {
  import opened Bytes
  import opened Entries
  import opened Keys
  import opened Values
  import opened KeyValue
  import opened Ast
  import opened Eval
  import opened Ordering
  import opened Relation
  import opened Assignments

  type Row = seq<Value>

  datatype QueryResult = Failed | Rows(names: seq<Bytes>, rows: seq<Row>)

  // ---- Projection. ----

  function CellOf(row: Row, c: nat): Value {
    if c < |row| then row[c] else MakeNull(TEXT)
  }

  function Project(idx: seq<nat>, row: Row): Row {
    seq(|idx|, i requires 0 <= i < |idx| => CellOf(row, idx[i]))
  }

  predicate ColumnsExist(cols: seq<ColumnDef>, names: seq<Bytes>) {
    forall i :: 0 <= i < |names| ==> ColumnIndex(cols, names[i]) >= 0
  }

  /** The columns of the answer: all of them for `*`, or the first of each name. */
  function Positions(cols: seq<ColumnDef>, all: bool, names: seq<Bytes>): Option<seq<nat>> {
    if all || names == [] then Some(seq(|cols|, i => i))
    else if ColumnsExist(cols, names) then
      Some(seq(|names|, i requires 0 <= i < |names| => ColumnIndex(cols, names[i])))
    else None
  }

  function Titles(cols: seq<ColumnDef>, all: bool, names: seq<Bytes>): seq<Bytes> {
    if all || names == [] then ColumnNames(cols) else names
  }

  method FindPositions(cols: seq<ColumnDef>, all: bool, names: seq<Bytes>) returns (r: Option<seq<nat>>)
    ensures r == Positions(cols, all, names)
  {
    hide ColumnIndex;
    var idx: seq<nat> := [];
    if all || names == [] {
      for i := 0 to |cols|
        invariant idx == seq(i, j => j)
      {
        idx := idx + [i];
      }
      return Some(idx);
    }
    for i := 0 to |names|
      invariant |idx| == i && forall k :: 0 <= k < i ==> idx[k] == ColumnIndex(cols, names[k])
    {
      var c := FindColumn(cols, names[i]);
      if c < 0 {
        return None;
      }
      idx := idx + [c];
    }
    assert idx == seq(|names|, i requires 0 <= i < |names| => ColumnIndex(cols, names[i]));
    r := Some(idx);
  }

  // ---- Filtering. ----

  predicate Hit(p: Bytes -> bool, e: Entry) {
    e.val.Some? && p(e.val.value)
  }

  /** The projected rows that p selects, in key order. */
  function Picked(p: Bytes -> bool, idx: seq<nat>, rows: seq<Entry>): seq<Row> {
    if rows == [] then []
    else
      var e := rows[|rows| - 1];
      Picked(p, idx, rows[..|rows| - 1]) + if Hit(p, e) then [Project(idx, RowOf(e.val.value))] else []
  }

  lemma {:induction false} PickedFrom(p: Bytes -> bool, idx: seq<nat>, rows: seq<Entry>, v: Row)
    ensures v in Picked(p, idx, rows) <==>
      exists i :: 0 <= i < |rows| && Hit(p, rows[i]) && v == Project(idx, RowOf(rows[i].val.value))
  {
    hide RowOf;
    hide Project;
    if rows != [] {
      var n := |rows| - 1;
      PickedFrom(p, idx, rows[..n], v);
      assert Hit(p, rows[n]) || !Hit(p, rows[n]);
      if i :| 0 <= i < n && Hit(p, rows[..n][i]) && v == Project(idx, RowOf(rows[..n][i].val.value)) {
        assert Hit(p, rows[i]);
      }
      if i :| 0 <= i < n && Hit(p, rows[i]) && v == Project(idx, RowOf(rows[i].val.value)) {
        assert Hit(p, rows[..n][i]);
      }
    }
  }

  /** The answer holds exactly the projections of the table's selected rows. */
  lemma PickedRows(p: Bytes -> bool, idx: seq<nat>, rows: seq<Entry>, m: map<Bytes, Bytes>, table: Bytes, v: Row)
    requires ScanOf(rows, m, table)
    ensures v in Picked(p, idx, rows) <==>
      exists k :: k in m && InScan(RowPrefix(table), k) && p(m[k]) && v == Project(idx, RowOf(m[k]))
  {
    hide ScanOf;
    hide InScan;
    hide RowOf;
    hide Project;
    hide Picked;
    PickedFrom(p, idx, rows, v);
    if k :| k in m && InScan(RowPrefix(table), k) && p(m[k]) && v == Project(idx, RowOf(m[k])) {
      var i := RowScanned(rows, m, table, k);
      ScannedRow(rows, m, table, i);
      assert Hit(p, rows[i]);
    }
    if i :| 0 <= i < |rows| && Hit(p, rows[i]) && v == Project(idx, RowOf(rows[i].val.value)) {
      ScannedRow(rows, m, table, i);
      assert p(m[rows[i].key]);
    }
  }

  function SelectedIn(m: map<Bytes, Bytes>, table: Bytes, p: Bytes -> bool): set<Bytes> {
    set k | k in m && InScan(RowPrefix(table), k) && p(m[k])
  }

  lemma NewKey(p: Bytes -> bool, rows: seq<Entry>, n: nat)
    requires n < |rows| && AllLive(rows) && StrictlySorted(rows)
    ensures rows[n].key !in SelectedKeys(rows, p, n)
  {
    hide StrictlySorted;
    SelectedKeysAre(rows, p, n);
    SortedIsDistinct(rows);
  }

  lemma {:induction false} PickedLength(p: Bytes -> bool, idx: seq<nat>, rows: seq<Entry>, n: nat)
    requires n <= |rows| && AllLive(rows) && StrictlySorted(rows)
    ensures |Picked(p, idx, rows[..n])| == |SelectedKeys(rows, p, n)|
  {
    hide RowOf;
    hide Project;
    hide StrictlySorted;
    if n > 0 {
      PickedLength(p, idx, rows, n - 1);
      assert rows[..n][..n - 1] == rows[..n - 1];
      NewKey(p, rows, n - 1);
    }
  }

  /** One answer row for each selected row of the table: none is lost, none comes twice. */
  lemma PickedCount(p: Bytes -> bool, idx: seq<nat>, rows: seq<Entry>, m: map<Bytes, Bytes>, table: Bytes)
    requires ScanOf(rows, m, table)
    ensures |Picked(p, idx, rows)| == |SelectedIn(m, table, p)|
  {
    hide Picked;
    hide InScan;
    hide ScanOf;
    hide StrictlySorted;
    ScanIsLive(rows, m, table);
    assert rows[..|rows|] == rows;
    PickedLength(p, idx, rows, |rows|);
    SelectedKeysAre(rows, p, |rows|);
    var ks := SelectedKeys(rows, p, |rows|);
    forall k ensures k in ks <==> k in SelectedIn(m, table, p) {
      if k in ks {
        var i :| 0 <= i < |rows| && p(rows[i].val.value) && rows[i].key == k;
        ScannedRow(rows, m, table, i);
      }
      if k in SelectedIn(m, table, p) {
        var i := RowScanned(rows, m, table, k);
        ScannedRow(rows, m, table, i);
      }
    }
    assert ks == SelectedIn(m, table, p);
  }

  // ---- Sorting. ----

  /** The comparator given to the sort. */
  predicate Before(num: Numeric, desc: bool, c: nat, a: Row, b: Row) {
    KeyBefore(num, desc, CellOf(a, c), CellOf(b, c))
  }

  /** No row comes before an earlier one. */
  predicate Sorted(num: Numeric, desc: bool, c: nat, s: seq<Row>) {
    forall i, j :: 0 <= i < j < |s| ==> !Before(num, desc, c, s[j], s[i])
  }

  /** What `std::sort` asks of its comparator: a strict weak order on the rows at hand. */
  ghost predicate StrictWeak(num: Numeric, desc: bool, c: nat, rows: seq<Row>) {
    && (forall a :: a in rows ==> !Before(num, desc, c, a, a))
    && (forall a, b, d :: a in rows && b in rows && d in rows ==>
        (Before(num, desc, c, a, b) && Before(num, desc, c, b, d) ==> Before(num, desc, c, a, d)))
    && (forall a, b, d :: a in rows && b in rows && d in rows ==>
        (Before(num, desc, c, a, d) ==> Before(num, desc, c, a, b) || Before(num, desc, c, b, d)))
  }

  ghost predicate KeysCanonical(c: nat, rows: seq<Row>) {
    forall a :: a in rows ==> Canonical(CellOf(a, c))
  }

  /** The sort keys of any three rows are coherent. */
  ghost predicate AllCoherent(num: Numeric, desc: bool, c: nat, rows: seq<Row>) {
    forall a, b, d :: a in rows && b in rows && d in rows ==>
      Coherent(num, desc, CellOf(a, c), CellOf(b, c), CellOf(d, c))
  }

  /** Whatever the keys, NULL, NaN and mixed types included, the comparator is a strict weak order on the
      rows if and only if any three of their keys are coherent. */
  lemma SortableExactly(num: Numeric, desc: bool, c: nat, rows: seq<Row>)
    requires DoubleOrder(num) && KeysCanonical(c, rows)
    ensures StrictWeak(num, desc, c, rows) <==> AllCoherent(num, desc, c, rows)
  {
    hide CellOf;
    hide Canonical;
    hide Coherent;
    hide DoubleOrder;
    hide KeyBefore;
    if AllCoherent(num, desc, c, rows) {
      forall a, b, d | a in rows && b in rows &&
        d in rows ensures Weak(num, desc, CellOf(a, c), CellOf(b, c), CellOf(d, c)) {
        CoherentIsWeak(num, desc, CellOf(a, c), CellOf(b, c), CellOf(d, c));
      }
      WeakRows(num, desc, c, rows);
    }
    if StrictWeak(num, desc, c, rows) {
      forall a, b, d | a in rows && b in rows && d in rows
        ensures Coherent(num, desc, CellOf(a, c), CellOf(b, c), CellOf(d, c))
      {
        RowsWeak(num, desc, c, rows, a, d, b);
        RowsWeak(num, desc, c, rows, a, d, a);
        WeakIsCoherent(num, desc, CellOf(a, c), CellOf(b, c), CellOf(d, c));
      }
    }
  }

  lemma WeakRows(num: Numeric, desc: bool, c: nat, rows: seq<Row>)
    requires forall a, b, d :: a in rows && b in rows && d in rows ==>
      Weak(num, desc, CellOf(a, c), CellOf(b, c), CellOf(d, c))
    ensures StrictWeak(num, desc, c, rows)
  {
    hide CellOf;
    hide KeyBefore;
    forall a, b, d | a in rows && b in rows && d in rows
      ensures !Before(num, desc, c, a, a)
      ensures Before(num, desc, c, a, b) && Before(num, desc, c, b, d) ==> Before(num, desc, c, a, d)
      ensures Before(num, desc, c, a, d) ==> Before(num, desc, c, a, b) || Before(num, desc, c, b, d)
    {
      assert Weak(num, desc, CellOf(a, c), CellOf(b, c), CellOf(d, c));
    }
  }

  lemma RowsWeak(num: Numeric, desc: bool, c: nat, rows: seq<Row>, a: Row, b: Row, d: Row)
    requires StrictWeak(num, desc, c, rows) && a in rows && b in rows && d in rows
    ensures Weak(num, desc, CellOf(a, c), CellOf(b, c), CellOf(d, c))
  {
    hide CellOf;
    hide KeyBefore;
    assert Before(num, desc, c, a, a) == KeyBefore(num, desc, CellOf(a, c), CellOf(a, c));
    assert Before(num, desc, c, a, b) == KeyBefore(num, desc, CellOf(a, c), CellOf(b, c));
    assert Before(num, desc, c, b, d) == KeyBefore(num, desc, CellOf(b, c), CellOf(d, c));
    assert Before(num, desc, c, a, d) == KeyBefore(num, desc, CellOf(a, c), CellOf(d, c));
  }

  /** The rows of a SELECT meet the condition on keys: stored cells are canonical. */
  lemma PickedCanonical(p: Bytes -> bool, idx: seq<nat>, rows: seq<Entry>, m: map<Bytes, Bytes>, cache: map<Bytes,
      Schema>, table: Bytes, c: nat)
    requires DbOk(m, cache) && table in cache && ScanOf(rows, m, table)
    ensures KeysCanonical(c, Picked(p, idx, rows))
  {
    hide DbOk;
    hide ScanOf;
    hide InScan;
    hide Picked;
    hide RowOf;
    hide DecodeRow;
    hide Canonical;
    forall a | a in Picked(p, idx, rows) ensures Canonical(CellOf(a, c)) {
      PickedRows(p, idx, rows, m, table, a);
      var k :| k in m && InScan(RowPrefix(table), k) && p(m[k]) && a == Project(idx, RowOf(m[k]));
      RowIsOk(m, cache, table, k);
      NullCanonical();
    }
  }

  lemma NullCanonical()
    ensures Canonical(MakeNull(TEXT))
  {
  }

  /** In particular keys of one type without NULL and NaN are ordered, in both directions. */
  lemma SortKeysOrdered(num: Numeric, desc: bool, c: nat, rows: seq<Row>, ty: Byte)
    requires DoubleOrder(num) && KeysCanonical(c, rows)
    requires forall a :: a in rows ==>
      !CellOf(a, c).isNull && CellOf(a, c).ty == ty && !NotANumber(num, CellOf(a, c))
    ensures StrictWeak(num, desc, c, rows)
  {
    hide CellOf;
    hide Canonical;
    hide DoubleOrder;
    hide KeyBefore;
    hide NotANumber;
    SortableExactly(num, desc, c, rows);
  }

  /** With a NULL among them, rows can be sorted only if no two are told apart. */
  lemma NullTiesAll(num: Numeric, desc: bool, c: nat, rows: seq<Row>, x: Row)
    requires DoubleOrder(num) && KeysCanonical(c, rows) && x in rows && CellOf(x, c).isNull
    ensures StrictWeak(num, desc, c, rows) <==> forall a, b :: a in rows && b in rows ==> !Before(num, desc, c, a, b)
  {
    hide CellOf;
    hide Canonical;
    hide DoubleOrder;
    hide KeyBefore;
    if StrictWeak(num, desc, c, rows) {
      SortableExactly(num, desc, c, rows);
      forall a, b | a in rows && b in rows ensures !Before(num, desc, c, a, b) {
        assert Coherent(num, desc, CellOf(a, c), CellOf(b, c), CellOf(x, c));
      }
    }
  }

  /** One NULL among two different integers breaks the order the sort relies on. */
  lemma NullBreaksOrder(num: Numeric, desc: bool, ty: Byte)
    ensures !StrictWeak(num, desc, 0, [[MakeInt(1)], [MakeNull(ty)], [MakeInt(2)]])
  {
    var lo, mid, hi := [MakeInt(1)], [MakeNull(ty)], [MakeInt(2)];
    var rows := [lo, mid, hi];
    assert rows[0] == lo && rows[1] == mid && rows[2] == hi;
    assert Before(num, desc, 0, if desc then hi else lo, if desc then lo else hi);
    assert !Before(num, desc, 0, lo, mid) && !Before(num, desc, 0, mid, lo);
    assert !Before(num, desc, 0, hi, mid) && !Before(num, desc, 0, mid, hi);
  }

  /** So does a text between two integers, without any NULL; a BOOL column keeps all three as they are. */
  lemma MixedTypesBreakOrder(num: Numeric)
    ensures !StrictWeak(num, false, 0, [[MakeInt(1)], [MakeText([0x61])], [MakeInt(2)]])
    ensures !StrictWeak(num, true, 0, [[MakeInt(1)], [MakeText([0x61])]])
    ensures forall v :: v == MakeInt(1) || v == MakeText([0x61]) || v == MakeInt(2) ==> Coerce(num, v, BOOL) == v
  {
    var one, text, two := [MakeInt(1)], [MakeText([0x61])], [MakeInt(2)];
    var rows := [one, text, two];
    assert rows[0] == one && rows[1] == text && rows[2] == two;
    assert Before(num, false, 0, one, two) && !Before(num, false, 0, one, text) && !Before(num, false, 0, text, two);
    var pair := [one, text];
    assert pair[0] == one && pair[1] == text;
    assert Before(num, true, 0, one, text) && Before(num, true, 0, text, one) && !Before(num, true, 0, one, one);
  }

  /** A sorting of the rows: the same rows, in order whenever the keys can be ordered. */
  ghost predicate IsSorting(num: Numeric, desc: bool, c: nat, rows: seq<Row>, s: seq<Row>) {
    multiset(s) == multiset(rows) && (StrictWeak(num, desc, c, rows) ==> Sorted(num, desc, c, s))
  }

  /** Placing x before the first row it precedes keeps the list sorted. */
  lemma InsertSorted(num: Numeric, desc: bool, c: nat, rows: seq<Row>, s: seq<Row>, x: Row, p: nat)
    requires StrictWeak(num, desc, c, rows) && Sorted(num, desc, c, s) && p <= |s| && x in rows &&
      (forall y :: y in s ==> y in rows)
    requires forall i :: 0 <= i < p ==> !Before(num, desc, c, x, s[i])
    requires p < |s| ==> Before(num, desc, c, x, s[p])
    ensures Sorted(num, desc, c, s[..p] + [x] + s[p..])
  {
    hide Before;
    forall j | p <= j < |s| ensures !Before(num, desc, c, s[j], x) {
      assert s[j] in rows && s[p] in rows;
    }
    var t := s[..p] + [x] + s[p..];
    forall i, j | 0 <= i < j < |t| ensures !Before(num, desc, c, t[j], t[i]) {
      assert t[i] == if i < p then s[i] else if i == p then x else s[i - 1];
      assert t[j] == if j < p then s[j] else if j == p then x else s[j - 1];
    }
  }

  method SortRows(num: Numeric, desc: bool, c: nat, rows: seq<Row>) returns (s: seq<Row>)
    ensures IsSorting(num, desc, c, rows, s)
  {
    hide Before;
    hide StrictWeak;
    s := [];
    for n := 0 to |rows|
      invariant multiset(s) == multiset(rows[..n]) && (forall y :: y in s ==> y in rows)
      invariant StrictWeak(num, desc, c, rows) ==> Sorted(num, desc, c, s)
    {
      var x := rows[n];
      var p := 0;
      while p < |s| && !Before(num, desc, c, x, s[p])
        invariant p <= |s| && forall i :: 0 <= i < p ==> !Before(num, desc, c, x, s[i])
      {
        p := p + 1;
      }
      if StrictWeak(num, desc, c, rows) {
        InsertSorted(num, desc, c, rows, s, x, p);
      }
      assert s[..p] + s[p..] == s && rows[..n + 1] == rows[..n] + [x];
      s := s[..p] + [x] + s[p..];
    }
    assert rows[..|rows|] == rows;
  }

  // ---- The whole statement. ----

  function Limited(s: seq<Row>, limit: int): seq<Row> {
    if 0 <= limit < |s| then s[..limit] else s
  }

  /** Which title the rows are ordered by, or -1. */
  function TitleIndex(names: seq<Bytes>, name: Bytes): (i: int)
    ensures -1 <= i < |names| && (i >= 0 ==> names[i] == name) && (i < 0 <==> name !in names)
    ensures i >= 0 ==> name !in names[..i]
  {
    if names == [] then -1
    else if names[0] == name then 0
    else
      var i := TitleIndex(names[1..], name);
      assert names == [names[0]] + names[1..];
      if i < 0 then -1 else assert names[..i + 1] == [names[0]] + names[1..][..i]; i + 1
  }

  method FindTitle(names: seq<Bytes>, name: Bytes) returns (i: int)
    ensures i == TitleIndex(names, name)
  {
    for j := 0 to |names|
      invariant name !in names[..j]
    {
      if names[j] == name {
        TitleIs(names, name, j);
        return j;
      }
    }
    i := -1;
    assert names[..|names|] == names;
  }

  lemma {:induction false} TitleIs(names: seq<Bytes>, name: Bytes, j: nat)
    requires j < |names| && names[j] == name && name !in names[..j]
    ensures TitleIndex(names, name) == j
  {
    if j > 0 {
      assert names[0] == names[..j][0];
      assert names[..j][1..] == names[1..][..j - 1];
      TitleIs(names[1..], name, j - 1);
    }
  }

  /** An answer to a SELECT over scanned rows. */
  ghost predicate Answers(num: Numeric, schema: Schema, q: Statement, scan: seq<Entry>, r: QueryResult)
    requires q.Select? && WhereOk(q.filter)
  {
    var titles := Titles(schema.columns, q.all, q.names);
    match Positions(schema.columns, q.all, q.names)
    case None => r == Failed
    case Some(idx) =>
      var picked := Picked(Selector(num, q.filter, schema), idx, scan);
      if q.orderBy == [] then r == Rows(titles, Limited(picked, q.limit))
      else if q.orderBy !in titles then r == Failed
      else
        var c := TitleIndex(titles, q.orderBy);
        exists s :: IsSorting(num, q.desc, c, picked, s) && r == Rows(titles, Limited(s, q.limit))
  }

  lemma AnswerNoColumn(num: Numeric, schema: Schema, q: Statement, scan: seq<Entry>)
    requires q.Select? && WhereOk(q.filter) && Positions(schema.columns, q.all, q.names) == None
    ensures Answers(num, schema, q, scan, Failed)
  {
    hide Positions;
  }

  lemma AnswerPlain(num: Numeric, schema: Schema, q: Statement, scan: seq<Entry>, idx: seq<nat>)
    requires q.Select? && WhereOk(q.filter) && Positions(schema.columns, q.all, q.names) == Some(idx) && q.orderBy == []
    ensures Answers(num, schema, q, scan,
      Rows(Titles(schema.columns, q.all, q.names),
        Limited(Picked(Selector(num, q.filter, schema), idx, scan), q.limit)))
  {
    hide Positions;
    hide Titles;
    hide Picked;
    hide Selector;
    hide Limited;
  }

  lemma AnswerNoTitle(num: Numeric, schema: Schema, q: Statement, scan: seq<Entry>, idx: seq<nat>)
    requires q.Select? && WhereOk(q.filter) && Positions(schema.columns, q.all, q.names) == Some(idx) && q.orderBy != []
    requires q.orderBy !in Titles(schema.columns, q.all, q.names)
    ensures Answers(num, schema, q, scan, Failed)
  {
    hide Positions;
    hide Titles;
    hide Picked;
    hide Selector;
  }

  lemma AnswerSorted(num: Numeric, schema: Schema, q: Statement, scan: seq<Entry>, idx: seq<nat>, s: seq<Row>)
    requires q.Select? && WhereOk(q.filter) && Positions(schema.columns, q.all, q.names) == Some(idx) && q.orderBy != []
    requires q.orderBy in Titles(schema.columns, q.all, q.names)
    requires IsSorting(num, q.desc, TitleIndex(Titles(schema.columns, q.all, q.names), q.orderBy),
      Picked(Selector(num, q.filter, schema), idx, scan), s)
    ensures Answers(num, schema, q, scan, Rows(Titles(schema.columns, q.all, q.names), Limited(s, q.limit)))
  {
    hide Positions;
    hide Titles;
    hide Picked;
    hide Selector;
    hide IsSorting;
    hide Limited;
  }

  /** LIMIT keeps the first rows: no row left out comes before a row returned. */
  lemma LimitKeepsFirst(num: Numeric, desc: bool, c: nat, rows: seq<Row>, s: seq<Row>, limit: nat, i: nat, j: nat)
    requires IsSorting(num, desc, c, rows, s) && StrictWeak(num, desc, c, rows) && i < limit <= j < |s|
    ensures i < |Limited(s, limit)| && Limited(s, limit)[i] == s[i] && !Before(num, desc, c, s[j], Limited(s, limit)[i])
  {
    hide Before;
    hide StrictWeak;
  }

  /** After DELETE, SELECT with the same WHERE returns nothing. */
  lemma DeletedNotSelected(num: Numeric, w: Where, schema: Schema, m: map<Bytes, Bytes>, idx: seq<nat>,
      rows: seq<Entry>)
    requires WhereOk(w) && ScanOf(rows, Removed(m, schema.name, Selector(num, w, schema)), schema.name)
    ensures Picked(Selector(num, w, schema), idx, rows) == []
  {
    hide ScanOf;
    hide InScan;
    hide Satisfies;
    hide Picked;
    var p := Selector(num, w, schema);
    PickedCount(p, idx, rows, Removed(m, schema.name, p), schema.name);
    assert SelectedIn(Removed(m, schema.name, p), schema.name, p) == {};
  }
}
