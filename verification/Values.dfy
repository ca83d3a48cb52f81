/** Values and schemas, and their byte encodings (include/mosaicdb/types.h,
    include/mosaicdb/schema.h, src/relational/row.cpp). */
module Values {
  import opened Bytes
  import opened Codec

  // ---- Values: a record with every field present. ----

  const INT: Byte := 0x01
  const FLOAT: Byte := 0x02
  const TEXT: Byte := 0x03
  const BOOL: Byte := 0x04

  /** Floats are raw 64-bit patterns. */
  datatype Value = Value(ty: Byte, isNull: bool, intVal: int, floatBits: nat, text: Bytes, boolVal: bool)

  function MakeInt(v: int): Value { Value(INT, false, v, 0, [], false) }

  function MakeFloat(bits: nat): Value { Value(FLOAT, false, 0, bits, [], false) }

  function MakeText(v: Bytes): Value { Value(TEXT, false, 0, 0, v, false) }

  function MakeBool(v: bool): Value { Value(BOOL, false, 0, 0, [], v) }

  function MakeNull(ty: Byte): Value { Value(ty, true, 0, 0, [], false) }

  const I64_HALF: int := 0x8000_0000_0000_0000

  /** A value as its constructors make it: fields in range, unused fields at their defaults. */
  predicate Canonical(v: Value) {
    || v == MakeNull(v.ty)
    || (v == MakeInt(v.intVal) && -I64_HALF <= v.intVal < I64_HALF)
    || (v == MakeFloat(v.floatBits) && v.floatBits < U64_SIZE)
    || (v == MakeText(v.text) && |v.text| < U32_SIZE)
    || v == MakeBool(v.boolVal)
  }

  // ---- Row encoding. ----

  /** `static_cast<uint64_t>` of a signed number and back. */
  function Unsigned(v: int): nat
    requires -I64_HALF <= v < I64_HALF
  {
    if v >= 0 then v else v + U64_SIZE
  }

  function Signed(u: nat): int {
    if u < I64_HALF then u else u - U64_SIZE
  }

  function Flag(b: bool): Byte { if b then 1 else 0 }

  function ValueBytes(v: Value): Bytes
    requires Canonical(v)
  {
    if v.isNull then Le(0, 4)
    else if v.ty == INT then Le(8, 4) + Le(Unsigned(v.intVal), 8)
    else if v.ty == FLOAT then Le(8, 4) + Le(v.floatBits, 8)
    else if v.ty == TEXT then Le(|v.text|, 4) + v.text
    else Le(1, 4) + [Flag(v.boolVal)]
  }

  function EncodeValue(v: Value): Bytes
    requires Canonical(v)
  {
    [v.ty, Flag(v.isNull)] + ValueBytes(v)
  }

  predicate AllCanonical(vs: seq<Value>) {
    forall i :: 0 <= i < |vs| ==> Canonical(vs[i])
  }

  function EncodeValues(vs: seq<Value>): Bytes
    requires AllCanonical(vs)
  {
    if vs == [] then [] else EncodeValue(vs[0]) + EncodeValues(vs[1..])
  }

  function EncodeRow(vs: seq<Value>): Bytes
    requires AllCanonical(vs)
  {
    Le(|vs|, 4) + EncodeValues(vs)
  }

  // ---- Row decoding. ----

  /** One decoded cell; a type byte the switch does not know adds no value. */
  datatype Cell = Cell(value: Option<Value>, next: nat)

  /** None stands for a read past the end of the data. */
  function CellAt(data: Bytes, pos: nat): Option<Cell> {
    if |data| < pos + 6 then None
    else
      var ty, len, q := data[pos], FromLe(data[pos + 2..pos + 6]), pos + 6;
      if data[pos + 1] != 0 then Some(Cell(Some(MakeNull(ty)), q))
      else if ty == INT then
        if |data| < q + 8 then None else Some(Cell(Some(MakeInt(Signed(FromLe(data[q..q + 8])))), q + 8))
      else if ty == FLOAT then
        if |data| < q + 8 then None else Some(Cell(Some(MakeFloat(FromLe(data[q..q + 8]))), q + 8))
      else if ty == TEXT then
        if |data| < q + len then None else Some(Cell(Some(MakeText(data[q..q + len])), q + len))
      else if ty == BOOL then
        if |data| < q + 1 then None else Some(Cell(Some(MakeBool(data[q] != 0)), q + 1))
      else Some(Cell(None, q))
  }

  datatype Decoded = Decoded(values: seq<Value>, end: nat)

  function DecodeFrom(data: Bytes, pos: nat, count: nat): Option<Decoded>
    decreases count
  {
    if count == 0 then Some(Decoded([], pos))
    else
      match CellAt(data, pos)
      case None => None
      case Some(c) => Prepend(if c.value.Some? then [c.value.value] else [], DecodeFrom(data, c.next, count - 1))
  }

  function Prepend(vs: seq<Value>, d: Option<Decoded>): Option<Decoded> {
    match d
    case None => None
    case Some(x) => Some(Decoded(vs + x.values, x.end))
  }

  function DecodeRow(data: Bytes): Option<Decoded> {
    if |data| < 4 then None else DecodeFrom(data, 4, FromLe(data[..4]))
  }

  lemma SignedRoundTrip(v: int)
    requires -I64_HALF <= v < I64_HALF
    ensures Unsigned(v) < U64_SIZE && Signed(Unsigned(v)) == v
  {
  }

  /** The parts of an encoded value. */
  lemma ValueLayout(v: Value)
    requires Canonical(v)
    ensures var m := EncodeValue(v);
      && |m| >= 6 && m[0] == v.ty && m[1] == Flag(v.isNull) && m[2..6] == ValueBytes(v)[..4] &&
        m[6..] == ValueBytes(v)[4..]
  {
    hide Canonical;
    hide Le;
  }

  /** An encoded value reads back, wherever it stands. */
  lemma CellReads(a: Bytes, v: Value, b: Bytes)
    requires Canonical(v)
    ensures CellAt(a + EncodeValue(v) + b, |a|) == Some(Cell(Some(v), |a| + |EncodeValue(v)|))
  {
    hide Canonical;
    hide ValueBytes;
    hide Le;
    hide FromLe;
    hide EncodeValue;
    var m := EncodeValue(v);
    var data, p := a + m + b, |a|;
    BodyReads(v, m);
    ValueLayout(v);
    SliceMiddle(a, m, b, 0, 2);
    assert data[p] == data[p..p + 2][0] && data[p + 1] == data[p..p + 2][1];
    assert m[0..2][0] == m[0] && m[0..2][1] == m[1];
    SliceMiddle(a, m, b, 2, 6);
    SliceMiddle(a, m, b, 6, |m|);
    assert data[p + 6..p + |m|] == m[6..];
    if v.isNull {
      assert CellAt(data, p) == Some(Cell(Some(MakeNull(v.ty)), p + 6));
    } else if v.ty == INT {
      assert data[p + 6..p + 6 + 8] == m[6..];
    } else if v.ty == FLOAT {
      assert data[p + 6..p + 6 + 8] == m[6..];
    } else if v.ty == TEXT {
      assert data[p + 6..p + 6 + FromLe(data[p + 2..p + 6])] == m[6..];
    } else {
      assert data[p + 6] == m[6..][0];
    }
  }

  /** The length field and the body of each kind. */
  lemma BodyReads(v: Value, m: Bytes)
    requires Canonical(v) && m == EncodeValue(v)
    ensures |m| >= 6
    ensures !v.isNull && v.ty == INT ==> |m| == 14 && Signed(FromLe(m[6..])) == v.intVal
    ensures !v.isNull && v.ty == FLOAT ==> |m| == 14 && FromLe(m[6..]) == v.floatBits
    ensures !v.isNull && v.ty == TEXT ==> |m| == 6 + FromLe(m[2..6]) && m[6..] == v.text
    ensures !v.isNull && v.ty == BOOL ==> |m| == 7 && m[6..] == [Flag(v.boolVal)]
    ensures v.isNull ==> |m| == 6 && v == MakeNull(v.ty)
    ensures !v.isNull && v.ty == INT ==> v == MakeInt(v.intVal)
    ensures !v.isNull && v.ty == FLOAT ==> v == MakeFloat(v.floatBits)
    ensures !v.isNull && v.ty == TEXT ==> v == MakeText(v.text)
    ensures !v.isNull && v.ty == BOOL ==> v == MakeBool(v.boolVal)
    ensures !v.isNull ==> v.ty == INT || v.ty == FLOAT || v.ty == TEXT || v.ty == BOOL
  {
    hide Le;
    hide FromLe;
    hide EncodeValue;
    ValueLayout(v);
    ValueParts(v);
    assert |m| == 6 + |m[6..]|;
    if !v.isNull && v.ty == INT {
      SignedRoundTrip(v.intVal);
      U64RoundTrip(Unsigned(v.intVal));
    } else if !v.isNull && v.ty == FLOAT {
      U64RoundTrip(v.floatBits);
    } else if !v.isNull && v.ty == TEXT {
      U32RoundTrip(|v.text|);
    }
  }

  lemma ValueParts(v: Value)
    requires Canonical(v)
    ensures var p := ValueBytes(v);
      && |p| >= 4
      && (v.isNull ==> p[4..] == [])
      && (!v.isNull && v.ty == INT ==> p[4..] == Le(Unsigned(v.intVal), 8))
      && (!v.isNull && v.ty == FLOAT ==> p[4..] == Le(v.floatBits, 8))
      && (!v.isNull && v.ty == TEXT ==> p[..4] == Le(|v.text|, 4) && p[4..] == v.text)
      && (!v.isNull && v.ty == BOOL ==> p[4..] == [Flag(v.boolVal)])
  {
    hide Le;
  }

  lemma {:induction false} ValuesRead(a: Bytes, vs: seq<Value>)
    requires AllCanonical(vs)
    ensures DecodeFrom(a + EncodeValues(vs), |a|, |vs|) == Some(Decoded(vs, |a + EncodeValues(vs)|))
    decreases |vs|
  {
    hide CellAt;
    hide EncodeValue;
    hide Canonical;
    if vs == [] {
      assert a + [] == a;
    } else {
      var m, rest := EncodeValue(vs[0]), EncodeValues(vs[1..]);
      assert a + EncodeValues(vs) == a + m + rest;
      CellReads(a, vs[0], rest);
      ValuesRead(a + m, vs[1..]);
      assert [vs[0]] + vs[1..] == vs;
    }
  }

  /** Every canonical row reads back unchanged and uses up exactly its bytes. */
  lemma RowRoundTrip(vs: seq<Value>)
    requires AllCanonical(vs) && |vs| < U32_SIZE
    ensures DecodeRow(EncodeRow(vs)) == Some(Decoded(vs, |EncodeRow(vs)|))
  {
    hide Le;
    hide FromLe;
    hide DecodeFrom;
    hide EncodeValues;
    hide AllCanonical;
    U32RoundTrip(|vs|);
    assert EncodeRow(vs)[..4] == Le(|vs|, 4);
    ValuesRead(Le(|vs|, 4), vs);
  }

  // ---- The serializer's loops. ----

  lemma {:induction false} EncodeValuesAppend(vs: seq<Value>, v: Value)
    requires AllCanonical(vs) && Canonical(v)
    ensures AllCanonical(vs + [v]) && EncodeValues(vs + [v]) == EncodeValues(vs) + EncodeValue(v)
  {
    hide EncodeValue;
    hide Canonical;
    if vs == [] {
      assert vs + [v] == [v] && [v][1..] == [];
    } else {
      assert (vs + [v])[1..] == vs[1..] + [v];
      EncodeValuesAppend(vs[1..], v);
    }
  }

  /** `RowSerializer::serialize`. */
  method Serialize(vs: seq<Value>) returns (out: Bytes)
    requires AllCanonical(vs) && |vs| < U32_SIZE
    ensures out == EncodeRow(vs)
  {
    hide EncodeValue;
    hide Canonical;
    hide Le;
    var count := EncodeU32(|vs|);
    out := [];
    for i := 0 to |vs|
      invariant out == EncodeValues(vs[..i])
    {
      assert vs[..i + 1] == vs[..i] + [vs[i]];
      EncodeValuesAppend(vs[..i], vs[i]);
      var b := SerializeValue(vs[i]);
      out := out + b;
    }
    assert vs[..|vs|] == vs;
    out := count + out;
  }

  method SerializeValue(v: Value) returns (b: Bytes)
    requires Canonical(v)
    ensures b == EncodeValue(v)
  {
    hide Le;
    b := [v.ty, Flag(v.isNull)];
    if v.isNull {
      var zero := EncodeU32(0);
      return b + zero;
    }
    if v.ty == INT {
      var size := EncodeU32(8);
      var raw := EncodeU64(Unsigned(v.intVal));
      b := b + (size + raw);
    } else if v.ty == FLOAT {
      var size := EncodeU32(8);
      var raw := EncodeU64(v.floatBits);
      b := b + (size + raw);
    } else if v.ty == TEXT {
      var size := EncodeU32(|v.text|);
      b := b + (size + v.text);
    } else {
      var size := EncodeU32(1);
      b := b + (size + [Flag(v.boolVal)]);
    }
  }

  /** `RowSerializer::deserialize`; None where the code would read past the end. */
  method Deserialize(data: Bytes) returns (r: Option<Decoded>)
    ensures r == DecodeRow(data)
  {
    hide CellAt;
    hide FromLe;
    if |data| < 4 {
      return None;
    }
    var count := DecodeU32(data[..4]);
    var values: seq<Value>, pos: nat := [], 4;
    PrependMore([], [], DecodeFrom(data, 4, count));
    for i := 0 to count
      invariant DecodeFrom(data, 4, count) == Prepend(values, DecodeFrom(data, pos, count - i))
    {
      var c := CellAt(data, pos);
      if c.None? {
        return None;
      }
      var added := if c.value.value.Some? then [c.value.value.value] else [];
      PrependMore(values, added, DecodeFrom(data, c.value.next, count - i - 1));
      values := values + added;
      pos := c.value.next;
    }
    assert values + [] == values;
    return Some(Decoded(values, pos));
  }

  lemma PrependMore(vs: seq<Value>, more: seq<Value>, d: Option<Decoded>)
    ensures Prepend([], d) == d
    ensures Prepend(vs + more, d) == Prepend(vs, Prepend(more, d))
  {
    if d.Some? {
      assert [] + d.value.values == d.value.values;
      assert vs + more + d.value.values == vs + (more + d.value.values);
    }
  }

  // ---- Schemas. ----

  datatype ColumnDef = ColumnDef(name: Bytes, ty: Byte, notNull: bool, isPk: bool)
  datatype Schema = Schema(name: Bytes, columns: seq<ColumnDef>, pk: Bytes)

  /** `find_column`: the first column of that name, or -1. */
  method FindColumn(cols: seq<ColumnDef>, name: Bytes) returns (i: int)
    ensures i == ColumnIndex(cols, name)
  {
    for j := 0 to |cols|
      invariant forall k :: 0 <= k < j ==> cols[k].name != name
    {
      if cols[j].name == name {
        IndexIs(cols, name, j);
        return j;
      }
    }
    IndexIs(cols, name, |cols|);
    return -1;
  }

  function ColumnIndex(cols: seq<ColumnDef>, name: Bytes): (i: int)
    ensures -1 <= i < |cols|
    ensures i >= 0 ==> cols[i].name == name
    ensures forall k :: 0 <= k < (if i < 0 then |cols| else i) ==> cols[k].name != name
  {
    if cols == [] then -1
    else
      var j := ColumnIndex(cols[..|cols| - 1], name);
      if j >= 0 then j else if cols[|cols| - 1].name == name then |cols| - 1 else -1
  }

  lemma IndexIs(cols: seq<ColumnDef>, name: Bytes, j: nat)
    requires j <= |cols| && (forall k :: 0 <= k < j ==> cols[k].name != name) && (j < |cols| ==> cols[j].name == name)
    ensures ColumnIndex(cols, name) == if j < |cols| then j else -1
  {
  }

  function Str(s: Bytes): Bytes { Le(|s|, 4) + s }

  function EncodeColumn(c: ColumnDef): Bytes {
    Str(c.name) + [c.ty, Flag(c.notNull), Flag(c.isPk)]
  }

  function EncodeColumns(cs: seq<ColumnDef>): Bytes {
    if cs == [] then [] else EncodeColumn(cs[0]) + EncodeColumns(cs[1..])
  }

  /** `TableSchema::serialize`. */
  function EncodeSchema(s: Schema): Bytes {
    Str(s.name) + Str(s.pk) + (Le(|s.columns|, 4) + EncodeColumns(s.columns))
  }

  predicate SchemaFits(s: Schema) {
    && |s.name| < U32_SIZE && |s.pk| < U32_SIZE && |s.columns| < U32_SIZE
    && forall i :: 0 <= i < |s.columns| ==> |s.columns[i].name| < U32_SIZE
  }

  datatype Read<T> = Read(value: T, next: nat)

  function StrAt(data: Bytes, pos: nat): Option<Read<Bytes>> {
    if |data| < pos + 4 then None
    else
      var n := FromLe(data[pos..pos + 4]);
      if |data| < pos + 4 + n then None else Some(Read(data[pos + 4..pos + 4 + n], pos + 4 + n))
  }

  function ColumnAt(data: Bytes, pos: nat): Option<Read<ColumnDef>> {
    match StrAt(data, pos)
    case None => None
    case Some(n) =>
      if |data| < n.next + 3 then None
      else Some(Read(ColumnDef(n.value, data[n.next], data[n.next + 1] != 0, data[n.next + 2] != 0), n.next + 3))
  }

  function ColumnsAt(data: Bytes, pos: nat, count: nat): Option<seq<ColumnDef>>
    decreases count
  {
    if count == 0 then Some([])
    else
      match ColumnAt(data, pos)
      case None => None
      case Some(c) =>
        match ColumnsAt(data, c.next, count - 1)
        case None => None
        case Some(cs) => Some([c.value] + cs)
  }

  /** `TableSchema::deserialize`; None where the code would read past the end. */
  function DecodeSchema(data: Bytes): Option<Schema> {
    match StrAt(data, 0)
    case None => None
    case Some(name) =>
      match StrAt(data, name.next)
      case None => None
      case Some(pk) =>
        var pos := pk.next;
        if |data| < pos + 4 then None
        else
          match ColumnsAt(data, pos + 4, FromLe(data[pos..pos + 4]))
          case None => None
          case Some(cs) => Some(Schema(name.value, cs, pk.value))
  }

  lemma StrReads(a: Bytes, s: Bytes, b: Bytes)
    requires |s| < U32_SIZE
    ensures StrAt(a + Str(s) + b, |a|) == Some(Read(s, |a| + 4 + |s|))
  {
    hide Le;
    hide FromLe;
    U32RoundTrip(|s|);
    var m := Str(s);
    SliceMiddle(a, m, b, 0, 4);
    SliceMiddle(a, m, b, 4, 4 + |s|);
    assert m[0..4] == Le(|s|, 4) && m[4..4 + |s|] == s;
  }

  lemma ColumnReads(a: Bytes, c: ColumnDef, b: Bytes)
    requires |c.name| < U32_SIZE
    ensures ColumnAt(a + EncodeColumn(c) + b, |a|) == Some(Read(c, |a| + |EncodeColumn(c)|))
  {
    hide StrAt;
    hide Le;
    var flags := [c.ty, Flag(c.notNull), Flag(c.isPk)];
    assert a + EncodeColumn(c) + b == a + Str(c.name) + (flags + b);
    StrReads(a, c.name, flags + b);
    var p := a + Str(c.name);
    assert a + EncodeColumn(c) + b == p + flags + b;
    assert (p + flags + b)[|p|] == flags[0] && (p + flags + b)[|p| + 1] == flags[1] &&
      (p + flags + b)[|p| + 2] == flags[2];
  }

  lemma {:induction false} ColumnsRead(a: Bytes, cs: seq<ColumnDef>)
    requires forall i :: 0 <= i < |cs| ==> |cs[i].name| < U32_SIZE
    ensures ColumnsAt(a + EncodeColumns(cs), |a|, |cs|) == Some(cs)
    decreases |cs|
  {
    hide ColumnAt;
    hide EncodeColumn;
    if cs != [] {
      var m, rest := EncodeColumn(cs[0]), EncodeColumns(cs[1..]);
      assert a + EncodeColumns(cs) == a + m + rest;
      ColumnReads(a, cs[0], rest);
      ColumnsRead(a + m, cs[1..]);
      assert [cs[0]] + cs[1..] == cs;
    }
  }

  /** Every schema reads back unchanged. */
  lemma SchemaRoundTrip(s: Schema)
    requires SchemaFits(s)
    ensures DecodeSchema(EncodeSchema(s)) == Some(s)
  {
    hide StrAt;
    hide ColumnsAt;
    hide Le;
    hide FromLe;
    hide EncodeColumns;
    hide Str;
    var data := EncodeSchema(s);
    var n, p, c, cs := Str(s.name), Str(s.pk), Le(|s.columns|, 4), EncodeColumns(s.columns);
    StrSize(s.name);
    StrSize(s.pk);
    assert data == [] + n + (p + (c + cs));
    StrReads([], s.name, p + (c + cs));
    assert data == n + p + (c + cs);
    StrReads(n, s.pk, c + cs);
    assert data == n + p + c + cs;
    ColumnsRead(n + p + c, s.columns);
    SliceMiddle(n + p, c, cs, 0, 4);
    assert c[0..4] == c;
    U32RoundTrip(|s.columns|);
  }

  lemma StrSize(s: Bytes)
    ensures |Str(s)| == 4 + |s|
  {
  }

  lemma {:induction false} EncodeColumnsAppend(cs: seq<ColumnDef>, c: ColumnDef)
    ensures EncodeColumns(cs + [c]) == EncodeColumns(cs) + EncodeColumn(c)
  {
    hide EncodeColumn;
    if cs == [] {
      assert cs + [c] == [c] && [c][1..] == [];
    } else {
      assert (cs + [c])[1..] == cs[1..] + [c];
      EncodeColumnsAppend(cs[1..], c);
    }
  }

  method SerializeStr(s: Bytes) returns (b: Bytes)
    requires |s| < U32_SIZE
    ensures b == Str(s)
  {
    var n := EncodeU32(|s|);
    b := n + s;
  }

  method SerializeSchema(s: Schema) returns (out: Bytes)
    requires SchemaFits(s)
    ensures out == EncodeSchema(s)
  {
    hide Str;
    hide Le;
    var name := SerializeStr(s.name);
    var pk := SerializeStr(s.pk);
    var count := EncodeU32(|s.columns|);
    var cols: Bytes := [];
    for i := 0 to |s.columns|
      invariant cols == EncodeColumns(s.columns[..i])
    {
      var c := s.columns[i];
      assert s.columns[..i + 1] == s.columns[..i] + [c];
      EncodeColumnsAppend(s.columns[..i], c);
      var n := SerializeStr(c.name);
      cols := cols + (n + [c.ty, Flag(c.notNull), Flag(c.isPk)]);
    }
    assert s.columns[..|s.columns|] == s.columns;
    out := name + pk + (count + cols);
  }

  method DeserializeSchema(data: Bytes) returns (r: Option<Schema>)
    ensures r == DecodeSchema(data)
  {
    hide StrAt;
    hide ColumnAt;
    hide FromLe;
    var name := StrAt(data, 0);
    if name.None? {
      return None;
    }
    var pk := StrAt(data, name.value.next);
    if pk.None? || |data| < pk.value.next + 4 {
      return None;
    }
    var count := DecodeU32(data[pk.value.next..pk.value.next + 4]);
    var first := pk.value.next + 4;
    var cols: seq<ColumnDef>, pos: nat := [], first;
    assert Joined([], ColumnsAt(data, first, count)) ==
      ColumnsAt(data, first, count) by { JoinedMore([], [], ColumnsAt(data, first, count)); }
    for i := 0 to count
      invariant ColumnsAt(data, first, count) == Joined(cols, ColumnsAt(data, pos, count - i))
    {
      var c := ColumnAt(data, pos);
      if c.None? {
        return None;
      }
      JoinedMore(cols, [c.value.value], ColumnsAt(data, c.value.next, count - i - 1));
      cols, pos := cols + [c.value.value], c.value.next;
    }
    assert cols + [] == cols;
    return Some(Schema(name.value.value, cols, pk.value.value));
  }

  function Joined(cs: seq<ColumnDef>, r: Option<seq<ColumnDef>>): Option<seq<ColumnDef>> {
    match r
    case None => None
    case Some(x) => Some(cs + x)
  }

  lemma JoinedMore(cs: seq<ColumnDef>, more: seq<ColumnDef>, r: Option<seq<ColumnDef>>)
    ensures Joined([], r) == r && Joined(cs + more, r) == Joined(cs, Joined(more, r))
  {
    if r.Some? {
      assert [] + r.value == r.value && cs + more + r.value == cs + (more + r.value);
    }
  }
}
