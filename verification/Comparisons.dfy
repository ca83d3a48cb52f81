/** What the operators of WHERE and the conversions mean on the fields of a cell (include/mosaicdb/types.h,
    `coerce_value` and `evaluate_condition` of src/sql/executor.cpp). */
module Comparisons {
  import opened Bytes
  import opened Codec
  import opened Keys
  import opened Decimals
  import opened Values
  import opened Ast
  import opened Eval

  // ---- Values as text. ----

  const TRUE_TEXT: Bytes := [0x54, 0x52, 0x55, 0x45]
  const FALSE_TEXT: Bytes := [0x46, 0x41, 0x4C, 0x53, 0x45]
  const NULL_TEXT: Bytes := [0x4E, 0x55, 0x4C, 0x4C]

  lemma Words()
    ensures Text("TRUE") == TRUE_TEXT && Text("FALSE") == FALSE_TEXT && Text("NULL") == NULL_TEXT
  {
  }

  /** What a value prints as: NULL, a number in decimal, the library's form of a float, the text itself, TRUE or
      FALSE. */
  predicate Prints(num: Numeric, v: Value, t: Bytes) {
    if v.isNull then t == NULL_TEXT
    else if v.ty == INT then IsDecimal(t, v.intVal, 1)
    else if v.ty == FLOAT then t == num.showFloat(v.floatBits)
    else if v.ty == TEXT then t == v.text
    else t == if v.boolVal then TRUE_TEXT else FALSE_TEXT
  }

  lemma ShowPrints(num: Numeric, v: Value, t: Bytes)
    requires Canonical(v)
    ensures Prints(num, v, t) <==> t == Show(num, v)
  {
    hide ShowInt;
    hide IsDecimal;
    hide Text;
    Words();
    ShowIntIs(v.intVal, t);
  }

  // ---- Literals as the cell's type reads them. ----

  /** A literal beside an INT cell: a float is cut, a text that is no number and a boolean count as 0. */
  function AsInt(num: Numeric, v: Value): int {
    if v.ty == FLOAT then num.intOfFloat(v.floatBits)
    else if v.ty == TEXT && num.parseInt(v.text).Some? then num.parseInt(v.text).value
    else if v.ty == INT then v.intVal
    else 0
  }

  /** Beside a FLOAT cell: a text that is no number and a boolean count as the bit pattern 0. */
  function AsFloat(num: Numeric, v: Value): nat {
    if v.ty == INT then num.floatOfInt(v.intVal)
    else if v.ty == TEXT && num.parseFloat(v.text).Some? then num.parseFloat(v.text).value
    else if v.ty == FLOAT then v.floatBits
    else 0
  }

  /** Does the row satisfy the WHERE that is this one condition? */
  predicate Meets(num: Numeric, cols: seq<ColumnDef>, row: seq<Value>, column: Bytes, op: CompOp, v: Value) {
    Satisfies(num, Where([Condition(column, op, v)], []), cols, row)
  }

  /** The named column, in schema and row. */
  predicate IsCell(cols: seq<ColumnDef>, row: seq<Value>, column: Bytes, cell: Value) {
    exists c :: 0 <= c < |cols| && c < |row| && cols[c].name == column && row[c] == cell &&
      forall b :: 0 <= b < c ==> cols[b].name != column
  }

  lemma CellFound(cols: seq<ColumnDef>, row: seq<Value>, column: Bytes, cell: Value)
    requires IsCell(cols, row, column, cell)
    ensures var i := ColumnIndex(cols, column); 0 <= i < |row| && row[i] == cell
  {
    hide ColumnIndex;
    var c :| 0 <= c < |cols| && c < |row| && cols[c].name == column && row[c] == cell &&
      forall b :: 0 <= b < c ==> cols[b].name != column;
    var i := ColumnIndex(cols, column);
    assert i == c;
  }

  /** An INT cell is compared as an integer. */
  lemma IntCell(num: Numeric, cols: seq<ColumnDef>, row: seq<Value>, column: Bytes, x: int, v: Value)
    requires IsCell(cols, row, column, MakeInt(x)) && Canonical(v) && !v.isNull
    ensures v.ty == INT ==> AsInt(num, v) == v.intVal
    ensures Meets(num, cols, row, column, EQ, v) <==> x == AsInt(num, v)
    ensures Meets(num, cols, row, column, NE, v) <==> x != AsInt(num, v)
    ensures Meets(num, cols, row, column, LT, v) <==> x < AsInt(num, v)
    ensures Meets(num, cols, row, column, GT, v) <==> x > AsInt(num, v)
    ensures Meets(num, cols, row, column, LE, v) <==> x <= AsInt(num, v)
    ensures Meets(num, cols, row, column, GE, v) <==> x >= AsInt(num, v)
  {
    hide ColumnIndex;
    hide IsCell;
    CellFound(cols, row, column, MakeInt(x));
  }

  /** A FLOAT cell is compared by the library's float comparison. */
  lemma FloatCell(num: Numeric, cols: seq<ColumnDef>, row: seq<Value>, column: Bytes, x: nat, v: Value)
    requires IsCell(cols, row, column, MakeFloat(x)) && Canonical(v) && !v.isNull
    ensures v.ty == FLOAT ==> AsFloat(num, v) == v.floatBits
    ensures Meets(num, cols, row, column, EQ, v) <==> num.floatEq(x, AsFloat(num, v))
    ensures Meets(num, cols, row, column, NE, v) <==> !num.floatEq(x, AsFloat(num, v))
    ensures Meets(num, cols, row, column, LT, v) <==> num.floatLess(x, AsFloat(num, v))
    ensures Meets(num, cols, row, column, GT, v) <==> num.floatLess(AsFloat(num, v), x)
    ensures Meets(num, cols, row, column, LE, v) <==>
      num.floatEq(x, AsFloat(num, v)) || num.floatLess(x, AsFloat(num, v))
    ensures Meets(num, cols, row, column, GE, v) <==>
      num.floatEq(x, AsFloat(num, v)) || num.floatLess(AsFloat(num, v), x)
  {
    hide ColumnIndex;
    hide IsCell;
    CellFound(cols, row, column, MakeFloat(x));
  }

  /** A TEXT cell is compared in byte order, with the text the literal prints as. */
  lemma TextCell(num: Numeric, cols: seq<ColumnDef>, row: seq<Value>, column: Bytes, x: Bytes, v: Value, t: Bytes)
    requires IsCell(cols, row, column, MakeText(x)) && Canonical(v) && !v.isNull && Prints(num, v, t)
    ensures Meets(num, cols, row, column, EQ, v) <==> x == t
    ensures Meets(num, cols, row, column, NE, v) <==> x != t
    ensures Meets(num, cols, row, column, LT, v) <==> Less(x, t)
    ensures Meets(num, cols, row, column, GT, v) <==> Less(t, x)
    ensures Meets(num, cols, row, column, LE, v) <==> AtMost(x, t)
    ensures Meets(num, cols, row, column, GE, v) <==> AtMost(t, x)
  {
    hide ColumnIndex;
    hide IsCell;
    hide Less;
    hide Show;
    hide Prints;
    CellFound(cols, row, column, MakeText(x));
    ShowPrints(num, v, t);
    ShowText(num, v);
  }

  /** A BOOL cell knows equality only, and every literal that is no boolean counts as FALSE: `flag = 1` selects the
      rows whose flag is FALSE. */
  lemma BoolCell(num: Numeric, cols: seq<ColumnDef>, row: seq<Value>, column: Bytes, x: bool, v: Value)
    requires IsCell(cols, row, column, MakeBool(x)) && Canonical(v) && !v.isNull
    ensures var same := x <==> v.ty == BOOL && v.boolVal;
      && (Meets(num, cols, row, column, EQ, v) <==> same)
      && (Meets(num, cols, row, column, NE, v) <==> !same)
      && (Meets(num, cols, row, column, LE, v) <==> same)
      && (Meets(num, cols, row, column, GE, v) <==> same)
    ensures !Meets(num, cols, row, column, LT, v) && !Meets(num, cols, row, column, GT, v)
  {
    hide ColumnIndex;
    hide IsCell;
    CellFound(cols, row, column, MakeBool(x));
  }

  /** With a NULL on either side only `!=` holds. */
  lemma NullMeets(num: Numeric, cols: seq<ColumnDef>, row: seq<Value>, column: Bytes, cell: Value, op: CompOp, v: Value)
    requires IsCell(cols, row, column, cell) && (cell.isNull || v.isNull)
    ensures Meets(num, cols, row, column, op, v) <==> op == NE
  {
    hide ColumnIndex;
    hide IsCell;
    hide Coerce;
    CellFound(cols, row, column, cell);
    assert v.isNull ==> Coerce(num, v, cell.ty).isNull by { KeepsNull(num, v, cell.ty); }
  }

  /** A column that does not exist meets nothing, not even `!=`. */
  lemma UnknownMeets(num: Numeric, cols: seq<ColumnDef>, row: seq<Value>, column: Bytes, op: CompOp, v: Value)
    requires |row| == |cols|
    ensures (forall cell :: !IsCell(cols, row, column, cell)) <==>
      (forall i :: 0 <= i < |cols| ==> cols[i].name != column)
    ensures (forall i :: 0 <= i < |cols| ==> cols[i].name != column) ==> !Meets(num, cols, row, column, op, v)
  {
    hide ColumnIndex;
    var i := ColumnIndex(cols, column);
    if i >= 0 {
      assert IsCell(cols, row, column, row[i]);
    }
  }

  // ---- Conversions. ----

  /** Conversion never makes or loses a NULL. */
  lemma KeepsNull(num: Numeric, v: Value, ty: Byte)
    ensures Coerce(num, v, ty).isNull <==> v.isNull
  {
    hide ShowInt;
  }

  /** Every value that is not NULL converts to TEXT, as the text it prints as. */
  lemma ToText(num: Numeric, v: Value, t: Bytes)
    requires Canonical(v) && !v.isNull
    ensures Coerce(num, v, TEXT) == MakeText(t) <==> Prints(num, v, t)
  {
    hide Show;
    hide Prints;
    ShowPrints(num, v, t);
    assert v.ty == TEXT ==> Show(num, v) == v.text by { ShowText(num, v); }
  }

  lemma ShowText(num: Numeric, v: Value)
    ensures v.ty == TEXT && !v.isNull ==> Show(num, v) == v.text
  {
  }

  /** To a number: from a text that is one, or from a number of the other type; anything else stays as it was. */
  lemma ToNumber(num: Numeric, v: Value)
    requires Canonical(v) && !v.isNull
    ensures v.ty == INT ==> Coerce(num, v, FLOAT) == MakeFloat(num.floatOfInt(v.intVal))
    ensures v.ty == FLOAT ==> Coerce(num, v, INT) == MakeInt(num.intOfFloat(v.floatBits))
    ensures v.ty == TEXT ==> match num.parseInt(v.text)
      case Some(n) => Coerce(num, v, INT) == MakeInt(n)
      case None => Coerce(num, v, INT) == v
    ensures v.ty == TEXT ==> match num.parseFloat(v.text)
      case Some(b) => Coerce(num, v, FLOAT) == MakeFloat(b)
      case None => Coerce(num, v, FLOAT) == v
    ensures v.ty == BOOL ==> Coerce(num, v, INT) == v == Coerce(num, v, FLOAT)
  {
    hide Show;
  }

  /** To its own type and, whatever it is, to BOOL a value stays as it was; NULL becomes the NULL of the type. */
  lemma ToBool(num: Numeric, v: Value, ty: Byte)
    requires Canonical(v)
    ensures !v.isNull ==> Coerce(num, v, BOOL) == v && Coerce(num, v, v.ty) == v
    ensures v.isNull ==> Coerce(num, v, ty) == MakeNull(ty)
  {
    hide Show;
  }

  /** An integer survives the way to TEXT and back, given a library that reads the decimals it prints. */
  lemma IntThroughText(num: Numeric, n: int)
    requires forall t :: IsDecimal(t, n, 1) ==> num.parseInt(t) == Some(n)
    ensures Coerce(num, Coerce(num, MakeInt(n), TEXT), INT) == MakeInt(n)
  {
    hide ShowInt;
    hide IsDecimal;
    ShowIntIs(n, ShowInt(n));
  }
}
