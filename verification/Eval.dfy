/** Coercion, comparison and WHERE (include/mosaicdb/types.h, src/sql/executor.cpp). */
module Eval {
  import opened Bytes
  import opened Codec
  import opened Keys
  import opened Values
  import opened Ast

  /** Number conversions and float comparison, which the code takes from the C++ library. */
  datatype Numeric = Numeric(
    floatOfInt: int -> nat,
    intOfFloat: nat -> int,
    parseInt: Bytes -> Option<int>,
    parseFloat: Bytes -> Option<nat>,
    parseId: Bytes -> Option<nat>,
    parseLimit: Bytes -> Option<int>,
    floatEq: (nat, nat) -> bool,
    floatLess: (nat, nat) -> bool,
    showFloat: nat -> Bytes)

  /** Results stay within 64 bits, printed floats within a text field, and an empty text is no number. */
  ghost predicate NumericOk(num: Numeric) {
    && (forall v :: num.floatOfInt(v) < U64_SIZE)
    && (forall b :: -I64_HALF <= num.intOfFloat(b) < I64_HALF)
    && (forall t :: num.parseInt(t).Some? ==> -I64_HALF <= num.parseInt(t).value < I64_HALF)
    && (forall t :: num.parseFloat(t).Some? ==> num.parseFloat(t).value < U64_SIZE)
    && (forall t :: num.parseId(t).Some? ==> num.parseId(t).value < U64_SIZE)
    && num.parseLimit([]) == None
    && (forall b :: |num.showFloat(b)| < U32_SIZE)
  }

  function ShowInt(n: int): Bytes {
    if n >= 0 then PaddedDigits(n, 1) else [MINUS] + PaddedDigits(-n, 1)
  }

  /** `Value::to_string`. */
  function Show(num: Numeric, v: Value): Bytes {
    if v.isNull then Text("NULL")
    else if v.ty == INT then ShowInt(v.intVal)
    else if v.ty == FLOAT then num.showFloat(v.floatBits)
    else if v.ty == TEXT then v.text
    else if v.ty == BOOL then (if v.boolVal then Text("TRUE") else Text("FALSE"))
    else Text("?")
  }

  /** `format_pk`. */
  function FormatKey(num: Numeric, v: Value): Bytes {
    if v.ty == INT then FormatInt(v.intVal) else Show(num, v)
  }

  /** `coerce_value`: a conversion that fails returns the value as it was. */
  function Coerce(num: Numeric, v: Value, ty: Byte): Value {
    if v.isNull then MakeNull(ty)
    else if v.ty == ty then v
    else if v.ty == INT && ty == FLOAT then MakeFloat(num.floatOfInt(v.intVal))
    else if v.ty == FLOAT && ty == INT then MakeInt(num.intOfFloat(v.floatBits))
    else if v.ty == TEXT &&
      ty == INT then (if num.parseInt(v.text).Some? then MakeInt(num.parseInt(v.text).value) else v)
    else if v.ty == TEXT &&
      ty == FLOAT then (if num.parseFloat(v.text).Some? then MakeFloat(num.parseFloat(v.text).value) else v)
    else if ty == TEXT then MakeText(Show(num, v))
    else v
  }

  lemma {:induction false} PaddedLength(n: nat, w: nat, k: nat)
    requires n < Pow10(k)
    ensures |PaddedDigits(n, w)| <= k + w
    decreases n, w
  {
    if n > 0 {
      PaddedLength(n / 10, if w == 0 then 0 else w - 1, k - 1);
    }
  }

  lemma ShowIntLength(n: int)
    requires -I64_HALF <= n < I64_HALF
    ensures |ShowInt(n)| < 30
  {
    hide PaddedDigits;
    assert Pow10(5) == 100_000;
    assert Pow10(10) == 100_000 * Pow10(5);
    assert Pow10(15) == 100_000 * Pow10(10);
    assert Pow10(20) == 100_000 * Pow10(15);
    var a := if n >= 0 then n else -n;
    assert a < Pow10(20);
    PaddedLength(a, 1, 20);
  }

  /** Coercion never leaves the canonical values. */
  lemma CoerceCanonical(num: Numeric, v: Value, ty: Byte)
    requires NumericOk(num) && Canonical(v)
    ensures Canonical(Coerce(num, v, ty))
  {
    hide ShowInt;
    if ty == TEXT && !v.isNull && v.ty == INT {
      ShowIntLength(v.intVal);
    }
  }

  // ---- Comparison. ----

  function CompareEq(num: Numeric, a: Value, b: Value): bool {
    if a.isNull || b.isNull then false
    else if a.ty == INT then a.intVal == b.intVal
    else if a.ty == FLOAT then num.floatEq(a.floatBits, b.floatBits)
    else if a.ty == TEXT then a.text == b.text
    else if a.ty == BOOL then a.boolVal == b.boolVal
    else false
  }

  function CompareLt(num: Numeric, a: Value, b: Value): bool {
    if a.isNull || b.isNull then false
    else if a.ty == INT then a.intVal < b.intVal
    else if a.ty == FLOAT then num.floatLess(a.floatBits, b.floatBits)
    else if a.ty == TEXT then Less(a.text, b.text)
    else false
  }

  function CompareGt(num: Numeric, a: Value, b: Value): bool {
    if a.isNull || b.isNull then false
    else if a.ty == INT then a.intVal > b.intVal
    else if a.ty == FLOAT then num.floatLess(b.floatBits, a.floatBits)
    else if a.ty == TEXT then Less(b.text, a.text)
    else false
  }

  /** `evaluate_condition`. */
  function Holds(num: Numeric, c: Condition, cols: seq<ColumnDef>, row: seq<Value>): bool {
    var i := ColumnIndex(cols, c.column);
    if i < 0 || i >= |row| then false
    else
      var cell := row[i];
      var v := Coerce(num, c.value, cell.ty);
      match c.op
      case EQ => CompareEq(num, cell, v)
      case NE => !CompareEq(num, cell, v)
      case LT => CompareLt(num, cell, v)
      case GT => CompareGt(num, cell, v)
      case LE => CompareEq(num, cell, v) || CompareLt(num, cell, v)
      case GE => CompareEq(num, cell, v) || CompareGt(num, cell, v)
  }

  /** The first n connectives, left to right, without precedence. */
  function FoldWhere(num: Numeric, w: Where, cols: seq<ColumnDef>, row: seq<Value>, n: nat): bool
    requires n < |w.conditions| && n <= |w.ops|
  {
    if n == 0 then Holds(num, w.conditions[0], cols, row)
    else
      var left, next := FoldWhere(num, w, cols, row, n - 1), Holds(num, w.conditions[n], cols, row);
      if w.ops[n - 1] == AND then left && next else left || next
  }

  /** Does a row satisfy a WHERE? An empty one is satisfied by every row. */
  function Satisfies(num: Numeric, w: Where, cols: seq<ColumnDef>, row: seq<Value>): bool
    requires WhereOk(w)
  {
    w.conditions == [] || FoldWhere(num, w, cols, row, |w.ops|)
  }

  /** `evaluate_where`. */
  method EvaluateWhere(num: Numeric, w: Where, cols: seq<ColumnDef>, row: seq<Value>) returns (result: bool)
    requires WhereOk(w)
    ensures result == Satisfies(num, w, cols, row)
  {
    hide Holds;
    if w.conditions == [] {
      return true;
    }
    result := Holds(num, w.conditions[0], cols, row);
    for i := 0 to |w.ops|
      invariant result == FoldWhere(num, w, cols, row, i)
    {
      var next := Holds(num, w.conditions[i + 1], cols, row);
      if w.ops[i] == AND {
        result := result && next;
      } else {
        result := result || next;
      }
    }
  }

  /** Only ANDs: every condition must hold. Only ORs: one is enough. */
  lemma {:induction false} UniformWhere(num: Numeric, w: Where, cols: seq<ColumnDef>, row: seq<Value>, n: nat)
    requires n < |w.conditions| && n <= |w.ops|
    ensures (forall i :: 0 <= i < n ==> w.ops[i] == AND) ==>
      (FoldWhere(num, w, cols, row, n) <==> forall i :: 0 <= i <= n ==> Holds(num, w.conditions[i], cols, row))
    ensures (forall i :: 0 <= i < n ==> w.ops[i] == OR) ==>
      (FoldWhere(num, w, cols, row, n) <==> exists i :: 0 <= i <= n && Holds(num, w.conditions[i], cols, row))
  {
    hide Holds;
    if n > 0 {
      UniformWhere(num, w, cols, row, n - 1);
    }
  }
}
