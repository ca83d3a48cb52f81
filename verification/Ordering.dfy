/** The comparator of ORDER BY on single cells (include/mosaicdb/types.h): when it is a strict weak order. */
module Ordering {
  import opened Bytes
  import opened Values
  import opened Eval

  /** The comparator given to the sort, on the sort keys of two rows. */
  predicate KeyBefore(num: Numeric, desc: bool, x: Value, y: Value) {
    if desc then CompareGt(num, x, y) else CompareLt(num, x, y)
  }

  predicate IsNaN(num: Numeric, bits: nat) {
    !num.floatEq(bits, bits)
  }

  /** The order of IEEE 754 doubles: weak among numbers, and NaN is before and after nothing. Bit pattern 0 is the
      number 0. */
  ghost predicate DoubleOrder(num: Numeric) {
    && !IsNaN(num, 0)
    && (forall x, y :: num.floatLess(x, y) ==> !IsNaN(num, x) && !IsNaN(num, y))
    && (forall x :: !num.floatLess(x, x))
    && (forall x, y, z :: num.floatLess(x, y) && num.floatLess(y, z) ==> num.floatLess(x, z))
    && (forall x, y, z :: num.floatLess(x, z) && !IsNaN(num, y) ==> num.floatLess(x, y) || num.floatLess(y, z))
  }

  /** A key that the comparator puts before keys of every other type, which it reads as 0 or as the empty text:
      negative numbers when ascending, positive numbers and texts that are not empty when descending. */
  predicate Ahead(num: Numeric, desc: bool, x: Value) {
    if x.isNull then false
    else if x.ty == INT then (if desc then x.intVal > 0 else x.intVal < 0)
    else if x.ty == FLOAT then (if desc then num.floatLess(0, x.floatBits) else num.floatLess(x.floatBits, 0))
    else if x.ty == TEXT then desc && x.text != []
    else false
  }

  predicate NotANumber(num: Numeric, x: Value) {
    !x.isNull && x.ty == FLOAT && IsNaN(num, x.floatBits)
  }

  /** The order among keys of one type. */
  predicate Within(num: Numeric, desc: bool, x: Value, y: Value) {
    var lo, hi := if desc then y else x, if desc then x else y;
    if x.ty == INT then lo.intVal < hi.intVal
    else if x.ty == FLOAT then num.floatLess(lo.floatBits, hi.floatBits)
    else x.ty == TEXT && Less(lo.text, hi.text)
  }

  lemma LessThanEmpty(x: Bytes)
    ensures !Less(x, []) && (Less([], x) <==> x != [])
  {
  }

  /** The comparator, by cases: NULL ties with everything, and across types only the left key counts. */
  lemma BeforeIs(num: Numeric, desc: bool, x: Value, y: Value)
    requires Canonical(x) && Canonical(y)
    ensures KeyBefore(num, desc, x, y) <==>
      !x.isNull && !y.isNull && if x.ty == y.ty then Within(num, desc, x, y) else Ahead(num, desc, x)
  {
    hide Less;
    LessThanEmpty(x.text);
  }

  lemma TextWeak(x: Bytes, y: Bytes, z: Bytes)
    ensures !Less(x, x)
    ensures Less(x, y) && Less(y, z) ==> Less(x, z)
    ensures Less(x, z) ==> Less(x, y) || Less(y, z)
  {
    hide Less;
    LessIsStrictTotalOrder();
  }

  /** Keys of one type are weakly ordered, unless the middle one is not a number. */
  lemma WithinWeak(num: Numeric, desc: bool, x: Value, y: Value, z: Value)
    requires DoubleOrder(num) && x.ty == y.ty == z.ty && !y.isNull
    ensures !Within(num, desc, x, x)
    ensures Within(num, desc, x, y) && Within(num, desc, y, z) ==> Within(num, desc, x, z)
    ensures Within(num, desc, x, z) && !NotANumber(num, y) ==> Within(num, desc, x, y) || Within(num, desc, y, z)
  {
    hide Less;
    TextWeak(x.text, y.text, z.text);
    TextWeak(z.text, y.text, x.text);
    TextWeak(x.text, x.text, x.text);
  }

  /** Keys ahead of the other types come first within their own. */
  lemma AheadFirst(num: Numeric, desc: bool, x: Value, y: Value)
    requires DoubleOrder(num) && x.ty == y.ty && !x.isNull && !y.isNull
    ensures Within(num, desc, x, y) && Ahead(num, desc, y) ==> Ahead(num, desc, x)
    ensures Ahead(num, desc, x) && !Ahead(num, desc, y) && !NotANumber(num, y) ==> Within(num, desc, x, y)
  {
    hide Less;
    LessThanEmpty(x.text);
    LessThanEmpty(y.text);
  }

  // ---- When the order is sound. ----

  /** Three keys x, y, z:
      beside a NULL no two keys are told apart;
      beside a NaN no float is before any key;
      two keys of different types are not both ahead;
      and two keys of one type are told apart beside a key of another only if the first is ahead or that one is. */
  predicate Coherent(num: Numeric, desc: bool, x: Value, y: Value, z: Value) {
    && (z.isNull ==> !KeyBefore(num, desc, x, y))
    && (NotANumber(num, z) && x.ty == FLOAT ==> !KeyBefore(num, desc, x, y))
    && (!x.isNull && !z.isNull && x.ty != z.ty ==> !(Ahead(num, desc, x) && Ahead(num, desc, z)))
    && (!x.isNull && !y.isNull && !z.isNull && x.ty == y.ty && x.ty != z.ty && KeyBefore(num, desc, x, y) ==>
        Ahead(num, desc, x) || Ahead(num, desc, z))
  }

  /** The laws of a strict weak order on three keys. */
  predicate Weak(num: Numeric, desc: bool, x: Value, y: Value, z: Value) {
    && !KeyBefore(num, desc, x, x)
    && (KeyBefore(num, desc, x, y) && KeyBefore(num, desc, y, z) ==> KeyBefore(num, desc, x, z))
    && (KeyBefore(num, desc, x, z) ==> KeyBefore(num, desc, x, y) || KeyBefore(num, desc, y, z))
  }

  lemma AllBefore(num: Numeric, desc: bool, x: Value, y: Value, z: Value)
    requires Canonical(x) && Canonical(y) && Canonical(z)
    ensures KeyBefore(num, desc, x, x) <==> !x.isNull && Within(num, desc, x, x)
    ensures KeyBefore(num, desc, x, y) <==>
      !x.isNull && !y.isNull && if x.ty == y.ty then Within(num, desc, x, y) else Ahead(num, desc, x)
    ensures KeyBefore(num, desc, y, z) <==>
      !y.isNull && !z.isNull && if y.ty == z.ty then Within(num, desc, y, z) else Ahead(num, desc, y)
    ensures KeyBefore(num, desc, x, z) <==>
      !x.isNull && !z.isNull && if x.ty == z.ty then Within(num, desc, x, z) else Ahead(num, desc, x)
  {
    hide KeyBefore;
    hide Within;
    hide Ahead;
    hide Canonical;
    BeforeIs(num, desc, x, x);
    BeforeIs(num, desc, x, y);
    BeforeIs(num, desc, y, z);
    BeforeIs(num, desc, x, z);
  }

  /** The conditions on three keys, in every role the proof needs, give the laws. */
  lemma CoherentIsWeak(num: Numeric, desc: bool, x: Value, y: Value, z: Value)
    requires DoubleOrder(num) && Canonical(x) && Canonical(y) && Canonical(z)
    requires Coherent(num, desc, x, z, y) && Coherent(num, desc, x, y, z) && Coherent(num, desc, y, z, x)
    ensures Weak(num, desc, x, y, z)
  {
    hide KeyBefore;
    hide Within;
    hide Ahead;
    hide Canonical;
    hide DoubleOrder;
    hide IsNaN;
    AllBefore(num, desc, x, y, z);
    if !x.isNull && !y.isNull && !z.isNull {
      if x.ty == y.ty {
        AheadFirst(num, desc, x, y);
        if y.ty == z.ty {
          WithinWeak(num, desc, x, y, z);
        }
      }
    }
    if !x.isNull {
      WithinWeak(num, desc, x, x, x);
    }
  }

  /** And the laws, in both orders, give the conditions. */
  lemma WeakIsCoherent(num: Numeric, desc: bool, x: Value, y: Value, z: Value)
    requires DoubleOrder(num) && Canonical(x) && Canonical(y) && Canonical(z)
    requires Weak(num, desc, x, z, y) && Weak(num, desc, x, z, x)
    ensures Coherent(num, desc, x, y, z)
  {
    hide KeyBefore;
    hide Within;
    hide Ahead;
    hide Canonical;
    hide DoubleOrder;
    hide IsNaN;
    AllBefore(num, desc, x, z, y);
    AllBefore(num, desc, x, z, x);
    if NotANumber(num, z) && x.ty == FLOAT {
      NaNTies(num, desc, x, z, y);
    }
  }

  lemma NaNTies(num: Numeric, desc: bool, x: Value, z: Value, y: Value)
    requires DoubleOrder(num) && NotANumber(num, z) && x.ty == FLOAT && Canonical(x) && Canonical(z) && Canonical(y)
    ensures !KeyBefore(num, desc, x, z) && !KeyBefore(num, desc, z, y)
  {
    hide Less;
    BeforeIs(num, desc, x, z);
    BeforeIs(num, desc, z, y);
  }
}
