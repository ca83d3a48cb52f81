/** WHERE without precedence (src/sql/executor.cpp): how the left-to-right fold relates to the usual
    reading, in which AND binds tighter than OR. */
module Precedence {
  import opened Bytes
  import opened Values
  import opened Ast
  import opened Eval

  // ---- Truth values and connectives. ----

  /** The code's reading of the first n connectives. */
  function Folded(bs: seq<bool>, ops: seq<LogicOp>, n: nat): bool
    requires n < |bs| && n <= |ops|
  {
    if n == 0 then bs[0]
    else if ops[n - 1] == AND then Folded(bs, ops, n - 1) && bs[n]
    else Folded(bs, ops, n - 1) || bs[n]
  }

  /** The first operand of the AND-group that operand n belongs to. */
  function GroupStart(ops: seq<LogicOp>, n: nat): (i: nat)
    requires n <= |ops|
    ensures i <= n
  {
    if n == 0 || ops[n - 1] == OR then n else GroupStart(ops, n - 1)
  }

  /** Every operand of the group is true, up to operand n. */
  predicate Group(bs: seq<bool>, ops: seq<LogicOp>, n: nat)
    requires n < |bs| && n <= |ops|
  {
    forall k :: GroupStart(ops, n) <= k <= n ==> bs[k]
  }

  /** The usual reading: some AND-group is true. */
  predicate Standard(bs: seq<bool>, ops: seq<LogicOp>, n: nat)
    requires n < |bs| && n <= |ops|
    decreases n
  {
    var i := GroupStart(ops, n);
    Group(bs, ops, n) || (i > 0 && Standard(bs, ops, i - 1))
  }

  /** Any true group makes the whole true. */
  lemma {:induction false} StandardGrows(bs: seq<bool>, ops: seq<LogicOp>, m: nat, n: nat)
    requires m < n < |bs| && n <= |ops| && Standard(bs, ops, m) && ops[m] == OR
    ensures Standard(bs, ops, n)
    decreases n
  {
    var i := GroupStart(ops, n);
    StartAfterOr(ops, m, n);
    if i - 1 > m {
      StandardGrows(bs, ops, m, i - 1);
    }
  }

  lemma {:induction false} StartAfterOr(ops: seq<LogicOp>, m: nat, n: nat)
    requires m < n <= |ops| && ops[m] == OR
    ensures GroupStart(ops, n) > m
  {
    if ops[n - 1] == AND {
      StartAfterOr(ops, m, n - 1);
    }
  }

  /** What the code accepts, the usual reading accepts too. */
  lemma {:induction false} FoldImpliesStandard(bs: seq<bool>, ops: seq<LogicOp>, n: nat)
    requires n < |bs| && n <= |ops|
    ensures Folded(bs, ops, n) ==> Standard(bs, ops, n)
  {
    if n > 0 {
      FoldImpliesStandard(bs, ops, n - 1);
      if ops[n - 1] == AND {
        assert GroupStart(ops, n) == GroupStart(ops, n - 1);
      } else {
        assert GroupStart(ops, n) == n;
      }
    }
  }

  /** No AND stands after an OR. */
  predicate AndsFirst(ops: seq<LogicOp>) {
    forall i, j :: 0 <= i < j < |ops| && ops[i] == OR ==> ops[j] == OR
  }

  lemma {:induction false} StandardImpliesFold(bs: seq<bool>, ops: seq<LogicOp>, n: nat)
    requires n < |bs| && n <= |ops| && AndsFirst(ops) && Standard(bs, ops, n)
    ensures Folded(bs, ops, n)
  {
    if n > 0 {
      if ops[n - 1] == AND {
        OnlyAnds(bs, ops, n);
      } else {
        assert GroupStart(ops, n) == n;
        if Standard(bs, ops, n - 1) {
          StandardImpliesFold(bs, ops, n - 1);
        }
      }
    }
  }

  lemma {:induction false} OnlyAnds(bs: seq<bool>, ops: seq<LogicOp>, n: nat)
    requires n < |bs| && n <= |ops| && forall i :: 0 <= i < n ==> ops[i] == AND
    ensures GroupStart(ops, n) == 0
    ensures (forall k :: 0 <= k <= n ==> bs[k]) ==> Folded(bs, ops, n)
  {
    if n > 0 {
      OnlyAnds(bs, ops, n - 1);
    }
  }

  /** Operands true up to the i-th, false behind it. */
  function Step(i: nat, n: nat): (bs: seq<bool>)
    ensures |bs| == n + 1
  {
    seq(n + 1, k => k <= i)
  }

  lemma {:induction false} StepFolds(ops: seq<LogicOp>, i: nat, j: nat, n: nat)
    requires i < j < |ops| && ops[i] == OR && ops[j] == AND && n <= |ops|
    ensures j < n ==> !Folded(Step(i, |ops|), ops, n)
  {
    if j + 1 < n {
      StepFolds(ops, i, j, n - 1);
    }
  }

  lemma StepStandard(ops: seq<LogicOp>, i: nat)
    requires i < |ops| && ops[i] == OR
    ensures Standard(Step(i, |ops|), ops, |ops|)
  {
    assert Group(Step(i, |ops|), ops, i);
    StandardGrows(Step(i, |ops|), ops, i, |ops|);
  }

  /** The two readings agree on every truth assignment if and only if no AND stands after an OR. */
  lemma ReadingsAgree(ops: seq<LogicOp>)
    ensures AndsFirst(ops) <==>
      forall bs: seq<bool> :: |bs| == |ops| + 1 ==> Folded(bs, ops, |ops|) == Standard(bs, ops, |ops|)
  {
    hide Folded;
    hide Standard;
    if AndsFirst(ops) {
      forall bs: seq<bool> | |bs| == |ops| + 1 ensures Folded(bs, ops, |ops|) == Standard(bs, ops, |ops|) {
        FoldImpliesStandard(bs, ops, |ops|);
        if Standard(bs, ops, |ops|) {
          StandardImpliesFold(bs, ops, |ops|);
        }
      }
    } else {
      var i, j :| 0 <= i < j < |ops| && ops[i] == OR && ops[j] != OR;
      StepFolds(ops, i, j, |ops|);
      StepStandard(ops, i);
      assert |Step(i, |ops|)| == |ops| + 1;
    }
  }

  // ---- The same for queries. ----

  /** The conditions of a WHERE on a row. */
  function Truths(num: Numeric, w: Where, cols: seq<ColumnDef>, row: seq<Value>): (bs: seq<bool>)
    ensures |bs| == |w.conditions|
  {
    seq(|w.conditions|, i requires 0 <= i < |w.conditions| => Holds(num, w.conditions[i], cols, row))
  }

  /** The usual reading of a WHERE. */
  predicate UsuallySatisfies(num: Numeric, w: Where, cols: seq<ColumnDef>, row: seq<Value>)
    requires WhereOk(w)
  {
    w.conditions == [] || Standard(Truths(num, w, cols, row), w.ops, |w.ops|)
  }

  lemma {:induction false} FoldIsFolded(num: Numeric, w: Where, cols: seq<ColumnDef>, row: seq<Value>, n: nat)
    requires n < |w.conditions| && n <= |w.ops|
    ensures FoldWhere(num, w, cols, row, n) == Folded(Truths(num, w, cols, row), w.ops, n)
  {
    hide Holds;
    if n > 0 {
      FoldIsFolded(num, w, cols, row, n - 1);
    }
  }

  /** A row the code selects is one the usual reading selects. */
  lemma SelectedIsUsual(num: Numeric, w: Where, cols: seq<ColumnDef>, row: seq<Value>)
    requires WhereOk(w)
    ensures Satisfies(num, w, cols, row) ==> UsuallySatisfies(num, w, cols, row)
    ensures AndsFirst(w.ops) ==> (Satisfies(num, w, cols, row) <==> UsuallySatisfies(num, w, cols, row))
  {
    hide Holds;
    hide Standard;
    hide Folded;
    hide FoldWhere;
    hide Truths;
    if w.conditions != [] {
      var bs := Truths(num, w, cols, row);
      FoldIsFolded(num, w, cols, row, |w.ops|);
      FoldImpliesStandard(bs, w.ops, |w.ops|);
      if AndsFirst(w.ops) && Standard(bs, w.ops, |w.ops|) {
        StandardImpliesFold(bs, w.ops, |w.ops|);
      }
    }
  }

  /** A column "c" of booleans, a row where it is true, and conditions on it. */
  const C: Bytes := [0x63]
  const ONE_COLUMN: seq<ColumnDef> := [ColumnDef(C, BOOL, false, false)]
  const TRUE_ROW: seq<Value> := [MakeBool(true)]

  function Query(bs: seq<bool>, ops: seq<LogicOp>): (w: Where)
    requires |bs| == |ops| + 1
    ensures WhereOk(w) && w.ops == ops
  {
    Where(seq(|bs|, i requires 0 <= i < |bs| => Condition(C, EQ, MakeBool(bs[i]))), ops)
  }

  lemma QueryTruths(num: Numeric, bs: seq<bool>, ops: seq<LogicOp>)
    requires |bs| == |ops| + 1
    ensures Truths(num, Query(bs, ops), ONE_COLUMN, TRUE_ROW) == bs
  {
    forall i | 0 <= i < |bs| ensures Holds(num, Query(bs, ops).conditions[i], ONE_COLUMN, TRUE_ROW) == bs[i] {
      assert ONE_COLUMN[0].name == C;
      assert ColumnIndex(ONE_COLUMN, C) == 0;
    }
  }

  /** Whatever the conditions, columns and row, the code reads a WHERE with these connectives as usual,
      if and only if no AND stands after an OR. */
  lemma NoPrecedence(num: Numeric, ops: seq<LogicOp>)
    ensures AndsFirst(ops) <==>
      forall w, cols, row :: WhereOk(w) && w.ops == ops ==>
        (Satisfies(num, w, cols, row) <==> UsuallySatisfies(num, w, cols, row))
  {
    hide Satisfies;
    hide UsuallySatisfies;
    if AndsFirst(ops) {
      forall w, cols, row | WhereOk(w) && w.ops == ops
        ensures Satisfies(num, w, cols, row) <==> UsuallySatisfies(num, w, cols, row)
      {
        SelectedIsUsual(num, w, cols, row);
      }
    } else {
      var w := Query(Misread(ops), ops);
      MisreadQuery(num, ops);
      assert !(Satisfies(num, w, ONE_COLUMN, TRUE_ROW) <==> UsuallySatisfies(num, w, ONE_COLUMN, TRUE_ROW));
    }
  }

  /** A truth assignment that the two readings judge differently. */
  ghost function Misread(ops: seq<LogicOp>): (bs: seq<bool>)
    requires !AndsFirst(ops)
    ensures |bs| == |ops| + 1 && Folded(bs, ops, |ops|) != Standard(bs, ops, |ops|)
  {
    ReadingsAgree(ops);
    var bs :| |bs| == |ops| + 1 && Folded(bs, ops, |ops|) != Standard(bs, ops, |ops|);
    bs
  }

  lemma MisreadQuery(num: Numeric, ops: seq<LogicOp>)
    requires !AndsFirst(ops)
    ensures var w := Query(Misread(ops), ops);
      Satisfies(num, w, ONE_COLUMN, TRUE_ROW) != UsuallySatisfies(num, w, ONE_COLUMN, TRUE_ROW)
  {
    hide Folded;
    hide Standard;
    hide FoldWhere;
    hide Truths;
    var w := Query(Misread(ops), ops);
    QueryTruths(num, Misread(ops), ops);
    FoldIsFolded(num, w, ONE_COLUMN, TRUE_ROW, |ops|);
  }

  /** The smallest case: `a OR b AND c` is read as `(a OR b) AND c`, which differs exactly when a holds and
      c does not. */
  lemma OrThenAnd(a: bool, b: bool, c: bool)
    ensures Folded([a, b, c], [OR, AND], 2) == ((a || b) && c) && Standard([a, b, c], [OR, AND], 2) == (a || (b && c))
    ensures Folded([a, b, c], [OR, AND], 2) != Standard([a, b, c], [OR, AND], 2) <==> a && !c
  {
    var bs, ops := [a, b, c], [OR, AND];
    assert Folded(bs, ops, 1) == (a || b);
    assert GroupStart(ops, 0) == 0 && GroupStart(ops, 1) == 1 && GroupStart(ops, 2) == 1;
    assert Group(bs, ops, 2) == (bs[1] && bs[2]);
    assert Group(bs, ops, 0) == bs[0];
    assert Standard(bs, ops, 0) == a;
  }
}
