/** One sentence of each kind, token by token, and the statement it is read as (src/sql/sql_parser.cpp). */
module Samples {
  import opened Bytes
  import opened Values
  import opened Ast
  import opened Eval
  import opened Tokens
  import opened Grammar

  /** These tokens are a sentence of the grammar, and this statement is its meaning. */
  ghost predicate Says(num: Numeric, p: seq<Sym>, st: Statement) {
    exists c :: SyntaxOk(num, c) && Print(c) == p && Meaning(num, c) == st
  }

  lemma EachTwo<X>(f: X -> seq<Sym>, x: X, y: X)
    ensures Each(f, []) == []
    ensures Each(f, [x]) == f(x)
    ensures Each(f, [x, y]) == f(x) + f(y)
  {
    assert [x][..0] == [] && [x, y][..1] == [x];
  }

  /** CREATE TABLE t (id INT, a VARCHAR NOT NULL, PRIMARY KEY (id)): the key column comes out PRIMARY KEY and
      NOT NULL. */
  lemma CreateSentence(num: Numeric, t: Bytes, id: Bytes, a: Bytes)
    requires id != a && id != []
    ensures Says(num,
      [K(KW_CREATE), K(KW_TABLE), T(IDENTIFIER, t), K(LPAREN)] + ([
        T(IDENTIFIER, id), K(KW_INT), K(COMMA),
        T(IDENTIFIER, a), K(KW_VARCHAR), K(KW_NOT), K(KW_NULL), K(COMMA),
        K(KW_PRIMARY), K(KW_KEY), K(LPAREN), T(IDENTIFIER, id), K(RPAREN)] +
      [K(RPAREN)]),
      CreateTable(t, [ColumnDef(id, INT, true, true), ColumnDef(a, TEXT, true, false)], id))
  {
    hide Each;
    hide Marked;
    hide ColumnsOf;
    hide KeyName;
    var items := [IdItem(id), AItem(a), KeyItem(id, false)];
    var c := CreateSyn(t, items);
    ItemsPrinted(id, a);
    ItemsMeant(id, a);
    assert SyntaxOk(num, c);
  }

  function IdItem(id: Bytes): ItemSyn { ColumnItem(id, TypeSyn(KW_INT, None), [], true) }

  function AItem(a: Bytes): ItemSyn { ColumnItem(a, TypeSyn(KW_VARCHAR, None), [NotNull], true) }

  lemma ItemsMeant(id: Bytes, a: Bytes)
    requires id != a && id != []
    ensures var items := [IdItem(id), AItem(a), KeyItem(id, false)];
      && EachItemOk(items) && KeyName(items) == id
      && Marked(ColumnsOf(items), id) == [ColumnDef(id, INT, true, true), ColumnDef(a, TEXT, true, false)]
  {
    hide KeyName;
    var x, y, z := IdItem(id), AItem(a), KeyItem(id, false);
    KeyNameIs([x, y, z], 2);
    assert [x, y, z][..2] == [x, y] && [x, y][..1] == [x] && [x][..0] == [];
    assert ColumnsOf([x]) == [ColumnDef(id, INT, false, false)];
    assert ColumnsOf([x, y]) == [ColumnDef(id, INT, false, false), ColumnDef(a, TEXT, true, false)];
    assert ColumnsOf([x, y, z]) == ColumnsOf([x, y]);
  }

  lemma ItemPrinted(id: Bytes, a: Bytes)
    ensures PrintItem(IdItem(id)) == [T(IDENTIFIER, id), K(KW_INT), K(COMMA)]
    ensures PrintItem(AItem(a)) == [T(IDENTIFIER, a), K(KW_VARCHAR), K(KW_NOT), K(KW_NULL), K(COMMA)]
    ensures PrintItem(KeyItem(id, false)) == [K(KW_PRIMARY), K(KW_KEY), K(LPAREN), T(IDENTIFIER, id), K(RPAREN)]
  {
    EachTwo(PrintConstraint, NotNull, NotNull);
  }

  lemma ItemsPrinted(id: Bytes, a: Bytes)
    ensures Each(PrintItem, [IdItem(id), AItem(a), KeyItem(id, false)]) ==
      [T(IDENTIFIER, id), K(KW_INT), K(COMMA),
       T(IDENTIFIER, a), K(KW_VARCHAR), K(KW_NOT), K(KW_NULL), K(COMMA),
       K(KW_PRIMARY), K(KW_KEY), K(LPAREN), T(IDENTIFIER, id), K(RPAREN)]
  {
    hide PrintItem;
    hide IdItem;
    hide AItem;
    var x, y, z := IdItem(id), AItem(a), KeyItem(id, false);
    ItemPrinted(id, a);
    EachTwo(PrintItem, x, y);
    assert [x, y, z][..2] == [x, y];
    assert Each(PrintItem, [x, y, z]) == PrintItem(x) + PrintItem(y) + PrintItem(z);
  }

  /** INSERT INTO t (a, b) VALUES ('x', NULL). */
  lemma InsertSentence(num: Numeric, t: Bytes, a: Bytes, b: Bytes, x: Bytes)
    ensures Says(num,
      [K(KW_INSERT), K(KW_INTO), T(IDENTIFIER, t)] + (
      [K(LPAREN), T(IDENTIFIER, a), K(COMMA), T(IDENTIFIER, b), K(RPAREN)] +
      ([K(KW_VALUES), K(LPAREN)] + ([T(STRING_LIT, x), K(COMMA), K(KW_NULL)] + [K(RPAREN)]))),
      Insert(t, [a, b], [MakeText(x), MakeNull(TEXT)]))
  {
    hide Each;
    var names := [NameItem(a, true), NameItem(b, false)];
    var values := [LitItem(StrLit(x), true), LitItem(NullLit, false)];
    EachTwo(PrintNameItem, names[0], names[1]);
    EachTwo(PrintLitItem, values[0], values[1]);
    var c := InsertSyn(t, Some(names), values);
    assert PrintNames(Some(names)) == [K(LPAREN), T(IDENTIFIER, a), K(COMMA), T(IDENTIFIER, b), K(RPAREN)];
    assert Each(PrintLitItem, values) == [T(STRING_LIT, x), K(COMMA), K(KW_NULL)];
    assert NamesOf(names) == [a, b] && ValuesOf(num, values) == [MakeText(x), MakeNull(TEXT)];
    assert SyntaxOk(num, c);
  }

  /** The WHERE `a < n OR b = TRUE`. */
  function AOrB(a: Bytes, b: Bytes, n: Bytes): WhereSyn {
    WhereSyn(CondSyn(a, LT, IntLit(n)), [Link(OR, CondSyn(b, EQ, TrueLit))])
  }

  lemma AOrBIs(num: Numeric, a: Bytes, b: Bytes, n: Bytes)
    requires num.parseInt(n).Some?
    ensures PrintWhere(AOrB(a, b, n)) ==
      [K(KW_WHERE), T(IDENTIFIER, a), K(OP_LT), T(INTEGER_LIT, n), K(KW_OR), T(IDENTIFIER, b), K(OP_EQ), K(KW_TRUE)]
    ensures WhereSynOk(num, AOrB(a, b, n)) && WhereMeaning(num, AOrB(a, b, n)) ==
      Where([Condition(a, LT, MakeInt(num.parseInt(n).value)), Condition(b, EQ, MakeBool(true))], [OR])
  {
    var link := Link(OR, CondSyn(b, EQ, TrueLit));
    EachTwo(PrintLink, link, link);
  }

  /** SELECT a, b FROM t WHERE a < n OR b = TRUE ORDER BY b DESC LIMIT l. */
  lemma SelectSentence(num: Numeric, t: Bytes, a: Bytes, b: Bytes, n: Bytes, l: Bytes)
    requires num.parseInt(n).Some? && num.parseLimit(l).Some?
    ensures Says(num,
      [K(KW_SELECT)] + ([T(IDENTIFIER, a), K(COMMA), T(IDENTIFIER, b)] + ([K(KW_FROM), T(IDENTIFIER, t)] + (
      [K(KW_WHERE), T(IDENTIFIER, a), K(OP_LT), T(INTEGER_LIT, n), K(KW_OR), T(IDENTIFIER, b), K(OP_EQ), K(KW_TRUE)] +
      ([K(KW_ORDER), K(KW_BY), T(IDENTIFIER, b), K(KW_DESC)] + [K(KW_LIMIT), T(INTEGER_LIT, l)])))),
      Select(t, [a, b], false,
        Where([Condition(a, LT, MakeInt(num.parseInt(n).value)), Condition(b, EQ, MakeBool(true))], [OR]),
        b, true, num.parseLimit(l).value))
  {
    hide PrintWhere;
    hide WhereMeaning;
    hide WhereSynOk;
    hide AOrB;
    hide Each;
    var w, order, limit := AOrB(a, b, n), OrderSyn(b, Some(true)), T(INTEGER_LIT, l);
    AOrBIs(num, a, b, n);
    EachTwo(PrintMoreName, b, b);
    assert [a, b][1..] == [b];
    assert PrintColumns(false, [a, b]) == [T(IDENTIFIER, a), K(COMMA), T(IDENTIFIER, b)];
    assert PrintOrder(Some(order)) == [K(KW_ORDER), K(KW_BY), T(IDENTIFIER, b), K(KW_DESC)];
    assert SyntaxOk(num, SelectSyn(t, false, [a, b], Some(w), Some(order), Some(limit)));
  }

  /** SELECT * FROM t ORDER BY b: ascending, without a limit. */
  lemma SelectAllSentence(num: Numeric, t: Bytes, b: Bytes)
    ensures Says(num,
      [K(KW_SELECT), K(STAR), K(KW_FROM), T(IDENTIFIER, t), K(KW_ORDER), K(KW_BY), T(IDENTIFIER, b)],
      Select(t, [], true, NO_WHERE, b, false, -1))
  {
    var c := SelectSyn(t, true, [], None, Some(OrderSyn(b, None)), None);
    assert SyntaxOk(num, c);
    assert Print(c) == [K(KW_SELECT), K(STAR), K(KW_FROM), T(IDENTIFIER, t), K(KW_ORDER), K(KW_BY), T(IDENTIFIER, b)];
  }

  /** UPDATE t SET a = n, b = FALSE WHERE a < n OR b = TRUE. */
  lemma UpdateSentence(num: Numeric, t: Bytes, a: Bytes, b: Bytes, n: Bytes)
    requires num.parseInt(n).Some?
    ensures Says(num,
      [K(KW_UPDATE), T(IDENTIFIER, t), K(KW_SET)] + ([T(IDENTIFIER, a), K(OP_EQ), T(INTEGER_LIT, n), K(COMMA),
       T(IDENTIFIER, b), K(OP_EQ), K(KW_FALSE)] +
      [K(KW_WHERE), T(IDENTIFIER, a), K(OP_LT), T(INTEGER_LIT, n), K(KW_OR), T(IDENTIFIER, b), K(OP_EQ), K(KW_TRUE)]),
      Update(t, [Assignment(a, MakeInt(num.parseInt(n).value)), Assignment(b, MakeBool(false))],
        Where([Condition(a, LT, MakeInt(num.parseInt(n).value)), Condition(b, EQ, MakeBool(true))], [OR])))
  {
    hide PrintWhere;
    hide WhereMeaning;
    hide WhereSynOk;
    hide AOrB;
    hide Each;
    var x, y := SetSyn(a, IntLit(n)), SetSyn(b, FalseLit);
    var w := AOrB(a, b, n);
    AOrBIs(num, a, b, n);
    EachTwo(PrintMoreSet, y, y);
    assert [x, y][1..] == [y];
    assert PrintSets([x, y]) == [T(IDENTIFIER, a), K(OP_EQ), T(INTEGER_LIT, n), K(COMMA),
      T(IDENTIFIER, b), K(OP_EQ), K(KW_FALSE)];
    assert SyntaxOk(num, UpdateSyn(t, [x, y], Some(w)));
  }

  /** DELETE FROM t, and DROP TABLE IF EXISTS t. */
  lemma ShortSentences(num: Numeric, t: Bytes)
    ensures Says(num, [K(KW_DELETE), K(KW_FROM), T(IDENTIFIER, t)], Delete(t, NO_WHERE))
    ensures Says(num, [K(KW_DROP), K(KW_TABLE), K(KW_IF), K(KW_EXISTS), T(IDENTIFIER, t)], DropTable(t, true))
    ensures Says(num, [K(KW_DROP), K(KW_TABLE), T(IDENTIFIER, t)], DropTable(t, false))
  {
    var x, y, z := DeleteSyn(t, None), DropSyn(t, true), DropSyn(t, false);
    assert SyntaxOk(num, x) && SyntaxOk(num, y) && SyntaxOk(num, z);
    assert Print(x) == [K(KW_DELETE), K(KW_FROM), T(IDENTIFIER, t)];
    assert Says(num, Print(y), DropTable(t, true)) && Says(num, Print(z), DropTable(t, false));
  }
}
