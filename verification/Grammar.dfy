/** The grammar the parser accepts (src/sql/sql_parser.cpp): concrete syntax with its
    optional parts, the tokens it is written with, and the statement it means. */
module Grammar {
  import opened Bytes
  import opened Values
  import opened Ast
  import opened Eval
  import opened Tokens

  // ---- Token patterns. ----

  /** A keyword or mark, of which only the kind counts, or a token with its text. */
  datatype Sym = K(kind: Kind) | T(kind: Kind, text: Bytes)

  predicate Fits(t: Token, s: Sym) {
    t.kind == s.kind && (s.T? ==> t.text == s.text)
  }

  /** The tokens from i to j are those of a pattern. */
  predicate Reads(ts: seq<Token>, i: nat, p: seq<Sym>, j: nat) {
    j == i + |p| && j <= |ts| && forall k :: 0 <= k < |p| ==> Fits(ts[i + k], p[k])
  }

  lemma ReadsJoin(ts: seq<Token>, i: nat, p: seq<Sym>, j: nat, q: seq<Sym>, k: nat)
    requires Reads(ts, i, p, j) && Reads(ts, j, q, k)
    ensures Reads(ts, i, p + q, k)
  {
    forall n | 0 <= n < |p + q| ensures Fits(ts[i + n], (p + q)[n]) {
      if n >= |p| {
        assert Fits(ts[j + (n - |p|)], q[n - |p|]);
      }
    }
  }

  lemma ReadsSplit(ts: seq<Token>, i: nat, p: seq<Sym>, q: seq<Sym>, k: nat)
    requires Reads(ts, i, p + q, k)
    ensures Reads(ts, i, p, i + |p|) && Reads(ts, i + |p|, q, k)
  {
    forall n | 0 <= n < |p| ensures Fits(ts[i + n], p[n]) { assert Fits(ts[i + n], (p + q)[n]); }
    forall n | 0 <= n < |q| ensures Fits(ts[i + |p| + n], q[n]) { assert Fits(ts[i + (|p| + n)], (p + q)[|p| + n]); }
  }

  lemma ReadsNone(ts: seq<Token>, i: nat)
    requires i <= |ts|
    ensures Reads(ts, i, [], i)
  {
  }

  /** A list, item after item. */
  function Each<X>(f: X -> seq<Sym>, xs: seq<X>): seq<Sym> {
    if xs == [] then [] else Each(f, xs[..|xs| - 1]) + f(xs[|xs| - 1])
  }

  lemma EachMore<X>(ts: seq<Token>, i: nat, f: X -> seq<Sym>, xs: seq<X>, j: nat, x: X, k: nat)
    requires Reads(ts, i, Each(f, xs), j) && Reads(ts, j, f(x), k)
    ensures Reads(ts, i, Each(f, xs + [x]), k)
  {
    hide Reads;
    assert (xs + [x])[..|xs|] == xs;
    ReadsJoin(ts, i, Each(f, xs), j, f(x), k);
  }

  /** The n-th item of a list stands where the items before it end. */
  lemma {:induction false} EachAt<X>(ts: seq<Token>, i: nat, f: X -> seq<Sym>, xs: seq<X>, j: nat, n: nat)
    requires Reads(ts, i, Each(f, xs), j) && n < |xs|
    ensures Reads(ts, i + |Each(f, xs[..n])|, f(xs[n]), i + |Each(f, xs[..n + 1])|) && i + |Each(f, xs[..n + 1])| <= j
    decreases |xs|
  {
    hide Reads;
    var m := |xs| - 1;
    ReadsSplit(ts, i, Each(f, xs[..m]), f(xs[m]), j);
    assert xs[..m + 1] == xs;
    if n < m {
      assert xs[..m][..n] == xs[..n] && xs[..m][..n + 1] == xs[..n + 1];
      EachAt(ts, i, f, xs[..m], i + |Each(f, xs[..m])|, n);
      ReadsLength(ts, i + |Each(f, xs[..m])|, f(xs[m]), j);
    } else {
      ReadsLength(ts, i + |Each(f, xs[..m])|, f(xs[m]), j);
    }
  }

  lemma ReadsLength(ts: seq<Token>, i: nat, p: seq<Sym>, j: nat)
    requires Reads(ts, i, p, j)
    ensures j == i + |p| <= |ts|
  {
  }

  lemma ReadsAt(ts: seq<Token>, i: nat, p: seq<Sym>, j: nat, n: nat)
    requires Reads(ts, i, p, j) && n < |p|
    ensures i + n < |ts| && Fits(ts[i + n], p[n])
  {
  }

  // ---- Literals, conditions, WHERE. ----

  datatype Literal = IntLit(text: Bytes) | FloatLit(text: Bytes) | StrLit(text: Bytes) | TrueLit | FalseLit | NullLit

  predicate LiteralOk(num: Numeric, l: Literal) {
    match l
    case IntLit(t) => num.parseInt(t).Some?
    case FloatLit(t) => num.parseFloat(t).Some?
    case _ => true
  }

  function LiteralSym(l: Literal): Sym {
    match l
    case IntLit(t) => T(INTEGER_LIT, t)
    case FloatLit(t) => T(FLOAT_LIT, t)
    case StrLit(t) => T(STRING_LIT, t)
    case TrueLit => K(KW_TRUE)
    case FalseLit => K(KW_FALSE)
    case NullLit => K(KW_NULL)
  }

  function LiteralValue(num: Numeric, l: Literal): Value
    requires LiteralOk(num, l)
  {
    match l
    case IntLit(t) => MakeInt(num.parseInt(t).value)
    case FloatLit(t) => MakeFloat(num.parseFloat(t).value)
    case StrLit(t) => MakeText(t)
    case TrueLit => MakeBool(true)
    case FalseLit => MakeBool(false)
    case NullLit => MakeNull(TEXT)
  }

  function OpKind(op: CompOp): Kind {
    match op
    case EQ => OP_EQ
    case NE => OP_NE
    case LT => OP_LT
    case GT => OP_GT
    case LE => OP_LE
    case GE => OP_GE
  }

  function OpOf(k: Kind): (r: Option<CompOp>)
    ensures forall op :: r == Some(op) <==> k == OpKind(op)
  {
    match k
    case OP_EQ => Some(EQ)
    case OP_NE => Some(NE)
    case OP_LT => Some(LT)
    case OP_GT => Some(GT)
    case OP_LE => Some(LE)
    case OP_GE => Some(GE)
    case _ => None
  }

  function LogicKind(op: LogicOp): Kind {
    if op == AND then KW_AND else KW_OR
  }

  datatype CondSyn = CondSyn(column: Bytes, op: CompOp, value: Literal)

  function PrintCond(c: CondSyn): seq<Sym> {
    [T(IDENTIFIER, c.column), K(OpKind(c.op)), LiteralSym(c.value)]
  }

  function CondMeaning(num: Numeric, c: CondSyn): Condition
    requires LiteralOk(num, c.value)
  {
    Condition(c.column, c.op, LiteralValue(num, c.value))
  }

  datatype Link = Link(op: LogicOp, cond: CondSyn)
  datatype WhereSyn = WhereSyn(first: CondSyn, rest: seq<Link>)

  function PrintLink(l: Link): seq<Sym> {
    [K(LogicKind(l.op))] + PrintCond(l.cond)
  }

  function PrintWhere(w: WhereSyn): seq<Sym> {
    [K(KW_WHERE)] + (PrintCond(w.first) + Each(PrintLink, w.rest))
  }

  predicate LinksOk(num: Numeric, ls: seq<Link>) {
    forall i :: 0 <= i < |ls| ==> LiteralOk(num, ls[i].cond.value)
  }

  predicate WhereSynOk(num: Numeric, w: WhereSyn) {
    LiteralOk(num, w.first.value) && LinksOk(num, w.rest)
  }

  function LinksMeaning(num: Numeric, first: Condition, ls: seq<Link>): (r: Where)
    requires LinksOk(num, ls)
    ensures WhereOk(r)
  {
    Where([first] + seq(|ls|, i requires 0 <= i < |ls| => CondMeaning(num, ls[i].cond)),
      seq(|ls|, i requires 0 <= i < |ls| => ls[i].op))
  }

  lemma LinksMore(num: Numeric, first: Condition, ls: seq<Link>, l: Link)
    requires LinksOk(num, ls) && LiteralOk(num, l.cond.value)
    ensures LinksOk(num, ls + [l]) && LinksOk(num, [])
    ensures LinksMeaning(num, first, []) == Where([first], [])
    ensures var w := LinksMeaning(num, first, ls);
      LinksMeaning(num, first, ls + [l]) == Where(w.conditions + [CondMeaning(num, l.cond)], w.ops + [l.op])
  {
    hide LiteralOk;
    hide CondMeaning;
  }

  function WhereMeaning(num: Numeric, w: WhereSyn): (r: Where)
    requires WhereSynOk(num, w)
    ensures WhereOk(r)
  {
    LinksMeaning(num, CondMeaning(num, w.first), w.rest)
  }

  // ---- The optional WHERE. ----

  function PrintFilter(w: Option<WhereSyn>): seq<Sym> {
    if w.Some? then PrintWhere(w.value) else []
  }

  predicate FilterOk(num: Numeric, w: Option<WhereSyn>) {
    w.Some? ==> WhereSynOk(num, w.value)
  }

  function FilterMeaning(num: Numeric, w: Option<WhereSyn>): (r: Where)
    requires FilterOk(num, w)
    ensures WhereOk(r)
  {
    if w.Some? then WhereMeaning(num, w.value) else NO_WHERE
  }

  /** What may follow: no token that would have been read as part of it. */
  predicate FilterEnds(w: Option<WhereSyn>, k: Kind) {
    if w.Some? then k != KW_AND && k != KW_OR else k != KW_WHERE
  }

  // ---- Lists with optional commas. ----

  function PrintComma(comma: bool): seq<Sym> {
    if comma then [K(COMMA)] else []
  }

  datatype NameItem = NameItem(name: Bytes, comma: bool)
  datatype LitItem = LitItem(value: Literal, comma: bool)

  function PrintNameItem(n: NameItem): seq<Sym> { [T(IDENTIFIER, n.name)] + PrintComma(n.comma) }

  function PrintLitItem(l: LitItem): seq<Sym> { [LiteralSym(l.value)] + PrintComma(l.comma) }

  predicate LitsOk(num: Numeric, ls: seq<LitItem>) {
    forall i :: 0 <= i < |ls| ==> LiteralOk(num, ls[i].value)
  }

  function NamesOf(ns: seq<NameItem>): seq<Bytes> {
    seq(|ns|, i requires 0 <= i < |ns| => ns[i].name)
  }

  function ValuesOf(num: Numeric, ls: seq<LitItem>): seq<Value>
    requires LitsOk(num, ls)
  {
    seq(|ls|, i requires 0 <= i < |ls| => LiteralValue(num, ls[i].value))
  }

  // ---- Lists with commas between. ----

  function PrintMoreName(n: Bytes): seq<Sym> { [K(COMMA), T(IDENTIFIER, n)] }

  datatype SetSyn = SetSyn(column: Bytes, value: Literal)

  function PrintSet(s: SetSyn): seq<Sym> { [T(IDENTIFIER, s.column), K(OP_EQ), LiteralSym(s.value)] }

  function PrintMoreSet(s: SetSyn): seq<Sym> { [K(COMMA)] + PrintSet(s) }

  predicate SetsOk(num: Numeric, ss: seq<SetSyn>) {
    forall i :: 0 <= i < |ss| ==> LiteralOk(num, ss[i].value)
  }

  function SetMeaning(num: Numeric, s: SetSyn): Assignment
    requires LiteralOk(num, s.value)
  {
    Assignment(s.column, LiteralValue(num, s.value))
  }

  function SetsMeaning(num: Numeric, ss: seq<SetSyn>): seq<Assignment>
    requires SetsOk(num, ss)
  {
    seq(|ss|, i requires 0 <= i < |ss| => SetMeaning(num, ss[i]))
  }

  // ---- CREATE TABLE. ----

  function TypeOf(k: Kind): Option<Byte> {
    match k
    case KW_INT | KW_INTEGER => Some(INT)
    case KW_FLOAT | KW_REAL | KW_DOUBLE => Some(FLOAT)
    case KW_TEXT | KW_STRING | KW_VARCHAR => Some(TEXT)
    case KW_BOOL | KW_BOOLEAN => Some(BOOL)
    case _ => None
  }

  /** A type name; a text type may carry one token in parentheses, which is skipped unread. */
  datatype TypeSyn = TypeSyn(kind: Kind, size: Option<Sym>)

  predicate TypeSynOk(t: TypeSyn) {
    TypeOf(t.kind).Some? &&
      (t.size.Some? ==> TypeOf(t.kind) == Some(TEXT) && t.size.value.T? && t.size.value.kind != END_OF_INPUT)
  }

  function PrintType(t: TypeSyn): seq<Sym> {
    [K(t.kind)] + if t.size.Some? then [K(LPAREN), t.size.value, K(RPAREN)] else []
  }

  predicate TypeEnds(t: TypeSyn, k: Kind) {
    TypeOf(t.kind) == Some(TEXT) && t.size.None? ==> k != LPAREN
  }

  datatype Constraint = PrimaryKey | NotNull

  function PrintConstraint(c: Constraint): seq<Sym> {
    if c == PrimaryKey then [K(KW_PRIMARY), K(KW_KEY)] else [K(KW_NOT), K(KW_NULL)]
  }

  datatype ItemSyn =
    | KeyItem(name: Bytes, comma: bool)
    | ColumnItem(name: Bytes, ty: TypeSyn, constraints: seq<Constraint>, comma: bool)

  function PrintColumn(name: Bytes, ty: TypeSyn, cs: seq<Constraint>): seq<Sym> {
    [T(IDENTIFIER, name)] + (PrintType(ty) + Each(PrintConstraint, cs))
  }

  function PrintKey(name: Bytes): seq<Sym> {
    [K(KW_PRIMARY), K(KW_KEY), K(LPAREN), T(IDENTIFIER, name), K(RPAREN)]
  }

  function PrintItem(it: ItemSyn): seq<Sym> {
    (match it
     case KeyItem(name, _) => PrintKey(name)
     case ColumnItem(name, ty, cs, _) => PrintColumn(name, ty, cs)) + PrintComma(it.comma)
  }

  predicate ItemSynOk(it: ItemSyn) {
    it.ColumnItem? ==> TypeSynOk(it.ty)
  }

  predicate ColumnEnds(ty: TypeSyn, cs: seq<Constraint>, k: Kind) {
    k != KW_PRIMARY && k != KW_NOT && (cs == [] ==> TypeEnds(ty, k))
  }

  /** What may follow an item: PRIMARY KEY after a column without a comma would belong to the column. */
  predicate ItemEnds(it: ItemSyn, k: Kind) {
    !it.comma ==> k != COMMA && (it.ColumnItem? ==> ColumnEnds(it.ty, it.constraints, k))
  }

  function FirstKind(it: ItemSyn): Kind {
    if it.KeyItem? then KW_PRIMARY else IDENTIFIER
  }

  predicate EachItemOk(items: seq<ItemSyn>) {
    forall i :: 0 <= i < |items| ==> ItemSynOk(items[i])
  }

  predicate ItemsOk(items: seq<ItemSyn>) {
    EachItemOk(items) && forall i :: 0 <= i < |items| - 1 ==> ItemEnds(items[i], FirstKind(items[i + 1]))
  }

  function ColumnOf(it: ItemSyn): ColumnDef
    requires it.ColumnItem? && ItemSynOk(it)
  {
    ColumnDef(it.name, TypeOf(it.ty.kind).value, NotNull in it.constraints, PrimaryKey in it.constraints)
  }

  /** The columns, in order. */
  function ColumnsOf(items: seq<ItemSyn>): (r: seq<ColumnDef>)
    requires EachItemOk(items)
    ensures |r| <= |items|
  {
    if items == [] then []
    else
      var last := items[|items| - 1];
      ColumnsOf(items[..|items| - 1]) + if last.ColumnItem? then [ColumnOf(last)] else []
  }

  predicate NamesKey(it: ItemSyn) {
    it.KeyItem? || PrimaryKey in it.constraints
  }

  /** The primary key: what the last item to name one says. */
  function KeyName(items: seq<ItemSyn>): Bytes {
    if items == [] then []
    else
      var last := items[|items| - 1];
      if NamesKey(last) then last.name else KeyName(items[..|items| - 1])
  }

  /** No item after the i-th names a key. */
  predicate LastKey(items: seq<ItemSyn>, i: nat) {
    i < |items| && NamesKey(items[i]) && forall j :: i < j < |items| ==> !NamesKey(items[j])
  }

  lemma {:induction false} KeyNameIs(items: seq<ItemSyn>, i: nat)
    ensures LastKey(items, i) ==> KeyName(items) == items[i].name
    ensures (forall j :: 0 <= j < |items| ==> !NamesKey(items[j])) ==> KeyName(items) == []
  {
    hide NamesKey;
    if items != [] && !NamesKey(items[|items| - 1]) {
      KeyNameIs(items[..|items| - 1], i);
    }
  }

  function MarkColumn(c: ColumnDef, pk: Bytes): ColumnDef {
    if pk != [] && c.name == pk then c.(isPk := true, notNull := true) else c
  }

  /** Key columns are marked PRIMARY KEY and NOT NULL. */
  function Marked(cols: seq<ColumnDef>, pk: Bytes): (r: seq<ColumnDef>)
    ensures |r| == |cols|
    ensures forall i :: 0 <= i < |cols| ==>
      && r[i].name == cols[i].name && r[i].ty == cols[i].ty
      && r[i].notNull == (cols[i].notNull || (pk != [] && cols[i].name == pk))
      && r[i].isPk == (cols[i].isPk || (pk != [] && cols[i].name == pk))
  {
    seq(|cols|, i requires 0 <= i < |cols| => MarkColumn(cols[i], pk))
  }

  // ---- SELECT's tail. ----

  /** ORDER BY with DESC (true), ASC (false) or neither. */
  datatype OrderSyn = OrderSyn(column: Bytes, direction: Option<bool>)

  function PrintDirection(d: Option<bool>): seq<Sym> {
    if d == None then [] else if d.value then [K(KW_DESC)] else [K(KW_ASC)]
  }

  function PrintOrder(o: Option<OrderSyn>): seq<Sym> {
    if o.None? then [] else [K(KW_ORDER), K(KW_BY), T(IDENTIFIER, o.value.column)] + PrintDirection(o.value.direction)
  }

  predicate OrderEnds(o: Option<OrderSyn>, k: Kind) {
    if o.None? then k != KW_ORDER else o.value.direction.None? ==> k != KW_DESC && k != KW_ASC
  }

  /** LIMIT reads a number off any token. */
  predicate LimitOk(num: Numeric, l: Option<Sym>) {
    l.Some? ==> l.value.T? && l.value.kind != END_OF_INPUT && num.parseLimit(l.value.text).Some?
  }

  function PrintLimit(l: Option<Sym>): seq<Sym> {
    if l.None? then [] else [K(KW_LIMIT), l.value]
  }

  predicate LimitEnds(l: Option<Sym>, k: Kind) {
    l.None? ==> k != KW_LIMIT
  }

  function LimitMeaning(num: Numeric, l: Option<Sym>): int
    requires LimitOk(num, l)
  {
    if l.None? then -1 else num.parseLimit(l.value.text).value
  }

  /** `*`, or names with commas between. */
  function PrintColumns(all: bool, names: seq<Bytes>): seq<Sym> {
    if all || names == [] then [K(STAR)] else [T(IDENTIFIER, names[0])] + Each(PrintMoreName, names[1..])
  }

  // ---- Statements. ----

  datatype Syntax =
    | CreateSyn(table: Bytes, items: seq<ItemSyn>)
    | DropSyn(table: Bytes, ifExists: bool)
    | InsertSyn(table: Bytes, names: Option<seq<NameItem>>, values: seq<LitItem>)
    | SelectSyn(table: Bytes, all: bool, columns: seq<Bytes>, filter: Option<WhereSyn>, order: Option<OrderSyn>,
      limit: Option<Sym>)
    | UpdateSyn(table: Bytes, sets: seq<SetSyn>, filter: Option<WhereSyn>)
    | DeleteSyn(table: Bytes, filter: Option<WhereSyn>)
    | ShowSyn
    | DescribeSyn(table: Bytes)

  function PrintNames(ns: Option<seq<NameItem>>): seq<Sym> {
    if ns.None? then [] else [K(LPAREN)] + (Each(PrintNameItem, ns.value) + [K(RPAREN)])
  }

  function PrintSets(ss: seq<SetSyn>): seq<Sym> {
    if ss == [] then [] else PrintSet(ss[0]) + Each(PrintMoreSet, ss[1..])
  }

  function Print(c: Syntax): seq<Sym> {
    match c
    case CreateSyn(table, items) =>
      [K(KW_CREATE), K(KW_TABLE), T(IDENTIFIER, table), K(LPAREN)] + (Each(PrintItem, items) + [K(RPAREN)])
    case DropSyn(table, ifExists) =>
      if ifExists then [K(KW_DROP), K(KW_TABLE), K(KW_IF), K(KW_EXISTS), T(IDENTIFIER, table)]
      else [K(KW_DROP), K(KW_TABLE), T(IDENTIFIER, table)]
    case InsertSyn(table, names, values) =>
      [K(KW_INSERT), K(KW_INTO), T(IDENTIFIER, table)] +
      (PrintNames(names) + ([K(KW_VALUES), K(LPAREN)] + (Each(PrintLitItem, values) + [K(RPAREN)])))
    case SelectSyn(table, all, columns, filter, order, limit) =>
      [K(KW_SELECT)] + (PrintColumns(all, columns) + ([K(KW_FROM), T(IDENTIFIER, table)] +
      (PrintFilter(filter) + (PrintOrder(order) + PrintLimit(limit)))))
    case UpdateSyn(table, sets, filter) =>
      [K(KW_UPDATE), T(IDENTIFIER, table), K(KW_SET)] + (PrintSets(sets) + PrintFilter(filter))
    case DeleteSyn(table, filter) => [K(KW_DELETE), K(KW_FROM), T(IDENTIFIER, table)] + PrintFilter(filter)
    case ShowSyn => [K(KW_SHOW), K(KW_TABLES)]
    case DescribeSyn(table) => [K(KW_DESCRIBE), T(IDENTIFIER, table)]
  }

  predicate SyntaxOk(num: Numeric, c: Syntax) {
    match c
    case CreateSyn(_, items) => ItemsOk(items)
    case InsertSyn(_, _, values) => LitsOk(num, values)
    case SelectSyn(_, all, columns, filter, order, limit) => (all <==> columns == []) && FilterOk(num, filter) &&
      LimitOk(num, limit)
    case UpdateSyn(_, sets, filter) => sets != [] && SetsOk(num, sets) && FilterOk(num, filter)
    case DeleteSyn(_, filter) => FilterOk(num, filter)
    case _ => true
  }

  predicate TailEnds(filter: Option<WhereSyn>, order: Option<OrderSyn>, limit: Option<Sym>, k: Kind) {
    && LimitEnds(limit, k)
    && (limit.None? ==> OrderEnds(order, k))
    && (limit.None? && order.None? ==> FilterEnds(filter, k))
  }

  /** What may follow a statement; after that the parser stops and ignores the rest. */
  predicate Ends(c: Syntax, k: Kind) {
    match c
    case SelectSyn(_, _, _, filter, order, limit) => TailEnds(filter, order, limit, k)
    case UpdateSyn(_, _, filter) => FilterEnds(filter, k) && (filter.None? ==> k != COMMA)
    case DeleteSyn(_, filter) => FilterEnds(filter, k)
    case _ => true
  }

  function Meaning(num: Numeric, c: Syntax): Statement
    requires SyntaxOk(num, c)
  {
    match c
    case CreateSyn(table, items) => CreateTable(table, Marked(ColumnsOf(items), KeyName(items)), KeyName(items))
    case DropSyn(table, ifExists) => DropTable(table, ifExists)
    case InsertSyn(table, names, values) => Insert(table, if names.None? then [] else NamesOf(names.value),
      ValuesOf(num, values))
    case SelectSyn(table, all, columns, filter, order, limit) =>
      Select(table, columns, all, FilterMeaning(num, filter), if order.None? then [] else order.value.column,
        order.Some? && order.value.direction == Some(true), LimitMeaning(num, limit))
    case UpdateSyn(table, sets, filter) => Update(table, SetsMeaning(num, sets), FilterMeaning(num, filter))
    case DeleteSyn(table, filter) => Delete(table, FilterMeaning(num, filter))
    case ShowSyn => ShowTables
    case DescribeSyn(table) => Describe(table)
  }
}
