/** The recursive-descent parser (src/sql/sql_parser.cpp). Each parse method is proved against the
    grammar in both directions. A success returns the meaning of the syntax that was read, which the
    ghost result c names. And if the tokens up to `end` spell some syntax `want`, then that is what is
    read, up to exactly there. */
module Parser {
  import opened Bytes
  import opened Values
  import opened Ast
  import opened Eval
  import opened Tokens
  import opened Tokenizer
  import opened Grammar
  import opened Sentences

  /** The result of a parse function; Error stands for its exception. */
  datatype Parsed<+X> = Parsed(value: X) | Error {
    predicate IsFailure(): (b: bool)
      ensures b <==> Error?
    {
      Error?
    }

    function PropagateFailure<U>(): (r: Parsed<U>)
      requires Error?
      ensures r.Error?
    {
      Error
    }

    function Extract(): (x: X)
      requires Parsed?
      ensures Parsed(x) == this
    {
      value
    }
  }

  predicate GoodName(w: Bytes) {
    IsWord(w) && |w| < 0x1_0000_0000
  }

  /** `at_end`: the kinds that end every list. */
  predicate IsEnd(k: Kind): (b: bool)
    ensures b <==> k == END_OF_INPUT || k == SEMICOLON
  {
    k == END_OF_INPUT || k == SEMICOLON
  }

  /** What one item of CREATE TABLE adds. */
  datatype Definition = Definition(column: Option<ColumnDef>, key: Option<Bytes>)

  function DefinitionOf(it: ItemSyn): Definition
    requires ItemSynOk(it)
  {
    Definition(if it.ColumnItem? then Some(ColumnOf(it)) else None, if NamesKey(it) then Some(it.name) else None)
  }

  function WithColumn(cols: seq<ColumnDef>, d: Definition): seq<ColumnDef> {
    if d.column.Some? then cols + [d.column.value] else cols
  }

  function WithKeyOf(pk: Bytes, d: Definition): Bytes {
    if d.key.Some? then d.key.value else pk
  }

  lemma DefinitionFacts(cols: seq<ColumnDef>, pk: Bytes, d: Definition)
    ensures WithColumn(cols, d) == cols + if d.column.Some? then [d.column.value] else []
    ensures WithKeyOf(pk, d) == if d.key.Some? then d.key.value else pk
    ensures |WithColumn(cols, d)| <= |cols| + 1
  {
  }

  predicate ColumnsFit(cols: seq<ColumnDef>, pk: Bytes) {
    |pk| < 0x1_0000_0000 && forall i :: 0 <= i < |cols| ==> |cols[i].name| < 0x1_0000_0000
  }

  /** Items read so far, when k comes next. */
  ghost predicate OpenItems(c: seq<ItemSyn>, k: Kind) {
    ItemsOk(c) && (c != [] ==> ItemEnds(c[|c| - 1], k))
  }

  lemma NoDefinitions()
    ensures ColumnsOf([]) == [] && KeyName([]) == [] && ColumnsFit([], []) && forall k :: OpenItems([], k)
  {
  }

  lemma DefinitionsMore(c: seq<ItemSyn>, it: ItemSyn, k: Kind)
    requires OpenItems(c, FirstKind(it)) && ItemSynOk(it) && ItemEnds(it, k)
    ensures OpenItems(c + [it], k)
    ensures ColumnsOf(c + [it]) == ColumnsOf(c) + if DefinitionOf(it).column.Some? then
      [DefinitionOf(it).column.value] else []
    ensures KeyName(c + [it]) == if DefinitionOf(it).key.Some? then DefinitionOf(it).key.value else KeyName(c)
    ensures ColumnsFit(ColumnsOf(c), KeyName(c)) && GoodName(it.name) ==>
      ColumnsFit(ColumnsOf(c + [it]), KeyName(c + [it]))
  {
    hide ItemEnds;
    hide ItemSynOk;
    hide IsWord;
    hide TypeOf;
    hide NamesKey;
    hide FirstKind;
    OpenMore(c, it, k);
    assert (c + [it])[..|c|] == c;
  }

  lemma OpenMore(c: seq<ItemSyn>, it: ItemSyn, k: Kind)
    requires OpenItems(c, FirstKind(it)) && ItemSynOk(it) && ItemEnds(it, k)
    ensures OpenItems(c + [it], k)
  {
    hide ItemEnds;
    hide ItemSynOk;
    hide FirstKind;
  }

  /** What the parser is given: tokens as the tokenizer makes them, of limited length. */
  ghost predicate InputOk(tokens: seq<Token>, num: Numeric) {
    TokensOk(tokens) && ShortTexts(tokens, 0xFFFF_FFFF) && |tokens| <= 0x1_0000_0000 && NumericOk(num)
  }

  // ---- Facts the methods use. ----

  lemma TokenFacts(tokens: seq<Token>, num: Numeric, i: nat)
    requires InputOk(tokens, num) && i < |tokens|
    ensures tokens[i].kind == END_OF_INPUT <==> i == |tokens| - 1
    ensures tokens[i].kind == END_OF_INPUT ==> tokens[i].text == []
    ensures tokens[i].kind == IDENTIFIER ==> GoodName(tokens[i].text)
  {
    hide NumericOk;
    hide IsWord;
  }

  lemma LiteralCanonical(tokens: seq<Token>, num: Numeric, c: Literal, i: nat)
    requires InputOk(tokens, num) && LiteralIs(num, tokens, i, c)
    ensures LiteralOk(num, c) && Canonical(LiteralValue(num, c))
  {
    hide TokensOk;
  }

  lemma OpNotEnd(op: CompOp)
    ensures OpKind(op) != END_OF_INPUT
  {
  }

  lemma CondValue(num: Numeric, c: CondSyn)
    requires LiteralOk(num, c.value)
    ensures CondMeaning(num, c) == Condition(c.column, c.op, LiteralValue(num, c.value))
  {
  }

  lemma LogicFacts(op: LogicOp)
    ensures LogicKind(op) == (if op == AND then KW_AND else KW_OR) && IsLogic(LogicKind(op))
  {
  }

  lemma LogicKinds()
    ensures forall k :: IsLogic(k) <==> k == KW_AND || k == KW_OR
  {
  }

  lemma NameReads(tokens: seq<Token>, i: nat, n: NameItem, j: nat)
    requires NameIs(tokens, i, n, j)
    ensures Reads(tokens, i, PrintNameItem(n), j)
  {
  }

  lemma NameRead(tokens: seq<Token>, start: nat, c: seq<NameItem>, p: nat, n: NameItem, q: nat)
    requires ListIs(tokens, start, PrintNameItem, c, p) && NameIs(tokens, p, n, q)
    ensures ListIs(tokens, start, PrintNameItem, More(c, n), q) && NamesOf(More(c, n)) == NamesOf(c) + [n.name]
  {
    hide ListIs;
    hide NameIs;
    NameReads(tokens, p, n, q);
    OneMore(tokens, start, PrintNameItem, c, p, n, q);
    NamesMore(c, n);
  }

  lemma ConstraintRead(tokens: seq<Token>, start: nat, c: seq<Constraint>, p: nat, x: Constraint, q: nat)
    requires ListIs(tokens, start, PrintConstraint, c, p) && Reads(tokens, p, PrintConstraint(x), q)
    ensures ListIs(tokens, start, PrintConstraint, More(c, x), q)
    ensures NotNull in More(c, x) <==> NotNull in c || x == NotNull
    ensures PrimaryKey in More(c, x) <==> PrimaryKey in c || x == PrimaryKey
  {
    hide ListIs;
    hide Reads;
    OneMore(tokens, start, PrintConstraint, c, p, x, q);
  }

  lemma ValueReads(tokens: seq<Token>, num: Numeric, i: nat, l: LitItem, j: nat)
    requires ValueIs(num, tokens, i, l, j)
    ensures Reads(tokens, i, PrintLitItem(l), j)
  {
  }

  ghost predicate ListedRead(tokens: seq<Token>, num: Numeric, start: nat, c: seq<LitItem>, values: seq<Value>,
      p: nat) {
    ListIs(tokens, start, PrintLitItem, c, p) && LitsOk(num, c) && values == ValuesOf(num, c) && AllCanonical(values)
  }

  lemma ListedParts(tokens: seq<Token>, num: Numeric, start: nat, c: seq<LitItem>, values: seq<Value>, p: nat)
    requires ListedRead(tokens, num, start, c, values, p)
    ensures ListIs(tokens, start, PrintLitItem, c, p) && LitsOk(num, c) && values == ValuesOf(num, c) &&
      AllCanonical(values)
  {
    hide ListIs;
    hide LitsOk;
    hide AllCanonical;
    hide ValuesOf;
  }

  lemma NoneRead(tokens: seq<Token>, num: Numeric, start: nat)
    requires start < |tokens|
    ensures ListedRead(tokens, num, start, [], [], start)
  {
    hide ListIs;
    Sentences.NoItems(tokens, start, PrintLitItem);
    NoValues(num);
  }

  lemma ValueRead(tokens: seq<Token>, num: Numeric, start: nat, c: seq<LitItem>, values: seq<Value>, p: nat, l: LitItem,
      q: nat)
    requires ListedRead(tokens, num, start, c, values, p) && ValueIs(num, tokens, p, l, q) &&
      Canonical(LiteralValue(num, l.value))
    ensures ListedRead(tokens, num, start, More(c, l), values + [LiteralValue(num, l.value)], q)
  {
    hide ListIs;
    hide Reads;
    hide Canonical;
    hide LitsOk;
    hide ValuesOf;
    hide AllCanonical;
    hide LiteralValue;
    ValueReads(tokens, num, p, l, q);
    OneMore(tokens, start, PrintLitItem, c, p, l, q);
    ValuesMore(num, c, l);
  }

  lemma LastName(tokens: seq<Token>, start: nat, want: seq<NameItem>, end: nat, c: seq<NameItem>, p: nat)
    requires Closed(tokens, start, PrintNameItem, want, end) && Along(c, want) &&
      ListIs(tokens, start, PrintNameItem, c, p)
    requires p < |tokens| && (tokens[p].kind == RPAREN || IsEnd(tokens[p].kind))
    ensures c == want && p + 1 == end && tokens[p].kind == RPAREN
  {
    hide *;
    NextName(tokens, start, want, end, c, p);
  }

  lemma LastValue(tokens: seq<Token>, num: Numeric, start: nat, want: seq<LitItem>, end: nat, c: seq<LitItem>, p: nat)
    requires Closed(tokens, start, PrintLitItem, want, end) && LitsOk(num, want) && Along(c, want) &&
      ListIs(tokens, start, PrintLitItem, c, p)
    requires p < |tokens| && (tokens[p].kind == RPAREN || IsEnd(tokens[p].kind))
    ensures c == want && p + 1 == end && tokens[p].kind == RPAREN
  {
    hide *;
    NextValue(num, tokens, start, want, end, c, p);
  }

  lemma LastItem(tokens: seq<Token>, start: nat, want: seq<ItemSyn>, end: nat, c: seq<ItemSyn>, p: nat)
    requires Closed(tokens, start, PrintItem, want, end) && ItemsOk(want) && Along(c, want) &&
      ListIs(tokens, start, PrintItem, c, p)
    requires p < |tokens| && (tokens[p].kind == RPAREN || IsEnd(tokens[p].kind))
    ensures c == want && p + 1 == end && tokens[p].kind == RPAREN
  {
    hide *;
    NextDef(tokens, start, want, end, c, p);
  }

  lemma LastConstraint(tokens: seq<Token>, start: nat, want: seq<Constraint>, end: nat, c: seq<Constraint>, p: nat)
    requires ListIs(tokens, start, PrintConstraint, want, end) && Along(c, want) &&
      ListIs(tokens, start, PrintConstraint, c, p)
    requires p < |tokens| && !IsConstraint(tokens[p].kind)
    ensures c == want && p == end
  {
    hide *;
    NextConstraint(tokens, start, want, end, c, p);
  }

  lemma SetValue(num: Numeric, s: SetSyn)
    requires LiteralOk(num, s.value)
    ensures SetMeaning(num, s) == Assignment(s.column, LiteralValue(num, s.value))
  {
  }

  lemma TypeFacts(k: Kind)
    ensures TypeOf(k).Some? ==> k != END_OF_INPUT
    ensures TypeSynOk(TypeSyn(k, None)) <==> TypeOf(k).Some?
    ensures forall s: Sym :: TypeSynOk(TypeSyn(k, Some(s))) <==>
      TypeOf(k) == Some(TEXT) && s.T? && s.kind != END_OF_INPUT
  {
  }

  lemma TypeLength(t: TypeSyn)
    ensures |PrintType(t)| == if t.size.Some? then 4 else 1
  {
  }

  lemma ConstraintKinds()
    ensures forall k :: IsConstraint(k) <==> k == KW_PRIMARY || k == KW_NOT
  {
  }

  lemma ColumnValue(it: ItemSyn, ty: Byte)
    requires it.ColumnItem? && TypeSynOk(it.ty) && TypeOf(it.ty.kind) == Some(ty)
    ensures ItemSynOk(it) &&
      ColumnOf(it) == ColumnDef(it.name, ty, NotNull in it.constraints, PrimaryKey in it.constraints)
  {
    hide TypeOf;
    hide TypeSynOk;
  }

  lemma ColumnLength(tokens: seq<Token>, i: nat, c: ItemSyn, j: nat)
    requires c.ColumnItem? && ColumnIs(tokens, i, c.name, c.ty, c.constraints, j)
    ensures j == i + |PrintColumn(c.name, c.ty, c.constraints)|
  {
  }

  lemma KeyText(tokens: seq<Token>, i: nat, name: Bytes)
    ensures KeyIs(tokens, i, name) ==> i + 3 < |tokens| && tokens[i + 3].text == name
  {
  }

  lemma ItemKind(tokens: seq<Token>, i: nat, it: ItemSyn, j: nat)
    ensures ItemIs(tokens, i, it, j) ==> i < |tokens| && (it.KeyItem? <==> tokens[i].kind == KW_PRIMARY)
  {
    hide Reads;
    hide PrintItem;
    hide ItemEnds;
    hide ItemSynOk;
    if ItemIs(tokens, i, it, j) {
      ItemHead(tokens, i, it, j);
    }
  }

  lemma DefinitionIs(it: ItemSyn)
    requires it.ColumnItem? ==> ItemSynOk(it.(comma := false))
    ensures ItemSynOk(it)
    ensures it.KeyItem? ==> DefinitionOf(it) == Definition(None, Some(it.name))
    ensures it.ColumnItem? ==>
      && ColumnOf(it) == ColumnOf(it.(comma := false))
      && DefinitionOf(it) == Definition(Some(ColumnOf(it)), if ColumnOf(it).isPk then Some(ColumnOf(it).name) else None)
  {
    hide TypeOf;
    hide TypeSynOk;
  }

  lemma ItemReads(tokens: seq<Token>, i: nat, it: ItemSyn, j: nat)
    requires ItemIs(tokens, i, it, j)
    ensures Reads(tokens, i, PrintItem(it), j) && ItemSynOk(it) && j < |tokens| && ItemEnds(it, tokens[j].kind)
    ensures i < |tokens| && tokens[i].kind == FirstKind(it)
  {
    hide Reads;
    hide PrintItem;
    hide ItemEnds;
    hide ItemSynOk;
    ItemHead(tokens, i, it, j);
  }

  /** Items were read from start to p, and gave these columns and this key. */
  ghost predicate ItemsRead(tokens: seq<Token>, start: nat, c: seq<ItemSyn>, cols: seq<ColumnDef>, pk: Bytes, p: nat) {
    && p < |tokens| && ListIs(tokens, start, PrintItem, c, p) && OpenItems(c, tokens[p].kind)
    && cols == ColumnsOf(c) && pk == KeyName(c) && ColumnsFit(cols, pk) && |cols| <= p
  }

  lemma NothingRead(tokens: seq<Token>, start: nat)
    requires start < |tokens|
    ensures ItemsRead(tokens, start, [], [], [], start)
  {
    hide ListIs;
    Sentences.NoItems(tokens, start, PrintItem);
    NoDefinitions();
  }

  lemma ItemRead(tokens: seq<Token>, start: nat, c: seq<ItemSyn>, cols: seq<ColumnDef>, pk: Bytes, p: nat, it: ItemSyn,
      q: nat)
    requires ItemsRead(tokens, start, c, cols, pk, p) && ItemIs(tokens, p, it, q) && GoodName(it.name) && p < q &&
      q < |tokens|
    ensures ItemsRead(tokens, start, More(c, it), WithColumn(cols, DefinitionOf(it)), WithKeyOf(pk, DefinitionOf(it)),
      q)
  {
    hide *;
    ItemsParts(tokens, start, c, cols, pk, p);
    ItemReads(tokens, p, it, q);
    OneMore(tokens, start, PrintItem, c, p, it, q);
    DefinitionsMore(c, it, tokens[q].kind);
    DefinitionFacts(cols, pk, DefinitionOf(it));
    MakeRead(tokens, start, c + [it], q);
  }

  lemma ItemsParts(tokens: seq<Token>, start: nat, c: seq<ItemSyn>, cols: seq<ColumnDef>, pk: Bytes, p: nat)
    requires ItemsRead(tokens, start, c, cols, pk, p)
    ensures |cols| <= p < |tokens| && ListIs(tokens, start, PrintItem, c, p) && OpenItems(c, tokens[p].kind) &&
      ItemsOk(c)
    ensures cols == ColumnsOf(c) && pk == KeyName(c) && ColumnsFit(cols, pk)
  {
    hide ListIs;
    hide ItemsOk;
    hide ColumnsFit;
  }

  lemma ItemsClosed(tokens: seq<Token>, start: nat, c: seq<ItemSyn>, cols: seq<ColumnDef>, pk: Bytes, p: nat)
    requires ItemsRead(tokens, start, c, cols, pk, p)
    ensures p < |tokens| && (tokens[p].kind == RPAREN ==> Closed(tokens, start, PrintItem, c, p + 1)) && ItemsOk(c)
    ensures cols == ColumnsOf(c) && pk == KeyName(c) && ColumnsFit(cols, pk) && |cols| < |tokens|
  {
    hide *;
    ItemsParts(tokens, start, c, cols, pk, p);
    ClosedParts(tokens, start, PrintItem, c, p + 1);
  }

  lemma MakeRead(tokens: seq<Token>, start: nat, c: seq<ItemSyn>, p: nat)
    requires p < |tokens| && ListIs(tokens, start, PrintItem, c, p) && OpenItems(c, tokens[p].kind)
    requires ColumnsFit(ColumnsOf(c), KeyName(c)) && |ColumnsOf(c)| <= p
    ensures ItemsRead(tokens, start, c, ColumnsOf(c), KeyName(c), p)
  {
    hide ListIs;
    hide OpenItems;
    hide ColumnsFit;
  }

  /** What the executor may rely on in a parsed statement. */
  predicate StatementOk(st: Statement) {
    match st
    case CreateTable(table, columns, pk) =>
      && GoodName(table) && SchemaFits(Schema(table, columns, pk))
      && forall i :: 0 <= i < |columns| && columns[i].name == pk && pk != [] ==> columns[i].notNull
    case Insert(table, _, values) => GoodName(table) && AllCanonical(values)
    case Select(_, _, _, filter, _, _, _) => WhereOk(filter)
    case Update(_, assignments, filter) => ValuesOk(assignments) && WhereOk(filter)
    case Delete(_, filter) => WhereOk(filter)
    case DropTable(_, _) => true
    case ShowTables => true
    case Describe(_) => true
  }

  ghost predicate TargetIs(tokens: seq<Token>, i: nat, a: Kind, b: Kind) {
    i + 2 < |tokens| && tokens[i].kind == a && tokens[i + 1].kind == b && tokens[i + 2].kind == IDENTIFIER
  }

  lemma TargetParts(tokens: seq<Token>, i: nat, a: Kind, b: Kind)
    ensures TargetIs(tokens, i, a, b) <==>
      i + 2 < |tokens| && tokens[i].kind == a && tokens[i + 1].kind == b && tokens[i + 2].kind == IDENTIFIER
  {
  }

  lemma CreateMeaning(num: Numeric, tokens: seq<Token>, table: Bytes, items: seq<ItemSyn>)
    requires ItemsOk(items) && GoodName(table) && ColumnsFit(ColumnsOf(items), KeyName(items)) &&
      |ColumnsOf(items)| < |tokens|
    requires InputOk(tokens, num)
    ensures SyntaxOk(num, CreateSyn(table, items))
    ensures var st := CreateTable(table, Marked(ColumnsOf(items), KeyName(items)), KeyName(items));
      Meaning(num, CreateSyn(table, items)) == st && StatementOk(st)
  {
    hide ItemsOk;
    hide EachItemOk;
    hide ColumnsOf;
    hide KeyName;
    hide TokensOk;
    hide ShortTexts;
    hide NumericOk;
    hide IsWord;
    hide Marked;
  }

  lemma ShortMeaning(num: Numeric, table: Bytes, flag: bool)
    ensures Meaning(num, DropSyn(table, flag)) == DropTable(table, flag) && StatementOk(DropTable(table, flag))
    ensures Meaning(num, ShowSyn) == ShowTables && StatementOk(ShowTables)
    ensures Meaning(num, DescribeSyn(table)) == Describe(table) && StatementOk(Describe(table))
  {
  }

  lemma NamesLength(tokens: seq<Token>, i: nat, ns: Option<seq<NameItem>>, j: nat)
    ensures NamesIs(tokens, i, ns, j) ==> j == i + |PrintNames(ns)|
  {
    hide PrintNames;
  }

  ghost predicate ValueListIs(num: Numeric, tokens: seq<Token>, i: nat, c: seq<LitItem>, j: nat) {
    && i + 1 < |tokens| && tokens[i].kind == KW_VALUES && tokens[i + 1].kind == LPAREN
    && Closed(tokens, i + 2, PrintLitItem, c, j) && LitsOk(num, c) && j < |tokens|
  }

  ghost predicate InsertBodyIs(num: Numeric, tokens: seq<Token>, i: nat, names: Option<seq<NameItem>>,
      values: seq<LitItem>, j: nat) {
    NamesIs(tokens, i, names, i + |PrintNames(names)|) && ValueListIs(num, tokens, i + |PrintNames(names)|, values, j)
  }

  lemma InsertBodyParts(num: Numeric, tokens: seq<Token>, i: nat, names: Option<seq<NameItem>>, values: seq<LitItem>,
      j: nat)
    ensures InsertBodyIs(num, tokens, i, names, values, j) <==>
      NamesIs(tokens, i, names, i + |PrintNames(names)|) && ValueListIs(num, tokens, i + |PrintNames(names)|, values, j)
  {
  }

  lemma InsertSplit(num: Numeric, tokens: seq<Token>, i: nat, c: Syntax, j: nat)
    requires c.InsertSyn?
    ensures StatementIs(num, tokens, i, c, j) <==>
      TargetIs(tokens, i, KW_INSERT, KW_INTO) && tokens[i + 2].text == c.table &&
        InsertBodyIs(num, tokens, i + 3, c.names, c.values, j)
  {
    hide Closed;
    hide LitsOk;
    hide StatementIs;
    hide PrintNames;
    hide Reads;
    InsertParts(num, tokens, i, c.table, c.names, c.values, j);
  }

  lemma InsertMeaning(num: Numeric, table: Bytes, names: Option<seq<NameItem>>, values: seq<LitItem>)
    requires LitsOk(num, values) && GoodName(table) && AllCanonical(ValuesOf(num, values))
    ensures var st := Insert(table, if names.None? then [] else NamesOf(names.value), ValuesOf(num, values));
      Meaning(num, InsertSyn(table, names, values)) == st && StatementOk(st)
  {
    hide LitsOk;
    hide ValuesOf;
    hide NamesOf;
    hide AllCanonical;
    hide IsWord;
  }

  lemma SetsLength(num: Numeric, tokens: seq<Token>, i: nat, ss: seq<SetSyn>, j: nat)
    requires SetsIs(num, tokens, i, ss, j)
    ensures j == i + |PrintSets(ss)| && ss != []
  {
    hide PrintSets;
  }

  lemma UpdateMeaning(num: Numeric, table: Bytes, sets: seq<SetSyn>, filter: Option<WhereSyn>)
    requires SetsOk(num, sets) && FilterOk(num, filter) && sets != [] && ValuesOk(SetsMeaning(num, sets))
    ensures var st := Update(table, SetsMeaning(num, sets), FilterMeaning(num, filter));
      Meaning(num, UpdateSyn(table, sets, filter)) == st && StatementOk(st)
  {
    hide SetsOk;
    hide FilterOk;
    hide SetsMeaning;
    hide FilterMeaning;
    hide ValuesOk;
    hide WhereOk;
  }

  lemma DeleteMeaning(num: Numeric, table: Bytes, filter: Option<WhereSyn>)
    requires FilterOk(num, filter)
    ensures var st := Delete(table, FilterMeaning(num, filter));
      Meaning(num, DeleteSyn(table, filter)) == st && StatementOk(st)
  {
    hide FilterOk;
    hide FilterMeaning;
    hide WhereOk;
  }

  lemma ColumnsNotEmpty(tokens: seq<Token>, i: nat, names: seq<Bytes>, j: nat)
    requires ColumnsIs(tokens, i, names, j)
    ensures names != [] && i < j
  {
    hide Each;
    hide Reads;
    ReadsLength(tokens, i, PrintColumns(false, names), j);
  }

  lemma SelectListLength(tokens: seq<Token>, i: nat, all: bool, names: seq<Bytes>, j: nat)
    ensures SelectListIs(tokens, i, all, names, j) ==> j == i + |PrintColumns(all, names)|
  {
    hide PrintColumns;
  }

  lemma OrderLength(tokens: seq<Token>, i: nat, o: Option<OrderSyn>, j: nat)
    ensures OrderIs(tokens, i, o, j) ==> j == i + |PrintOrder(o)|
  {
    hide PrintOrder;
  }

  lemma FilterLength(num: Numeric, tokens: seq<Token>, i: nat, w: Option<WhereSyn>, j: nat)
    ensures FilterIs(num, tokens, i, w, j) ==> j == i + |PrintFilter(w)|
  {
    hide PrintFilter;
  }

  lemma LimitFacts(num: Numeric, l: Option<Sym>)
    ensures LimitOk(num, l) <==>
      (l.Some? ==> l.value.T? && l.value.kind != END_OF_INPUT && num.parseLimit(l.value.text).Some?)
    ensures LimitOk(num, l) ==> LimitMeaning(num, l) == if l.None? then -1 else num.parseLimit(l.value.text).value
  {
  }

  lemma LimitToken(tokens: seq<Token>, num: Numeric, i: nat)
    requires InputOk(tokens, num) && i < |tokens| && num.parseLimit(tokens[i].text).Some?
    ensures tokens[i].kind != END_OF_INPUT
  {
    hide TokensOk;
    hide ShortTexts;
    assert num.parseLimit([]) == None;
    EndText(tokens, num, i);
  }

  lemma EndText(tokens: seq<Token>, num: Numeric, i: nat)
    requires InputOk(tokens, num) && i < |tokens|
    ensures tokens[i].kind == END_OF_INPUT ==> tokens[i].text == []
  {
    TokenFacts(tokens, num, i);
  }

  lemma SelectMeaning(num: Numeric, c: Syntax)
    requires c.SelectSyn? && FilterOk(num, c.filter) && LimitOk(num, c.limit) && (c.all <==> c.columns == [])
    ensures SyntaxOk(num, c)
    ensures var st :=
      Select(c.table, c.columns, c.all, FilterMeaning(num, c.filter),
        if c.order.None? then [] else c.order.value.column,
        c.order.Some? && c.order.value.direction == Some(true), LimitMeaning(num, c.limit));
      Meaning(num, c) == st && StatementOk(st)
  {
    hide FilterOk;
    hide FilterMeaning;
    hide LimitOk;
    hide LimitMeaning;
    hide WhereOk;
  }

  lemma ListEmpty(tokens: seq<Token>, i: nat, all: bool, names: seq<Bytes>, j: nat)
    ensures SelectListIs(tokens, i, all, names, j) ==> (all <==> names == [])
  {
    hide PrintColumns;
    hide Reads;
  }

  /** The columns of SELECT, FROM and the table name. */
  ghost predicate SelectFromIs(tokens: seq<Token>, i: nat, all: bool, names: seq<Bytes>, table: Bytes, j: nat) {
    && 2 <= j <= |tokens| && SelectListIs(tokens, i, all, names, j - 2)
    && tokens[j - 1].kind == IDENTIFIER && tokens[j - 1].text == table
  }

  lemma SelectFromParts(tokens: seq<Token>, i: nat, all: bool, names: seq<Bytes>, table: Bytes, j: nat)
    ensures SelectFromIs(tokens, i, all, names, table, j) <==>
      && 2 <= j <= |tokens| && SelectListIs(tokens, i, all, names, j - 2)
      && tokens[j - 1].kind == IDENTIFIER && tokens[j - 1].text == table
    ensures SelectFromIs(tokens, i, all, names, table, j) ==> tokens[j - 2].kind == KW_FROM
  {
    hide PrintColumns;
    hide Reads;
  }

  ghost predicate SelectHeadIs(tokens: seq<Token>, i: nat, all: bool, names: seq<Bytes>, table: Bytes, j: nat) {
    i < |tokens| && tokens[i].kind == KW_SELECT && SelectFromIs(tokens, i + 1, all, names, table, j)
  }

  lemma SelectHeadParts(tokens: seq<Token>, i: nat, all: bool, names: seq<Bytes>, table: Bytes, j: nat)
    ensures SelectHeadIs(tokens, i, all, names, table, j) <==>
      i < |tokens| && tokens[i].kind == KW_SELECT && SelectFromIs(tokens, i + 1, all, names, table, j)
    ensures SelectHeadIs(tokens, i, all, names, table, j) ==> 2 <= j <= |tokens| && tokens[j - 1].text == table
  {
    hide SelectListIs;
  }

  lemma SelectHeadEnd(tokens: seq<Token>, i: nat, all: bool, names: seq<Bytes>, table: Bytes, j: nat)
    requires SelectHeadIs(tokens, i, all, names, table, j)
    ensures j == i + 3 + |PrintColumns(all, names)|
  {
    hide SelectListIs;
    SelectListLength(tokens, i + 1, all, names, j - 2);
  }

  lemma SelectSplit(num: Numeric, tokens: seq<Token>, i: nat, c: Syntax, j: nat)
    requires c.SelectSyn?
    ensures var p := i + 3 + |PrintColumns(c.all, c.columns)|;
      StatementIs(num, tokens, i, c, j) <==>
        SelectHeadIs(tokens, i, c.all, c.columns, c.table, p) && TailIs(num, tokens, p, c, j)
  {
    hide SelectListIs;
    hide TailIs;
    hide StatementIs;
    hide PrintColumns;
    SelectParts(num, tokens, i, c, j);
  }

  /** The first token tells which statement it is. */
  lemma StatementHead(num: Numeric, tokens: seq<Token>, i: nat, c: Syntax, j: nat)
    ensures StatementIs(num, tokens, i, c, j) ==> i < |tokens| && tokens[i].kind == HeadKind(c)
    ensures HeadKind(c) == match c
      case CreateSyn(_, _) => KW_CREATE
      case DropSyn(_, _) => KW_DROP
      case InsertSyn(_, _, _) => KW_INSERT
      case SelectSyn(_, _, _, _, _, _) => KW_SELECT
      case UpdateSyn(_, _, _) => KW_UPDATE
      case DeleteSyn(_, _) => KW_DELETE
      case ShowSyn => KW_SHOW
      case DescribeSyn(_) => KW_DESCRIBE
  {
    hide Reads;
    hide SyntaxOk;
    hide Ends;
    hide Each;
    hide PrintColumns;
    hide PrintFilter;
    hide PrintOrder;
    hide PrintLimit;
    hide PrintNames;
    hide PrintSets;
    if StatementIs(num, tokens, i, c, j) {
      ReadsAt(tokens, i, Print(c), j, 0);
    }
  }

  function HeadKind(c: Syntax): Kind {
    match c
    case CreateSyn(_, _) => KW_CREATE
    case DropSyn(_, _) => KW_DROP
    case InsertSyn(_, _, _) => KW_INSERT
    case SelectSyn(_, _, _, _, _, _) => KW_SELECT
    case UpdateSyn(_, _, _) => KW_UPDATE
    case DeleteSyn(_, _) => KW_DELETE
    case ShowSyn => KW_SHOW
    case DescribeSyn(_) => KW_DESCRIBE
  }

  class SqlParser {
    const tokens: seq<Token>
    const num: Numeric
    var pos: nat

    constructor (ts: seq<Token>, lib: Numeric)
      requires InputOk(ts, lib)
      ensures pos < |tokens| && tokens == ts && num == lib && pos == 0
    {
      tokens, num, pos := ts, lib, 0;
    }

    /** `advance`: the cursor never leaves the last token. */
    method Advance()
      requires InputOk(tokens, num) && pos < |tokens|
      modifies this`pos
      ensures pos < |tokens| && pos == if tokens[old(pos)].kind == END_OF_INPUT then old(pos) else old(pos) + 1
    {
      hide InputOk;
      TokenFacts(tokens, num, pos);
      if pos < |tokens| - 1 {
        pos := pos + 1;
      }
    }

    /** `expect`. */
    method Expect(kind: Kind) returns (r: Parsed<Token>)
      requires InputOk(tokens, num) && pos < |tokens| && kind != END_OF_INPUT
      modifies this`pos
      ensures pos < |tokens| && (r.Parsed? <==> tokens[old(pos)].kind == kind)
      ensures pos == if r.Parsed? then old(pos) + 1 else old(pos)
      ensures r.Parsed? ==> r.value == tokens[old(pos)] && (kind == IDENTIFIER ==> GoodName(r.value.text))
    {
      hide InputOk;
      if tokens[pos].kind != kind {
        return Error;
      }
      TokenFacts(tokens, num, pos);
      r := Parsed(tokens[pos]);
      Advance();
    }

    /** An optional comma. */
    method SkipComma() returns (comma: bool)
      requires InputOk(tokens, num) && pos < |tokens|
      modifies this`pos
      ensures pos < |tokens| && (comma <==> tokens[old(pos)].kind == COMMA) &&
        pos == if comma then old(pos) + 1 else old(pos)
    {
      hide InputOk;
      comma := tokens[pos].kind == COMMA;
      if comma {
        Advance();
      }
    }

    // ---- Values, conditions, WHERE. ----

    /** `parse_value`. */
    method ParseValue(ghost want: Literal) returns (r: Parsed<Value>, ghost c: Literal)
      requires InputOk(tokens, num) && pos < |tokens|
      modifies this`pos
      ensures pos < |tokens| && pos == if r.Parsed? then old(pos) + 1 else old(pos)
      ensures r.Parsed? ==>
        LiteralIs(num, tokens, old(pos), c) && LiteralOk(num, c) && r.value == LiteralValue(num, c) &&
          Canonical(r.value)
      ensures LiteralIs(num, tokens, old(pos), want) ==> r.Parsed? && c == want
    {
      hide InputOk;
      hide Canonical;
      var t := tokens[pos];
      match t.kind {
        case INTEGER_LIT =>
          c := IntLit(t.text);
          var v := num.parseInt(t.text);
          if v.None? {
            return Error, c;
          }
          r := Parsed(MakeInt(v.value));
        case FLOAT_LIT =>
          c := FloatLit(t.text);
          var v := num.parseFloat(t.text);
          if v.None? {
            return Error, c;
          }
          r := Parsed(MakeFloat(v.value));
        case STRING_LIT =>
          c := StrLit(t.text);
          r := Parsed(MakeText(t.text));
        case KW_TRUE =>
          c := TrueLit;
          r := Parsed(MakeBool(true));
        case KW_FALSE =>
          c := FalseLit;
          r := Parsed(MakeBool(false));
        case KW_NULL =>
          c := NullLit;
          r := Parsed(MakeNull(TEXT));
        case _ =>
          return Error, NullLit;
      }
      LiteralCanonical(tokens, num, c, pos);
      Advance();
    }

    /** `parse_condition`. */
    method ParseCondition(ghost want: CondSyn, ghost end: nat) returns (r: Parsed<Condition>, ghost c: CondSyn)
      requires InputOk(tokens, num) && pos < |tokens|
      modifies this`pos
      ensures pos < |tokens| && old(pos) <= pos
      ensures r.Parsed? ==>
        CondIs(num, tokens, old(pos), c, pos) && r.value == CondMeaning(num, c) && pos == old(pos) + 3
      ensures CondIs(num, tokens, old(pos), want, end) ==> r.Parsed? && c == want && pos == end
    {
      hide *;
      c := want;
      ghost var start := pos;
      CondParts(num, tokens, start, want, end);
      var name :- Expect(IDENTIFIER);
      var op := OpOf(tokens[pos].kind);
      if op.None? {
        return Error, want;
      }
      OpNotEnd(op.value);
      Advance();
      ghost var lit;
      var v;
      v, lit :- ParseValue(want.value);
      c := CondSyn(name.text, op.value, lit);
      CondParts(num, tokens, start, c, pos);
      CondValue(num, c);
      r := Parsed(Condition(name.text, op.value, v));
    }

    method ParseLink(ghost want: Link, ghost end: nat) returns (op: LogicOp, cond: Parsed<Condition>, ghost c: Link)
      requires InputOk(tokens, num) && pos < |tokens| && (tokens[pos].kind == KW_AND || tokens[pos].kind == KW_OR)
      modifies this`pos
      ensures pos < |tokens| && old(pos) < pos
      ensures cond.Parsed? ==>
        LinkIs(num, tokens, old(pos), c, pos) && op == c.op && cond.value == CondMeaning(num, c.cond)
      ensures LinkIs(num, tokens, old(pos), want, end) ==> cond.Parsed? && c == want && pos == end
    {
      hide *;
      ghost var at := pos;
      LinkParts(num, tokens, at, want, end);
      LogicFacts(want.op);
      op := if tokens[pos].kind == KW_AND then AND else OR;
      LogicFacts(op);
      Advance();
      ghost var s;
      cond, s := ParseCondition(want.cond, end);
      c := Link(op, s);
      LinkParts(num, tokens, at, c, pos);
    }

    /** The loop over the connectives. */
    method ParseLinks(first: Condition, ghost want: seq<Link>, ghost end: nat)
      returns (r: Parsed<Where>, ghost c: seq<Link>)
      requires InputOk(tokens, num) && pos < |tokens|
      modifies this`pos
      ensures pos < |tokens| && old(pos) <= pos
      ensures r.Parsed? ==>
        LinksIs(num, tokens, old(pos), c, pos) && !IsLogic(tokens[pos].kind) && r.value == LinksMeaning(num, first, c)
      ensures LinksIs(num, tokens, old(pos), want, end) && end < |tokens| && !IsLogic(tokens[end].kind) ==>
        r.Parsed? && c == want && pos == end
    {
      hide *;
      ghost var start := pos;
      ghost var go := LinksIs(num, tokens, start, want, end) && end < |tokens| && !IsLogic(tokens[end].kind);
      AlongNone(want);
      c := [];
      var w := Where([first], []);
      NoLinks(num, tokens, start, first);
      LogicKinds();
      while tokens[pos].kind == KW_AND || tokens[pos].kind == KW_OR
        invariant pos < |tokens| && start <= pos && LinksIs(num, tokens, start, c, pos) && LinksOk(num, c) &&
          w == LinksMeaning(num, first, c)
        invariant go ==> Along(c, want)
        decreases |tokens| - pos
      {
        ghost var n, at := |c|, pos;
        if go {
          NextLink(num, tokens, start, want, end, c, pos);
        }
        ghost var l;
        var op, cond;
        op, cond, l := ParseLink(if n < |want| then want[n] else Link(AND, CondSyn([], EQ, NullLit)), at + 4);
        if cond.Error? {
          return Error, c;
        }
        MoreLinks(num, tokens, start, c, at, l, pos, first);
        c := More(c, l);
        w := Where(w.conditions + [cond.value], w.ops + [op]);
      }
      if go {
        NextLink(num, tokens, start, want, end, c, pos);
      }
      r := Parsed(w);
    }

    /** `parse_where`. */
    method ParseWhere(ghost want: WhereSyn, ghost end: nat) returns (r: Parsed<Where>, ghost c: WhereSyn)
      requires InputOk(tokens, num) && pos < |tokens|
      modifies this`pos
      ensures pos < |tokens| && old(pos) <= pos
      ensures r.Parsed? ==> WhereIs(num, tokens, old(pos), c, pos) && r.value == WhereMeaning(num, c)
      ensures WhereIs(num, tokens, old(pos), want, end) ==> r.Parsed? && c == want && pos == end
    {
      hide *;
      c := want;
      ghost var start := pos;
      if WhereIs(num, tokens, start, want, end) {
        WhereParts(num, tokens, start, want, end);
      }
      var _ :- Expect(KW_WHERE);
      ghost var f, ls;
      var first;
      first, f :- ParseCondition(want.first, start + 4);
      r, ls := ParseLinks(first, want.rest, end);
      c := WhereSyn(f, ls);
      WhereParts(num, tokens, start, c, pos);
    }

    method ParseFilter(ghost want: Option<WhereSyn>, ghost end: nat)
      returns (r: Parsed<Where>, ghost c: Option<WhereSyn>)
      requires InputOk(tokens, num) && pos < |tokens|
      modifies this`pos
      ensures pos < |tokens| && old(pos) <= pos
      ensures r.Parsed? ==>
        FilterIs(num, tokens, old(pos), c, pos) && FilterOk(num, c) && r.value == FilterMeaning(num, c)
      ensures FilterIs(num, tokens, old(pos), want, end) ==> r.Parsed? && c == want && pos == end
    {
      hide *;
      ghost var start := pos;
      FilterParts(num, tokens, start, want, end);
      if tokens[pos].kind != KW_WHERE {
        FilterParts(num, tokens, start, None, pos);
        return Parsed(NO_WHERE), None;
      }
      ghost var w;
      r, w := ParseWhere(if want.Some? then want.value else WhereSyn(CondSyn([], EQ, NullLit), []), end);
      c := Some(w);
      FilterParts(num, tokens, start, c, pos);
    }

    // ---- INSERT. ----

    method ParseName(ghost want: NameItem, ghost end: nat) returns (r: Parsed<Bytes>, ghost c: NameItem)
      requires InputOk(tokens, num) && pos < |tokens|
      modifies this`pos
      ensures pos < |tokens| && old(pos) <= pos
      ensures r.Parsed? ==> NameIs(tokens, old(pos), c, pos) && r.value == c.name && old(pos) < pos
      ensures NameIs(tokens, old(pos), want, end) ==> r.Parsed? && c == want && pos == end
    {
      hide *;
      c := want;
      ghost var at := pos;
      NameParts(tokens, at, want, end);
      var t :- Expect(IDENTIFIER);
      var comma := SkipComma();
      c := NameItem(t.text, comma);
      NameParts(tokens, at, c, pos);
      r := Parsed(t.text);
    }

    /** Column names, commas optional, up to the closing parenthesis. */
    method ParseNames(ghost want: seq<NameItem>, ghost end: nat) returns (r: Parsed<seq<Bytes>>, ghost c: seq<NameItem>)
      requires InputOk(tokens, num) && pos < |tokens|
      modifies this`pos
      ensures pos < |tokens| && old(pos) <= pos
      ensures r.Parsed? ==> Closed(tokens, old(pos), PrintNameItem, c, pos) && r.value == NamesOf(c)
      ensures Closed(tokens, old(pos), PrintNameItem, want, end) ==> r.Parsed? && c == want && pos == end
    {
      hide *;
      ghost var start := pos;
      r, c := NameLoop(want, end);
      if r.Error? {
        return;
      }
      var _ :- Expect(RPAREN);
      ClosedParts(tokens, start, PrintNameItem, c, pos);
    }

    method NameLoop(ghost want: seq<NameItem>, ghost end: nat) returns (r: Parsed<seq<Bytes>>, ghost c: seq<NameItem>)
      requires InputOk(tokens, num) && pos < |tokens|
      modifies this`pos
      ensures pos < |tokens| && old(pos) <= pos
      ensures r.Parsed? ==> ListIs(tokens, old(pos), PrintNameItem, c, pos) && r.value == NamesOf(c)
      ensures Closed(tokens, old(pos), PrintNameItem, want, end) ==>
        r.Parsed? && c == want && pos + 1 == end && tokens[pos].kind == RPAREN
    {
      hide *;
      ghost var start := pos;
      ghost var go := Closed(tokens, start, PrintNameItem, want, end);
      AlongNone(want);
      c := [];
      r := Parsed([]);
      Sentences.NoItems(tokens, start, PrintNameItem);
      NamesMore([], NameItem([], false));
      while tokens[pos].kind != RPAREN && !IsEnd(tokens[pos].kind)
        invariant pos < |tokens| && start <= pos && ListIs(tokens, start, PrintNameItem, c, pos) &&
          r == Parsed(NamesOf(c))
        invariant go ==> Along(c, want)
        decreases |tokens| - pos
      {
        r, c := NameStep(r.value, start, c, go, want, end);
        if r.Error? {
          return;
        }
      }
      if go {
        LastName(tokens, start, want, end, c, pos);
      }
    }

    /** One round of the loop. */
    method NameStep(names: seq<Bytes>, ghost start: nat, ghost c: seq<NameItem>, ghost go: bool,
        ghost want: seq<NameItem>, ghost end: nat)
      returns (r: Parsed<seq<Bytes>>, ghost c': seq<NameItem>)
      requires InputOk(tokens, num) && pos < |tokens| && ListIs(tokens, start, PrintNameItem, c, pos) &&
        names == NamesOf(c)
      requires tokens[pos].kind != RPAREN
      requires go ==> Closed(tokens, start, PrintNameItem, want, end) && Along(c, want)
      modifies this`pos
      ensures old(pos) <= pos < |tokens| && (go ==> r.Parsed?)
      ensures r.Parsed? ==>
        old(pos) < pos && ListIs(tokens, start, PrintNameItem, c', pos) && r.value == NamesOf(c') &&
          (go ==> Along(c', want))
    {
      hide *;
      c' := c;
      ghost var at := pos;
      if go {
        NextName(tokens, start, want, end, c, pos);
      }
      ghost var item;
      ghost var w := if |c| < |want| then want[|c|] else NameItem([], false);
      var name;
      name, item :- ParseName(w, if w.comma then at + 2 else at + 1);
      NameRead(tokens, start, c, at, item, pos);
      c' := More(c, item);
      r := Parsed(names + [name]);
    }

    method ParseListed(ghost want: LitItem, ghost end: nat) returns (r: Parsed<Value>, ghost c: LitItem)
      requires InputOk(tokens, num) && pos < |tokens|
      modifies this`pos
      ensures pos < |tokens| && old(pos) <= pos
      ensures r.Parsed? ==>
        ValueIs(num, tokens, old(pos), c, pos) && r.value == LiteralValue(num, c.value) && Canonical(r.value) &&
          old(pos) < pos
      ensures ValueIs(num, tokens, old(pos), want, end) ==> r.Parsed? && c == want && pos == end
    {
      hide *;
      c := want;
      ghost var at := pos;
      Sentences.ValueParts(num, tokens, at, want, end);
      ghost var l;
      var v;
      v, l :- ParseValue(want.value);
      var comma := SkipComma();
      c := LitItem(l, comma);
      Sentences.ValueParts(num, tokens, at, c, pos);
      r := Parsed(v);
    }

    /** Values, commas optional, up to the closing parenthesis. */
    method ParseValues(ghost want: seq<LitItem>, ghost end: nat) returns (r: Parsed<seq<Value>>, ghost c: seq<LitItem>)
      requires InputOk(tokens, num) && pos < |tokens|
      modifies this`pos
      ensures pos < |tokens| && old(pos) <= pos
      ensures r.Parsed? ==>
        Closed(tokens, old(pos), PrintLitItem, c, pos) && LitsOk(num, c) && r.value == ValuesOf(num, c) &&
          AllCanonical(r.value)
      ensures Closed(tokens, old(pos), PrintLitItem, want, end) && LitsOk(num, want) ==>
        r.Parsed? && c == want && pos == end
    {
      hide *;
      ghost var start := pos;
      r, c := ValueLoop(want, end);
      if r.Error? {
        return;
      }
      ListedParts(tokens, num, start, c, r.value, pos);
      var _ :- Expect(RPAREN);
      ClosedParts(tokens, start, PrintLitItem, c, pos);
    }

    method ValueLoop(ghost want: seq<LitItem>, ghost end: nat) returns (r: Parsed<seq<Value>>, ghost c: seq<LitItem>)
      requires InputOk(tokens, num) && pos < |tokens|
      modifies this`pos
      ensures pos < |tokens| && old(pos) <= pos
      ensures r.Parsed? ==> ListedRead(tokens, num, old(pos), c, r.value, pos)
      ensures Closed(tokens, old(pos), PrintLitItem, want, end) && LitsOk(num, want) ==>
        r.Parsed? && c == want && pos + 1 == end && tokens[pos].kind == RPAREN
    {
      hide *;
      ghost var start := pos;
      ghost var go := Closed(tokens, start, PrintLitItem, want, end) && LitsOk(num, want);
      AlongNone(want);
      c := [];
      r := Parsed([]);
      NoneRead(tokens, num, start);
      while tokens[pos].kind != RPAREN && !IsEnd(tokens[pos].kind)
        invariant pos < |tokens| && start <= pos && r.Parsed? && ListedRead(tokens, num, start, c, r.value, pos)
        invariant go ==> Along(c, want)
        decreases |tokens| - pos
      {
        r, c := ValueStep(r.value, start, c, go, want, end);
        if r.Error? {
          return;
        }
      }
      if go {
        ListedParts(tokens, num, start, c, r.value, pos);
        LastValue(tokens, num, start, want, end, c, pos);
      }
    }

    /** One round of the loop. */
    method ValueStep(values: seq<Value>, ghost start: nat, ghost c: seq<LitItem>, ghost go: bool,
        ghost want: seq<LitItem>, ghost end: nat)
      returns (r: Parsed<seq<Value>>, ghost c': seq<LitItem>)
      requires InputOk(tokens, num) && pos < |tokens| && ListedRead(tokens, num, start, c, values, pos)
      requires tokens[pos].kind != RPAREN
      requires go ==> Closed(tokens, start, PrintLitItem, want, end) && LitsOk(num, want) && Along(c, want)
      modifies this`pos
      ensures old(pos) <= pos < |tokens| && (go ==> r.Parsed?)
      ensures r.Parsed? ==>
        old(pos) < pos && ListedRead(tokens, num, start, c', r.value, pos) && (go ==> Along(c', want))
    {
      hide *;
      c' := c;
      ghost var at := pos;
      if go {
        ListedParts(tokens, num, start, c, values, pos);
        NextValue(num, tokens, start, want, end, c, pos);
      }
      ghost var item;
      ghost var w := if |c| < |want| then want[|c|] else LitItem(NullLit, false);
      var v;
      v, item :- ParseListed(w, if w.comma then at + 2 else at + 1);
      ValueRead(tokens, num, start, c, values, at, item, pos);
      c' := More(c, item);
      r := Parsed(values + [v]);
    }

    // ---- SELECT's columns and UPDATE's assignments. ----

    method ParseMoreName() returns (r: Parsed<Bytes>)
      requires InputOk(tokens, num) && pos < |tokens| && tokens[pos].kind == COMMA
      modifies this`pos
      ensures pos < |tokens| && old(pos) < pos
      ensures r.Parsed? ==> Reads(tokens, old(pos), PrintMoreName(r.value), pos) && r.value == tokens[old(pos) + 1].text
      ensures old(pos) + 1 < |tokens| && (r.Parsed? <==> tokens[old(pos) + 1].kind == IDENTIFIER)
    {
      hide *;
      ghost var at := pos;
      Advance();
      var t :- Expect(IDENTIFIER);
      MoreNameParts(tokens, at, t.text, pos);
      r := Parsed(t.text);
    }

    method ParseMoreNames(ghost want: seq<Bytes>, ghost end: nat) returns (r: Parsed<seq<Bytes>>)
      requires InputOk(tokens, num) && pos < |tokens|
      modifies this`pos
      ensures pos < |tokens| && old(pos) <= pos
      ensures r.Parsed? ==> ListIs(tokens, old(pos), PrintMoreName, r.value, pos) && tokens[pos].kind != COMMA
      ensures ListIs(tokens, old(pos), PrintMoreName, want, end) && end < |tokens| && tokens[end].kind != COMMA ==>
        r == Parsed(want) && pos == end
    {
      hide *;
      ghost var start := pos;
      ghost var go := ListIs(tokens, start, PrintMoreName, want, end) && end < |tokens| && tokens[end].kind != COMMA;
      AlongNone(want);
      var more := [];
      Sentences.NoItems(tokens, start, PrintMoreName);
      while tokens[pos].kind == COMMA
        invariant pos < |tokens| && start <= pos && ListIs(tokens, start, PrintMoreName, more, pos)
        invariant go ==> Along(more, want)
        decreases |tokens| - pos
      {
        ghost var at := pos;
        if go {
          NextMoreName(tokens, start, want, end, more, pos);
        }
        var name := ParseMoreName();
        if name.Error? {
          return Error;
        }
        OneMore(tokens, start, PrintMoreName, more, at, name.value, pos);
        more := more + [name.value];
      }
      if go {
        NextMoreName(tokens, start, want, end, more, pos);
      }
      r := Parsed(more);
    }

    /** The names of SELECT. */
    method ParseColumns(ghost want: seq<Bytes>, ghost end: nat) returns (r: Parsed<seq<Bytes>>)
      requires InputOk(tokens, num) && pos < |tokens|
      modifies this`pos
      ensures pos < |tokens| && old(pos) <= pos
      ensures r.Parsed? ==> ColumnsIs(tokens, old(pos), r.value, pos)
      ensures ColumnsIs(tokens, old(pos), want, end) ==> r == Parsed(want) && pos == end
    {
      hide *;
      ghost var start := pos;
      if ColumnsIs(tokens, start, want, end) {
        ColumnsParts(tokens, start, want, end);
      }
      var t :- Expect(IDENTIFIER);
      var more :- ParseMoreNames(if want != [] then want[1..] else [], end);
      var names := [t.text] + more;
      assert names[1..] == more;
      ColumnsParts(tokens, start, names, pos);
      r := Parsed(names);
    }

    method ParseSet(ghost want: SetSyn, ghost end: nat) returns (r: Parsed<Assignment>, ghost c: SetSyn)
      requires InputOk(tokens, num) && pos < |tokens|
      modifies this`pos
      ensures pos < |tokens| && old(pos) <= pos
      ensures r.Parsed? ==>
        SetIs(num, tokens, old(pos), c, pos) && r.value == SetMeaning(num, c) && Canonical(r.value.value) &&
          pos == old(pos) + 3
      ensures SetIs(num, tokens, old(pos), want, end) ==> r.Parsed? && c == want && pos == end
    {
      hide *;
      c := want;
      ghost var start := pos;
      SetParts(num, tokens, start, want, end);
      var name :- Expect(IDENTIFIER);
      var _ :- Expect(OP_EQ);
      ghost var lit;
      var v;
      v, lit :- ParseValue(want.value);
      c := SetSyn(name.text, lit);
      SetParts(num, tokens, start, c, pos);
      SetValue(num, c);
      r := Parsed(Assignment(name.text, v));
    }

    method ParseMoreSets(ghost want: seq<SetSyn>, ghost end: nat)
      returns (r: Parsed<seq<Assignment>>, ghost c: seq<SetSyn>)
      requires InputOk(tokens, num) && pos < |tokens|
      modifies this`pos
      ensures pos < |tokens| && old(pos) <= pos
      ensures r.Parsed? ==>
        && MoreSetsIs(num, tokens, old(pos), c, pos) && tokens[pos].kind != COMMA
        && r.value == SetsMeaning(num, c) && ValuesOk(r.value)
      ensures MoreSetsIs(num, tokens, old(pos), want, end) && end < |tokens| && tokens[end].kind != COMMA ==>
        r.Parsed? && c == want && pos == end
    {
      hide *;
      ghost var start := pos;
      ghost var go := MoreSetsIs(num, tokens, start, want, end) && end < |tokens| && tokens[end].kind != COMMA;
      AlongNone(want);
      c := [];
      var sets := [];
      NoSets(num, tokens, start);
      while tokens[pos].kind == COMMA
        invariant pos < |tokens| && start <= pos && MoreSetsIs(num, tokens, start, c, pos)
        invariant SetsOk(num, c) && sets == SetsMeaning(num, c) && ValuesOk(sets)
        invariant go ==> Along(c, want)
        decreases |tokens| - pos
      {
        ghost var n, at := |c|, pos;
        if go {
          NextSet(num, tokens, start, want, end, c, pos);
        }
        Advance();
        ghost var s;
        var a;
        a, s :- ParseSet(if n < |want| then want[n] else SetSyn([], NullLit), at + 4);
        OneMoreSet(num, tokens, start, c, at, s, pos);
        c := More(c, s);
        sets := sets + [a];
      }
      if go {
        NextSet(num, tokens, start, want, end, c, pos);
      }
      r := Parsed(sets);
    }

    /** The assignments of UPDATE. */
    method ParseSets(ghost want: seq<SetSyn>, ghost end: nat) returns (r: Parsed<seq<Assignment>>, ghost c: seq<SetSyn>)
      requires InputOk(tokens, num) && pos < |tokens|
      modifies this`pos
      ensures pos < |tokens| && old(pos) <= pos
      ensures r.Parsed? ==>
        SetsIs(num, tokens, old(pos), c, pos) && SetsOk(num, c) && r.value == SetsMeaning(num, c) && ValuesOk(r.value)
      ensures SetsIs(num, tokens, old(pos), want, end) ==> r.Parsed? && c == want && pos == end
    {
      hide *;
      c := want;
      ghost var start := pos;
      SetsParts(num, tokens, start, want, end);
      ghost var f, cs;
      var first, more;
      first, f :- ParseSet(if want != [] then want[0] else SetSyn([], NullLit), start + 3);
      more, cs :- ParseMoreSets(if want != [] then want[1..] else [], end);
      c := [f] + cs;
      assert c[1..] == cs;
      SetsParts(num, tokens, start, c, pos);
      ValuesOkCons(first, more);
      r := Parsed([first] + more);
    }

    // ---- CREATE TABLE's items. ----

    /** `parse_column_type`. */
    method ParseColumnType(ghost want: TypeSyn, ghost end: nat) returns (r: Parsed<Byte>, ghost c: TypeSyn)
      requires InputOk(tokens, num) && pos < |tokens|
      modifies this`pos
      ensures pos < |tokens| && old(pos) <= pos
      ensures r.Parsed? ==>
        TypeIs(tokens, old(pos), c, pos) && TypeSynOk(c) && TypeOf(c.kind) == Some(r.value) &&
          pos == old(pos) + |PrintType(c)|
      ensures TypeIs(tokens, old(pos), want, end) ==> r.Parsed? && c == want && pos == end
    {
      hide *;
      c := want;
      ghost var start := pos;
      TypeParts(tokens, start, want, end);
      var kind := tokens[pos].kind;
      TypeFacts(kind);
      Advance();
      var ty := TypeOf(kind);
      if ty.None? {
        return Error, c;
      }
      ghost var size := None;
      if ty.value == TEXT && tokens[pos].kind == LPAREN {
        Advance();
        size := Some(T(tokens[pos].kind, tokens[pos].text));
        Advance();
        var _ :- Expect(RPAREN);
      }
      c := TypeSyn(kind, size);
      TypeParts(tokens, start, c, pos);
      TypeLength(c);
      r := Parsed(ty.value);
    }

    method ParseConstraint(ghost want: Constraint, ghost end: nat) returns (r: Parsed<Constraint>)
      requires InputOk(tokens, num) && pos < |tokens| && (tokens[pos].kind == KW_PRIMARY || tokens[pos].kind == KW_NOT)
      modifies this`pos
      ensures pos < |tokens| && old(pos) < pos
      ensures r.Parsed? ==> Reads(tokens, old(pos), PrintConstraint(r.value), pos)
      ensures Reads(tokens, old(pos), PrintConstraint(want), end) ==> r == Parsed(want) && pos == end
    {
      hide *;
      ghost var start := pos;
      ConstraintParts(tokens, start, want, end);
      var c := if tokens[pos].kind == KW_PRIMARY then PrimaryKey else NotNull;
      Advance();
      var _ :- Expect(if c == PrimaryKey then KW_KEY else KW_NULL);
      ConstraintParts(tokens, start, c, pos);
      r := Parsed(c);
    }

    /** The constraint loop; it sets the NOT NULL and the PRIMARY KEY flag. */
    method ParseConstraints(ghost want: seq<Constraint>, ghost end: nat)
      returns (ok: bool, notNull: bool, isPk: bool, ghost c: seq<Constraint>)
      requires InputOk(tokens, num) && pos < |tokens|
      modifies this`pos
      ensures pos < |tokens| && old(pos) <= pos
      ensures ok ==>
        && ListIs(tokens, old(pos), PrintConstraint, c, pos) && !IsConstraint(tokens[pos].kind)
        && (notNull <==> NotNull in c) && (isPk <==> PrimaryKey in c)
      ensures ListIs(tokens, old(pos), PrintConstraint, want, end) ==>
        (end < |tokens| && !IsConstraint(tokens[end].kind) ==> ok && c == want && pos == end)
    {
      hide *;
      ghost var start := pos;
      ghost var go := ListIs(tokens, start, PrintConstraint, want, end) && end < |tokens| &&
        !IsConstraint(tokens[end].kind);
      AlongNone(want);
      ConstraintKinds();
      c, notNull, isPk := [], false, false;
      Sentences.NoItems(tokens, start, PrintConstraint);
      while tokens[pos].kind != COMMA && tokens[pos].kind != RPAREN && !IsEnd(tokens[pos].kind)
        invariant pos < |tokens| && start <= pos && ListIs(tokens, start, PrintConstraint, c, pos)
        invariant (notNull <==> NotNull in c) && (isPk <==> PrimaryKey in c)
        invariant go ==> Along(c, want)
        decreases |tokens| - pos
      {
        if tokens[pos].kind != KW_PRIMARY && tokens[pos].kind != KW_NOT {
          break;
        }
        var x;
        x, c := ConstraintStep(start, c, go, want, end);
        if x.Error? {
          ok := false;
          return;
        }
        if x.value == PrimaryKey {
          isPk := true;
        } else {
          notNull := true;
        }
      }
      if go {
        LastConstraint(tokens, start, want, end, c, pos);
      }
      ok := true;
    }

    /** One round of the loop. */
    method ConstraintStep(ghost start: nat, ghost c: seq<Constraint>, ghost go: bool, ghost want: seq<Constraint>,
        ghost end: nat)
      returns (r: Parsed<Constraint>, ghost c': seq<Constraint>)
      requires InputOk(tokens, num) && pos < |tokens| && ListIs(tokens, start, PrintConstraint, c, pos)
      requires tokens[pos].kind == KW_PRIMARY || tokens[pos].kind == KW_NOT
      requires go ==>
        ListIs(tokens, start, PrintConstraint, want, end) && end < |tokens| && !IsConstraint(tokens[end].kind) &&
          Along(c, want)
      modifies this`pos
      ensures old(pos) <= pos < |tokens| && (go ==> r.Parsed?)
      ensures r.Parsed? ==>
        && old(pos) < pos && ListIs(tokens, start, PrintConstraint, c', pos) && (go ==> Along(c', want))
        && (NotNull in c' <==> NotNull in c || r.value == NotNull) &&
          (PrimaryKey in c' <==> PrimaryKey in c || r.value == PrimaryKey)
    {
      hide *;
      c' := c;
      ghost var at := pos;
      ConstraintKinds();
      if go {
        NextConstraint(tokens, start, want, end, c, pos);
      }
      r := ParseConstraint(if |c| < |want| then want[|c|] else NotNull, at + 2);
      if r.Parsed? {
        ConstraintRead(tokens, start, c, at, r.value, pos);
        c' := More(c, r.value);
      }
    }

    method ParseColumn(ghost want: ItemSyn, ghost end: nat) returns (r: Parsed<ColumnDef>, ghost c: ItemSyn)
      requires InputOk(tokens, num) && pos < |tokens| && want.ColumnItem?
      modifies this`pos
      ensures pos < |tokens| && old(pos) <= pos
      ensures c.ColumnItem? && !c.comma
      ensures r.Parsed? ==>
        && ColumnIs(tokens, old(pos), c.name, c.ty, c.constraints, pos) && ItemSynOk(c) && r.value == ColumnOf(c)
        && GoodName(c.name) && old(pos) < pos
      ensures ColumnIs(tokens, old(pos), want.name, want.ty, want.constraints, end) ==>
        r.Parsed? && c == want.(comma := false) && pos == end
    {
      hide *;
      c := want.(comma := false);
      ghost var start := pos;
      ColumnParts(tokens, start, want.name, want.ty, want.constraints, end);
      var name :- Expect(IDENTIFIER);
      ghost var t, cs;
      var ty;
      ty, t :- ParseColumnType(want.ty, start + 1 + |PrintType(want.ty)|);
      var ok, notNull, isPk;
      ok, notNull, isPk, cs := ParseConstraints(want.constraints, end);
      if !ok {
        return Error, c;
      }
      c := ColumnItem(name.text, t, cs, false);
      ColumnParts(tokens, start, c.name, c.ty, c.constraints, pos);
      ColumnValue(c, ty);
      r := Parsed(ColumnDef(name.text, ty, notNull, isPk));
    }

    /** A name in parentheses. */
    method ParseNamed() returns (r: Parsed<Bytes>)
      requires InputOk(tokens, num) && pos < |tokens|
      modifies this`pos
      ensures pos < |tokens| && old(pos) <= pos
      ensures r.Parsed? ==> NamedIs(tokens, old(pos), r.value) && pos == old(pos) + 3 && GoodName(r.value)
      ensures old(pos) + 1 < |tokens| && NamedIs(tokens, old(pos), tokens[old(pos) + 1].text) ==>
        r == Parsed(tokens[old(pos) + 1].text)
    {
      hide InputOk;
      hide GoodName;
      r := ParseAfter(LPAREN);
      if r.Parsed? {
        var _ :- Expect(RPAREN);
      }
    }

    method ParseKey() returns (r: Parsed<Bytes>)
      requires InputOk(tokens, num) && pos < |tokens| && tokens[pos].kind == KW_PRIMARY
      modifies this`pos
      ensures pos < |tokens| && old(pos) < pos
      ensures r.Parsed? ==> KeyIs(tokens, old(pos), r.value) && pos == old(pos) + 5 && GoodName(r.value)
      ensures old(pos) + 3 < |tokens| && KeyIs(tokens, old(pos), tokens[old(pos) + 3].text) ==>
        r == Parsed(tokens[old(pos) + 3].text)
    {
      hide InputOk;
      hide GoodName;
      hide NamedIs;
      Advance();
      var _ :- Expect(KW_KEY);
      r := ParseNamed();
    }

    /** One item with its optional comma: the column it defines, if any, and whether it names the key. */
    method ParseItem(ghost want: ItemSyn, ghost end: nat) returns (r: Parsed<Definition>, ghost c: ItemSyn)
      requires InputOk(tokens, num) && pos < |tokens|
      modifies this`pos
      ensures pos < |tokens| && old(pos) <= pos
      ensures r.Parsed? ==>
        ItemIs(tokens, old(pos), c, pos) && r.value == DefinitionOf(c) && GoodName(c.name) && old(pos) < pos
      ensures ItemIs(tokens, old(pos), want, end) ==> r.Parsed? && c == want && pos == end
    {
      hide *;
      c := want;
      ghost var start := pos;
      ItemKind(tokens, start, want, end);
      if tokens[pos].kind == KW_PRIMARY {
        if want.KeyItem? {
          KeyItemParts(tokens, start, want, end);
          KeyText(tokens, start, want.name);
        }
        var name :- ParseKey();
        var comma := SkipComma();
        c := KeyItem(name, comma);
        KeyItemParts(tokens, start, c, pos);
        DefinitionIs(c);
        r := Parsed(Definition(None, Some(name)));
      } else {
        r, c := ParseColumnItem(want, end);
      }
    }

    method ParseColumnItem(ghost want: ItemSyn, ghost end: nat) returns (r: Parsed<Definition>, ghost c: ItemSyn)
      requires InputOk(tokens, num) && pos < |tokens|
      modifies this`pos
      ensures pos < |tokens| && old(pos) <= pos
      ensures r.Parsed? ==>
        ItemIs(tokens, old(pos), c, pos) && r.value == DefinitionOf(c) && GoodName(c.name) && old(pos) < pos
      ensures ItemIs(tokens, old(pos), want, end) && want.ColumnItem? ==> r.Parsed? && c == want && pos == end
    {
      hide *;
      c := want;
      ghost var start := pos;
      ghost var w := if want.ColumnItem? then want else ColumnItem([], TypeSyn(KW_INT, None), [], false);
      ColumnItemParts(tokens, start, w, end);
      var col;
      col, c :- ParseColumn(w, start + |PrintColumn(w.name, w.ty, w.constraints)|);
      ColumnLength(tokens, start, c, pos);
      var comma := SkipComma();
      c := c.(comma := comma);
      ColumnItemParts(tokens, start, c, pos);
      DefinitionIs(c);
      r := Parsed(Definition(Some(col), if col.isPk then Some(col.name) else None));
    }

    /** The items up to the closing parenthesis: columns in order, and the key named last. */
    method ItemLoop(ghost want: seq<ItemSyn>, ghost end: nat)
      returns (ok: bool, cols: seq<ColumnDef>, pk: Bytes, ghost c: seq<ItemSyn>)
      requires InputOk(tokens, num) && pos < |tokens|
      modifies this`pos
      ensures pos < |tokens| && old(pos) <= pos
      ensures ok ==> ItemsRead(tokens, old(pos), c, cols, pk, pos)
      ensures Closed(tokens, old(pos), PrintItem, want, end) && ItemsOk(want) ==>
        ok && c == want && pos + 1 == end && tokens[pos].kind == RPAREN
    {
      hide *;
      ghost var start := pos;
      ghost var go := Closed(tokens, start, PrintItem, want, end) && ItemsOk(want);
      AlongNone(want);
      c, cols, pk := [], [], [];
      NothingRead(tokens, start);
      while tokens[pos].kind != RPAREN && !IsEnd(tokens[pos].kind)
        invariant pos < |tokens| && start <= pos && ItemsRead(tokens, start, c, cols, pk, pos)
        invariant go ==> Along(c, want)
        decreases |tokens| - pos
      {
        ok, cols, pk, c := ItemStep(cols, pk, start, c, go, want, end);
        if !ok {
          return;
        }
      }
      if go {
        ItemsParts(tokens, start, c, cols, pk, pos);
        LastItem(tokens, start, want, end, c, pos);
      }
      ok := true;
    }

    /** One round of the loop. */
    method ItemStep(cols: seq<ColumnDef>, pk: Bytes, ghost start: nat, ghost c: seq<ItemSyn>, ghost go: bool,
        ghost want: seq<ItemSyn>, ghost end: nat)
      returns (ok: bool, cols': seq<ColumnDef>, pk': Bytes, ghost c': seq<ItemSyn>)
      requires InputOk(tokens, num) && pos < |tokens| && ItemsRead(tokens, start, c, cols, pk, pos) &&
        tokens[pos].kind != RPAREN
      requires go ==> Closed(tokens, start, PrintItem, want, end) && ItemsOk(want) && Along(c, want)
      modifies this`pos
      ensures old(pos) <= pos < |tokens| && (go ==> ok)
      ensures ok ==> old(pos) < pos && ItemsRead(tokens, start, c', cols', pk', pos) && (go ==> Along(c', want))
    {
      hide *;
      ghost var at := pos;
      if go {
        ItemsParts(tokens, start, c, cols, pk, pos);
        NextDef(tokens, start, want, end, c, pos);
      }
      ghost var item;
      ghost var w := if |c| < |want| then want[|c|] else KeyItem([], false);
      var d;
      d, item := ParseItem(w, at + |PrintItem(w)|);
      if d.Error? {
        return false, cols, pk, c;
      }
      ItemRead(tokens, start, c, cols, pk, at, item, pos);
      c' := More(c, item);
      ok, cols', pk' := true, WithColumn(cols, d.value), WithKeyOf(pk, d.value);
    }

    // ---- Statements. ----

    method ExpectBoth(a: Kind, b: Kind) returns (ok: bool)
      requires InputOk(tokens, num) && pos < |tokens| && a != END_OF_INPUT && b != END_OF_INPUT
      modifies this`pos
      ensures pos < |tokens| && old(pos) <= pos
      ensures ok <==> old(pos) + 1 < |tokens| && tokens[old(pos)].kind == a && tokens[old(pos) + 1].kind == b
      ensures ok ==> pos == old(pos) + 2
    {
      hide InputOk;
      hide GoodName;
      var t := Expect(a);
      if t.Error? {
        return false;
      }
      t := Expect(b);
      ok := t.Parsed?;
    }

    /** A keyword and a table name. */
    method ParseAfter(b: Kind) returns (r: Parsed<Bytes>)
      requires InputOk(tokens, num) && pos < |tokens| && b != END_OF_INPUT
      modifies this`pos
      ensures pos < |tokens| && old(pos) <= pos
      ensures r.Parsed? <==>
        old(pos) + 1 < |tokens| && tokens[old(pos)].kind == b && tokens[old(pos) + 1].kind == IDENTIFIER
      ensures r.Parsed? ==> r.value == tokens[old(pos) + 1].text && pos == old(pos) + 2 && GoodName(r.value)
    {
      hide InputOk;
      hide GoodName;
      var _ :- Expect(b);
      var name :- Expect(IDENTIFIER);
      r := Parsed(name.text);
    }

    /** Two keywords and a table name. */
    method ParseTarget(a: Kind, b: Kind) returns (r: Parsed<Bytes>)
      requires InputOk(tokens, num) && pos < |tokens| && a != END_OF_INPUT && b != END_OF_INPUT
      modifies this`pos
      ensures pos < |tokens| && old(pos) <= pos
      ensures r.Parsed? <==> TargetIs(tokens, old(pos), a, b)
      ensures r.Parsed? ==> r.value == tokens[old(pos) + 2].text && pos == old(pos) + 3 && GoodName(r.value)
    {
      hide *;
      TargetParts(tokens, pos, a, b);
      var _ :- Expect(a);
      r := ParseAfter(b);
    }

    /** The items of CREATE TABLE in their parentheses, with the key columns marked. */
    method ParseItems(ghost want: seq<ItemSyn>, ghost end: nat)
      returns (ok: bool, cols: seq<ColumnDef>, pk: Bytes, ghost c: seq<ItemSyn>)
      requires InputOk(tokens, num) && pos < |tokens|
      modifies this`pos
      ensures pos < |tokens| && old(pos) <= pos
      ensures ok ==>
        && tokens[old(pos)].kind == LPAREN && Closed(tokens, old(pos) + 1, PrintItem, c, pos) && ItemsOk(c)
        && ColumnsFit(ColumnsOf(c), KeyName(c)) && |ColumnsOf(c)| < |tokens| && pk == KeyName(c) &&
          cols == Marked(ColumnsOf(c), pk)
      ensures tokens[old(pos)].kind == LPAREN && Closed(tokens, old(pos) + 1, PrintItem, want, end) && ItemsOk(want) ==>
        ok && c == want && pos == end
    {
      hide *;
      var t := Expect(LPAREN);
      if t.Error? {
        return false, [], [], [];
      }
      ok, cols, pk, c := ParseItemList(want, end);
      if ok {
        cols := MarkColumns(cols, pk);
      }
    }

    method ParseItemList(ghost want: seq<ItemSyn>, ghost end: nat)
      returns (ok: bool, cols: seq<ColumnDef>, pk: Bytes, ghost c: seq<ItemSyn>)
      requires InputOk(tokens, num) && pos < |tokens|
      modifies this`pos
      ensures pos < |tokens| && old(pos) <= pos
      ensures ok ==>
        && Closed(tokens, old(pos), PrintItem, c, pos) && ItemsOk(c)
        && cols == ColumnsOf(c) && pk == KeyName(c) && ColumnsFit(cols, pk) && |cols| < |tokens|
      ensures Closed(tokens, old(pos), PrintItem, want, end) && ItemsOk(want) ==> ok && c == want && pos == end
    {
      hide *;
      ghost var start := pos;
      ok, cols, pk, c := ItemLoop(want, end);
      if !ok {
        return;
      }
      ItemsClosed(tokens, start, c, cols, pk, pos);
      var t := Expect(RPAREN);
      ok := t.Parsed?;
    }

    /** The loop that marks the key columns. */
    method MarkColumns(cols: seq<ColumnDef>, pk: Bytes) returns (r: seq<ColumnDef>)
      ensures r == Marked(cols, pk)
    {
      r := cols;
      if pk != [] {
        for i := 0 to |cols|
          invariant |r| == |cols|
          invariant forall k :: 0 <= k < |cols| ==> r[k] == if k < i then MarkColumn(cols[k], pk) else cols[k]
        {
          if r[i].name == pk {
            r := r[i := r[i].(isPk := true, notNull := true)];
          }
        }
      }
    }

    /** `parse_create_table`. */
    method ParseCreateTable(ghost want: Syntax, ghost end: nat) returns (r: Parsed<Statement>, ghost c: Syntax)
      requires InputOk(tokens, num) && pos < |tokens|
      modifies this`pos
      ensures pos < |tokens| && old(pos) <= pos
      ensures r.Parsed? ==>
        StatementIs(num, tokens, old(pos), c, pos) && r.value == Meaning(num, c) && StatementOk(r.value)
      ensures StatementIs(num, tokens, old(pos), want, end) && want.CreateSyn? ==> r.Parsed? && c == want && pos == end
    {
      hide *;
      c := want;
      ghost var start := pos;
      ghost var w := if want.CreateSyn? then want else CreateSyn([], []);
      if StatementIs(num, tokens, start, want, end) && want.CreateSyn? {
        CreateParts(num, tokens, start, w.table, w.items, end);
      }
      TargetParts(tokens, start, KW_CREATE, KW_TABLE);
      var table :- ParseTarget(KW_CREATE, KW_TABLE);
      ghost var items;
      var ok, columns, pk;
      ok, columns, pk, items := ParseItems(w.items, end);
      if !ok {
        return Error, c;
      }
      c := CreateSyn(table, items);
      CreateParts(num, tokens, start, table, items, pos);
      CreateMeaning(num, tokens, table, items);
      r := Parsed(CreateTable(table, columns, pk));
    }

    /** `parse_drop_table`. */
    method ParseDropTable(ghost want: Syntax, ghost end: nat) returns (r: Parsed<Statement>, ghost c: Syntax)
      requires InputOk(tokens, num) && pos < |tokens|
      modifies this`pos
      ensures pos < |tokens| && old(pos) <= pos
      ensures r.Parsed? ==>
        StatementIs(num, tokens, old(pos), c, pos) && r.value == Meaning(num, c) && StatementOk(r.value)
      ensures StatementIs(num, tokens, old(pos), want, end) && want.DropSyn? ==> r.Parsed? && c == want && pos == end
    {
      hide *;
      c := want;
      ghost var start := pos;
      ghost var w := if want.DropSyn? then want else DropSyn([], false);
      if StatementIs(num, tokens, start, want, end) && want.DropSyn? {
        DropParts(num, tokens, start, w.table, w.ifExists, end);
      }
      var ok := ExpectBoth(KW_DROP, KW_TABLE);
      if !ok {
        return Error, c;
      }
      var name, ifExists;
      name, ifExists := ParseMaybeExists();
      if name.Error? {
        return Error, c;
      }
      c := DropSyn(name.value, ifExists);
      DropParts(num, tokens, start, name.value, ifExists, pos);
      ShortMeaning(num, name.value, ifExists);
      r := Parsed(DropTable(name.value, ifExists));
    }

    method ParseMaybeExists() returns (r: Parsed<Bytes>, ifExists: bool)
      requires InputOk(tokens, num) && pos < |tokens|
      modifies this`pos
      ensures pos < |tokens| && old(pos) <= pos
      ensures ifExists <==> tokens[old(pos)].kind == KW_IF
      ensures r.Parsed? <==>
        var p := if ifExists then old(pos) + 2 else old(pos);
        p < |tokens| && tokens[p].kind == IDENTIFIER && (ifExists ==> tokens[old(pos) + 1].kind == KW_EXISTS)
      ensures r.Parsed? ==>
        var p := if ifExists then old(pos) + 2 else old(pos);
        r.value == tokens[p].text && pos == p + 1 && GoodName(r.value)
    {
      hide InputOk;
      hide GoodName;
      ifExists := tokens[pos].kind == KW_IF;
      if ifExists {
        Advance();
        var _ :- Expect(KW_EXISTS);
      }
      var name :- Expect(IDENTIFIER);
      r := Parsed(name.text);
    }

    method ParseOptionalNames(ghost want: Option<seq<NameItem>>, ghost end: nat)
      returns (r: Parsed<seq<Bytes>>, ghost c: Option<seq<NameItem>>)
      requires InputOk(tokens, num) && pos < |tokens|
      modifies this`pos
      ensures pos < |tokens| && old(pos) <= pos
      ensures r.Parsed? && tokens[pos].kind == KW_VALUES ==>
        && NamesIs(tokens, old(pos), c, pos) && pos == old(pos) + |PrintNames(c)|
        && r.value == if c.None? then [] else NamesOf(c.value)
      ensures NamesIs(tokens, old(pos), want, end) ==> r.Parsed? && c == want && pos == end
    {
      hide *;
      ghost var start := pos;
      NamesParts(tokens, start, want, end);
      if tokens[pos].kind != LPAREN {
        c := None;
        NamesParts(tokens, start, c, pos);
        NamesLength(tokens, start, c, pos);
        return Parsed([]), c;
      }
      Advance();
      ghost var ns;
      r, ns := ParseNames(if want.Some? then want.value else [], end);
      c := Some(ns);
      NamesParts(tokens, start, c, pos);
      NamesLength(tokens, start, c, pos);
    }

    method ParseValueList(ghost want: seq<LitItem>, ghost end: nat)
      returns (r: Parsed<seq<Value>>, ghost c: seq<LitItem>)
      requires InputOk(tokens, num) && pos < |tokens|
      modifies this`pos
      ensures pos < |tokens| && old(pos) <= pos
      ensures r.Parsed? ==>
        ValueListIs(num, tokens, old(pos), c, pos) && tokens[old(pos)].kind == KW_VALUES && LitsOk(num, c) &&
          r.value == ValuesOf(num, c) && AllCanonical(r.value)
      ensures ValueListIs(num, tokens, old(pos), want, end) ==> r.Parsed? && c == want && pos == end
    {
      hide InputOk;
      hide Closed;
      hide LitsOk;
      hide AllCanonical;
      hide ValuesOf;
      c := want;
      var _ :- Expect(KW_VALUES);
      var _ :- Expect(LPAREN);
      r, c := ParseValues(want, end);
    }

    method ParseInsertBody(ghost wantNames: Option<seq<NameItem>>, ghost want: seq<LitItem>, ghost end: nat)
      returns (names: Parsed<seq<Bytes>>, values: seq<Value>, ghost ns: Option<seq<NameItem>>, ghost vs: seq<LitItem>)
      requires InputOk(tokens, num) && pos < |tokens|
      modifies this`pos
      ensures pos < |tokens| && old(pos) <= pos
      ensures names.Parsed? ==>
        && InsertBodyIs(num, tokens, old(pos), ns, vs, pos) && LitsOk(num, vs) &&
          names.value == (if ns.None? then [] else NamesOf(ns.value))
        && values == ValuesOf(num, vs) && AllCanonical(values)
      ensures InsertBodyIs(num, tokens, old(pos), wantNames, want, end) ==>
        names.Parsed? && ns == wantNames && vs == want && pos == end
    {
      hide *;
      ghost var start := pos;
      values, ns, vs := [], wantNames, want;
      if InsertBodyIs(num, tokens, start, wantNames, want, end) {
        InsertBodyParts(num, tokens, start, wantNames, want, end);
      }
      names, ns := ParseOptionalNames(wantNames, start + |PrintNames(wantNames)|);
      if names.Error? {
        return;
      }
      var list;
      list, vs := ParseValueList(want, end);
      if list.Error? {
        names := Error;
        return;
      }
      values := list.value;
      InsertBodyParts(num, tokens, start, ns, vs, pos);
    }

    /** `parse_insert`. */
    method ParseInsert(ghost want: Syntax, ghost end: nat) returns (r: Parsed<Statement>, ghost c: Syntax)
      requires InputOk(tokens, num) && pos < |tokens|
      modifies this`pos
      ensures pos < |tokens| && old(pos) <= pos
      ensures r.Parsed? ==>
        StatementIs(num, tokens, old(pos), c, pos) && r.value == Meaning(num, c) && StatementOk(r.value)
      ensures StatementIs(num, tokens, old(pos), want, end) && want.InsertSyn? ==> r.Parsed? && c == want && pos == end
    {
      hide *;
      c := want;
      ghost var start := pos;
      ghost var w := if want.InsertSyn? then want else InsertSyn([], None, []);
      if StatementIs(num, tokens, start, want, end) && want.InsertSyn? {
        InsertSplit(num, tokens, start, w, end);
      }
      var table :- ParseTarget(KW_INSERT, KW_INTO);
      ghost var ns, vs;
      var names, values;
      names, values, ns, vs := ParseInsertBody(w.names, w.values, end);
      if names.Error? {
        return Error, c;
      }
      c := InsertSyn(table, ns, vs);
      InsertSplit(num, tokens, start, c, pos);
      InsertMeaning(num, table, ns, vs);
      r := Parsed(Insert(table, names.value, values));
    }

    /** `parse_update`. */
    method ParseUpdate(ghost want: Syntax, ghost end: nat) returns (r: Parsed<Statement>, ghost c: Syntax)
      requires InputOk(tokens, num) && pos < |tokens|
      modifies this`pos
      ensures pos < |tokens| && old(pos) <= pos
      ensures r.Parsed? ==>
        StatementIs(num, tokens, old(pos), c, pos) && r.value == Meaning(num, c) && StatementOk(r.value)
      ensures StatementIs(num, tokens, old(pos), want, end) && want.UpdateSyn? ==> r.Parsed? && c == want && pos == end
    {
      hide *;
      c := want;
      ghost var start := pos;
      ghost var w := if want.UpdateSyn? then want else UpdateSyn([], [], None);
      if StatementIs(num, tokens, start, want, end) && want.UpdateSyn? {
        UpdateParts(num, tokens, start, w.table, w.sets, w.filter, end);
      }
      var table :- ParseUpdateTarget();
      ghost var ss, f;
      var sets, filter;
      sets, ss :- ParseSets(w.sets, start + 3 + |PrintSets(w.sets)|);
      SetsLength(num, tokens, start + 3, ss, pos);
      filter, f :- ParseFilter(w.filter, end);
      c := UpdateSyn(table, ss, f);
      UpdateParts(num, tokens, start, table, ss, f, pos);
      UpdateMeaning(num, table, ss, f);
      r := Parsed(Update(table, sets, filter));
    }

    method ParseUpdateTarget() returns (r: Parsed<Bytes>)
      requires InputOk(tokens, num) && pos < |tokens|
      modifies this`pos
      ensures pos < |tokens| && old(pos) <= pos
      ensures r.Parsed? <==>
        && old(pos) + 3 <= |tokens| && tokens[old(pos)].kind == KW_UPDATE && tokens[old(pos) + 1].kind == IDENTIFIER
        && tokens[old(pos) + 2].kind == KW_SET
      ensures r.Parsed? ==> r.value == tokens[old(pos) + 1].text && pos == old(pos) + 3 && GoodName(r.value)
    {
      hide InputOk;
      hide GoodName;
      var _ :- Expect(KW_UPDATE);
      var name :- Expect(IDENTIFIER);
      var _ :- Expect(KW_SET);
      r := Parsed(name.text);
    }

    /** `parse_delete`. */
    method ParseDelete(ghost want: Syntax, ghost end: nat) returns (r: Parsed<Statement>, ghost c: Syntax)
      requires InputOk(tokens, num) && pos < |tokens|
      modifies this`pos
      ensures pos < |tokens| && old(pos) <= pos
      ensures r.Parsed? ==>
        StatementIs(num, tokens, old(pos), c, pos) && r.value == Meaning(num, c) && StatementOk(r.value)
      ensures StatementIs(num, tokens, old(pos), want, end) && want.DeleteSyn? ==> r.Parsed? && c == want && pos == end
    {
      hide *;
      c := want;
      ghost var start := pos;
      ghost var w := if want.DeleteSyn? then want else DeleteSyn([], None);
      if StatementIs(num, tokens, start, want, end) && want.DeleteSyn? {
        DeleteParts(num, tokens, start, w.table, w.filter, end);
      }
      TargetParts(tokens, start, KW_DELETE, KW_FROM);
      var table :- ParseTarget(KW_DELETE, KW_FROM);
      ghost var f;
      var filter;
      filter, f :- ParseFilter(w.filter, end);
      c := DeleteSyn(table, f);
      DeleteParts(num, tokens, start, table, f, pos);
      DeleteMeaning(num, table, f);
      r := Parsed(Delete(table, filter));
    }

    /** `parse_show_tables`. */
    method ParseShowTables(ghost want: Syntax, ghost end: nat) returns (r: Parsed<Statement>, ghost c: Syntax)
      requires InputOk(tokens, num) && pos < |tokens|
      modifies this`pos
      ensures pos < |tokens| && old(pos) <= pos
      ensures r.Parsed? ==>
        StatementIs(num, tokens, old(pos), c, pos) && r.value == Meaning(num, c) && StatementOk(r.value)
      ensures StatementIs(num, tokens, old(pos), want, end) && want.ShowSyn? ==> r.Parsed? && c == want && pos == end
    {
      hide *;
      c := ShowSyn;
      ghost var start := pos;
      ShortParts(num, tokens, start, [], end);
      var ok := ExpectBoth(KW_SHOW, KW_TABLES);
      if !ok {
        return Error, c;
      }
      ShortParts(num, tokens, start, [], pos);
      ShortMeaning(num, [], false);
      r := Parsed(ShowTables);
    }

    /** `parse_describe`. */
    method ParseDescribe(ghost want: Syntax, ghost end: nat) returns (r: Parsed<Statement>, ghost c: Syntax)
      requires InputOk(tokens, num) && pos < |tokens|
      modifies this`pos
      ensures pos < |tokens| && old(pos) <= pos
      ensures r.Parsed? ==>
        StatementIs(num, tokens, old(pos), c, pos) && r.value == Meaning(num, c) && StatementOk(r.value)
      ensures StatementIs(num, tokens, old(pos), want, end) && want.DescribeSyn? ==>
        r.Parsed? && c == want && pos == end
    {
      hide *;
      c := want;
      ghost var start := pos;
      ShortParts(num, tokens, start, if want.DescribeSyn? then want.table else [], end);
      var name :- ParseAfter(KW_DESCRIBE);
      c := DescribeSyn(name);
      ShortParts(num, tokens, start, name, pos);
      ShortMeaning(num, name, false);
      r := Parsed(Describe(name));
    }

    // ---- SELECT. ----

    method ParseSelectList(ghost wantAll: bool, ghost want: seq<Bytes>, ghost end: nat)
      returns (r: Parsed<seq<Bytes>>, all: bool)
      requires InputOk(tokens, num) && pos < |tokens|
      modifies this`pos
      ensures pos < |tokens| && old(pos) <= pos
      ensures r.Parsed? && tokens[pos].kind == KW_FROM ==>
        SelectListIs(tokens, old(pos), all, r.value, pos) && pos == old(pos) + |PrintColumns(all, r.value)|
      ensures SelectListIs(tokens, old(pos), wantAll, want, end) ==> r == Parsed(want) && all == wantAll && pos == end
    {
      hide *;
      ghost var start := pos;
      SelectListParts(tokens, start, wantAll, want, end);
      all := tokens[pos].kind == STAR;
      if all {
        Advance();
        r := Parsed([]);
      } else {
        r := ParseColumns(want, end);
        if r.Error? {
          return;
        }
        ColumnsNotEmpty(tokens, start, r.value, pos);
      }
      SelectListParts(tokens, start, all, r.value, pos);
      SelectListLength(tokens, start, all, r.value, pos);
    }

    method ParseOrder(ghost want: Option<OrderSyn>, ghost end: nat)
      returns (ok: bool, column: Bytes, desc: bool, ghost c: Option<OrderSyn>)
      requires InputOk(tokens, num) && pos < |tokens|
      modifies this`pos
      ensures pos < |tokens| && old(pos) <= pos
      ensures ok ==>
        && OrderIs(tokens, old(pos), c, pos) && pos == old(pos) + |PrintOrder(c)|
        && column == (if c.None? then [] else c.value.column) && (desc <==> c.Some? && c.value.direction == Some(true))
      ensures OrderIs(tokens, old(pos), want, end) ==> ok && c == want && pos == end
    {
      hide *;
      ghost var start := pos;
      ok, column, desc, c := true, [], false, None;
      OrderParts(tokens, start, want, end);
      if tokens[pos].kind == KW_ORDER {
        ghost var d;
        var name;
        name, desc, d := ParseOrderBy(if want.Some? then want.value.direction else None, end);
        if name.Error? {
          ok := false;
          return;
        }
        column, c := name.value, Some(OrderSyn(name.value, d));
      }
      OrderParts(tokens, start, c, pos);
      OrderLength(tokens, start, c, pos);
    }

    method ParseOrderBy(ghost want: Option<bool>, ghost end: nat)
      returns (r: Parsed<Bytes>, desc: bool, ghost d: Option<bool>)
      requires InputOk(tokens, num) && pos < |tokens| && tokens[pos].kind == KW_ORDER
      modifies this`pos
      ensures pos < |tokens| && old(pos) <= pos
      ensures r.Parsed? <==>
        old(pos) + 3 < |tokens| && tokens[old(pos) + 1].kind == KW_BY && tokens[old(pos) + 2].kind == IDENTIFIER
      ensures r.Parsed? ==>
        && r.value == tokens[old(pos) + 2].text && DirectionIs(tokens, old(pos) + 3, d, pos) &&
          (desc <==> d == Some(true))
        && (DirectionIs(tokens, old(pos) + 3, want, end) ==> d == want && pos == end)
    {
      hide InputOk;
      hide GoodName;
      desc, d := false, None;
      Advance();
      var _ :- Expect(KW_BY);
      var name :- Expect(IDENTIFIER);
      if tokens[pos].kind == KW_DESC {
        desc, d := true, Some(true);
        Advance();
      } else if tokens[pos].kind == KW_ASC {
        d := Some(false);
        Advance();
      }
      r := Parsed(name.text);
    }

    method ParseLimit(ghost want: Option<Sym>, ghost end: nat) returns (r: Parsed<int>, ghost c: Option<Sym>)
      requires InputOk(tokens, num) && pos < |tokens|
      modifies this`pos
      ensures pos < |tokens| && old(pos) <= pos
      ensures r.Parsed? ==> LimitIs(num, tokens, old(pos), c, pos) && LimitOk(num, c) && r.value == LimitMeaning(num, c)
      ensures LimitIs(num, tokens, old(pos), want, end) ==> r.Parsed? && c == want && pos == end
    {
      hide *;
      ghost var start := pos;
      LimitParts(num, tokens, start, want, end);
      LimitFacts(num, want);
      if tokens[pos].kind != KW_LIMIT {
        c := None;
        LimitParts(num, tokens, start, c, pos);
        LimitFacts(num, c);
        return Parsed(-1), c;
      }
      Advance();
      var t := tokens[pos];
      c := Some(T(t.kind, t.text));
      var n := num.parseLimit(t.text);
      if n.None? {
        return Error, c;
      }
      LimitToken(tokens, num, pos);
      Advance();
      LimitFacts(num, c);
      LimitParts(num, tokens, start, c, pos);
      r := Parsed(n.value);
    }

    /** The optional clauses of SELECT. */
    method ParseTail(table: Bytes, names: seq<Bytes>, all: bool, ghost want: Syntax, ghost end: nat)
      returns (r: Parsed<Statement>, ghost c: Syntax)
      requires InputOk(tokens, num) && pos < |tokens| && want.SelectSyn? && (all <==> names == [])
      modifies this`pos
      ensures pos < |tokens| && old(pos) <= pos
      ensures c.SelectSyn? && c.table == table && c.columns == names && c.all == all
      ensures r.Parsed? ==>
        TailIs(num, tokens, old(pos), c, pos) && SyntaxOk(num, c) && r.value == Meaning(num, c) && StatementOk(r.value)
      ensures TailIs(num, tokens, old(pos), want, end) ==>
        r.Parsed? && c == want.(table := table, columns := names, all := all) && pos == end
    {
      hide *;
      ghost var start := pos;
      c := want.(table := table, columns := names, all := all);
      ghost var p := start + |PrintFilter(want.filter)|;
      ghost var q := p + |PrintOrder(want.order)|;
      TailParts(num, tokens, start, want, end);
      ghost var f, o, l;
      var filter, ok, orderBy, desc, limit;
      filter, f :- ParseFilter(want.filter, p);
      FilterLength(num, tokens, start, f, pos);
      ok, orderBy, desc, o := ParseOrder(want.order, q);
      if !ok {
        return Error, c;
      }
      limit, l :- ParseLimit(want.limit, end);
      c := SelectSyn(table, all, names, f, o, l);
      TailParts(num, tokens, start, c, pos);
      SelectMeaning(num, c);
      r := Parsed(Select(table, names, all, filter, orderBy, desc, limit));
    }

    method ParseSelectFrom(ghost wantAll: bool, ghost want: seq<Bytes>, ghost end: nat)
      returns (table: Parsed<Bytes>, names: seq<Bytes>, all: bool)
      requires InputOk(tokens, num) && pos < |tokens|
      modifies this`pos
      ensures pos < |tokens| && old(pos) <= pos
      ensures table.Parsed? ==> SelectFromIs(tokens, old(pos), all, names, table.value, pos) && (all <==> names == [])
      ensures end + 1 < |tokens| && SelectFromIs(tokens, old(pos), wantAll, want, tokens[end + 1].text, end + 2) ==>
        table == Parsed(tokens[end + 1].text) && names == want && all == wantAll && pos == end + 2
    {
      hide *;
      ghost var start := pos;
      names := [];
      if end + 1 < |tokens| {
        SelectFromParts(tokens, start, wantAll, want, tokens[end + 1].text, end + 2);
      }
      var list;
      list, all := ParseSelectList(wantAll, want, end);
      if list.Error? {
        return Error, names, all;
      }
      names := list.value;
      table := ParseAfter(KW_FROM);
      if table.Parsed? {
        SelectFromParts(tokens, start, all, names, table.value, pos);
        ListEmpty(tokens, start, all, names, pos - 2);
      }
    }

    method ParseSelectHead(ghost want: Syntax) returns (table: Parsed<Bytes>, names: seq<Bytes>, all: bool)
      requires InputOk(tokens, num) && pos < |tokens| && want.SelectSyn?
      modifies this`pos
      ensures pos < |tokens| && old(pos) <= pos
      ensures table.Parsed? ==> SelectHeadIs(tokens, old(pos), all, names, table.value, pos) && (all <==> names == [])
      ensures var end := old(pos) + 3 + |PrintColumns(want.all, want.columns)|;
        SelectHeadIs(tokens, old(pos), want.all, want.columns, want.table, end) ==>
          table == Parsed(want.table) && names == want.columns && all == want.all && pos == end
    {
      hide *;
      ghost var start := pos;
      ghost var p := start + 1 + |PrintColumns(want.all, want.columns)|;
      names, all := [], false;
      SelectHeadParts(tokens, start, want.all, want.columns, want.table, p + 2);
      var t := Expect(KW_SELECT);
      if t.Error? {
        return Error, names, all;
      }
      table, names, all := ParseSelectFrom(want.all, want.columns, p);
      if table.Parsed? {
        SelectHeadParts(tokens, start, all, names, table.value, pos);
      }
    }

    /** `parse_select`. */
    method ParseSelect(ghost want: Syntax, ghost end: nat) returns (r: Parsed<Statement>, ghost c: Syntax)
      requires InputOk(tokens, num) && pos < |tokens|
      modifies this`pos
      ensures pos < |tokens| && old(pos) <= pos
      ensures r.Parsed? ==>
        StatementIs(num, tokens, old(pos), c, pos) && r.value == Meaning(num, c) && StatementOk(r.value)
      ensures StatementIs(num, tokens, old(pos), want, end) && want.SelectSyn? ==> r.Parsed? && c == want && pos == end
    {
      hide *;
      c := want;
      ghost var start := pos;
      ghost var w := if want.SelectSyn? then want else SelectSyn([], true, [], None, None, None);
      if StatementIs(num, tokens, start, want, end) && want.SelectSyn? {
        SelectSplit(num, tokens, start, w, end);
      }
      var table, names, all;
      table, names, all := ParseSelectHead(w);
      if table.Error? {
        return Error, c;
      }
      SelectHeadEnd(tokens, start, all, names, table.value, pos);
      r, c := ParseTail(table.value, names, all, w, end);
      if r.Parsed? {
        SelectSplit(num, tokens, start, c, pos);
      }
    }

    /** `parse_statement`: exactly the statements of the grammar are accepted, each with its meaning. */
    method ParseStatement(ghost want: Syntax, ghost end: nat) returns (r: Parsed<Statement>, ghost c: Syntax)
      requires InputOk(tokens, num) && pos < |tokens|
      modifies this`pos
      ensures pos < |tokens| && old(pos) <= pos
      ensures r.Parsed? ==>
        StatementIs(num, tokens, old(pos), c, pos) && r.value == Meaning(num, c) && StatementOk(r.value)
      ensures StatementIs(num, tokens, old(pos), want, end) ==> r.Parsed? && c == want && pos == end
    {
      hide *;
      c := want;
      StatementHead(num, tokens, pos, want, end);
      match tokens[pos].kind {
        case KW_CREATE => r, c := ParseCreateTable(want, end);
        case KW_DROP => r, c := ParseDropTable(want, end);
        case KW_INSERT => r, c := ParseInsert(want, end);
        case KW_SELECT => r, c := ParseSelect(want, end);
        case KW_UPDATE => r, c := ParseUpdate(want, end);
        case KW_DELETE => r, c := ParseDelete(want, end);
        case KW_SHOW => r, c := ParseShowTables(want, end);
        case KW_DESCRIBE => r, c := ParseDescribe(want, end);
        case _ => r := Error;
      }
    }
  }
}
