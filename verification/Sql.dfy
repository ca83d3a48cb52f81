/** SQL text to effect: `execute_sql` and `execute` (src/sql/executor.cpp). */
module Sql {
  import opened Bytes
  import Codec
  import opened Entries
  import opened Keys
  import opened Values
  import opened Catalog
  import opened Ast
  import opened Eval
  import opened Relation
  import opened Assignments
  import opened PrimaryKeys
  import opened NotNull
  import opened Selection
  import opened Executor
  import opened Tokens
  import opened Tokenizer
  import opened Grammar
  import Sentences
  import Parser

  /** OK or an error. */
  predicate Reports(s: Status, ok: bool) {
    s == if ok then OK else InvalidArgument
  }

  /** What a statement reports, and what it does to the stored map and to the catalog. */
  ghost predicate Effect(num: Numeric, st: Statement, m: map<Bytes, Bytes>, cache: map<Bytes, Schema>, s: Status,
      m': map<Bytes, Bytes>, cache': map<Bytes, Schema>)
    requires NumericOk(num) && Parser.StatementOk(st)
  {
    match st
    case CreateTable(table, columns, pk) =>
      var ok := columns != [] && pk != [] && table !in cache;
      && Reports(s, ok)
      && if !ok then m' == m && cache' == cache
         else
           && cache' == cache[table := Schema(table, columns, pk)]
           && m' == m[CatalogKey(table) := EncodeSchema(Schema(table, columns, pk))][MetaKey(table,
             NEXT_ROWID) := [0x31]]
    case DropTable(table, ifExists) =>
      && Reports(s, table in cache || ifExists)
      && if table !in cache then m' == m && cache' == cache
         else
           && cache' == cache - {table}
           && m' == WithoutRows(m, table) - {MetaKey(table, NEXT_ROWID)} - {CatalogKey(table)}
    case Insert(table, names, values) =>
      cache' == cache &&
      if table !in cache then Reports(s, false) &&
        m' == m else InsertEffect(num, cache[table], table, names, values, m, s, m')
    case Update(table, sets, w) =>
      && cache' == cache
      && Reports(s, table in cache &&
        (AllKnown(cache[table].columns, sets) || !AnySelected(m, table, Selector(num, w, cache[table]))))
      && m' == if table in cache &&
        AllKnown(cache[table].columns, sets) then Rewritten(m, table, Updater(num, sets, w, cache[table])) else m
    case Delete(table, w) =>
      cache' == cache && Reports(s, table in cache) &&
        m' == if table in cache then Removed(m, table, Selector(num, w, cache[table])) else m
    case Describe(table) => m' == m && cache' == cache && Reports(s, table in cache)
    case ShowTables => m' == m && cache' == cache && Reports(s, true)
    case Select(_, _, _, _, _, _, _) => m' == m && cache' == cache
  }

  ghost predicate InsertEffect(num: Numeric, schema: Schema, table: Bytes, names: seq<Bytes>, values: seq<Value>,
      m: map<Bytes, Bytes>, s: Status, m': map<Bytes, Bytes>)
  {
    match PlanInsert(num, schema, names, values)
    case Rejected => Reports(s, false) && m' == m
    case WithKey(row) => Added(num, m, schema, row, s, m')
    case AutoKey(row) => Added(num, Bumped(num, m, table), schema, Keyed(num, m, schema, row), s, m')
  }

  /** What a SELECT returns, on the stored entries. */
  ghost predicate Replies(num: Numeric, st: Statement, data: seq<Entry>, cache: map<Bytes, Schema>, s: Status,
      answer: QueryResult)
    requires Parser.StatementOk(st)
  {
    st.Select? ==>
      && Reports(s, answer.Rows?)
      && if st.table !in cache then answer == Failed
         else Answers(num, cache[st.table], st, Range(data, RowPrefix(st.table), RowPrefixEnd(st.table)), answer)
  }

  lemma GoodTable(table: Bytes)
    requires Parser.GoodName(table)
    ensures NameOk(table) && table != []
  {
    WordsArePlain(table);
  }

  /** `execute`: whatever the statement, the database stays consistent, also after each single write it makes. */
  method Execute(db: Database, st: Statement) returns (s: Status, answer: QueryResult)
    requires db.Valid() && Parser.StatementOk(st)
    modifies db.store, db.catalog
    ensures db.Valid() &&
      Effect(db.num, st, old(db.store.Map()), old(db.catalog.cache), s, db.store.Map(), db.catalog.cache)
    ensures Replies(db.num, st, db.store.data, db.catalog.cache, s, answer)
    ensures old(db.store.states) <= db.store.states && ConsistentSince(db.store.states, |old(db.store.states)|)
  {
    hide DbOk;
    hide NumericOk;
    hide Rewritten;
    hide Removed;
    hide Updater;
    hide Selector;
    hide AllKnown;
    hide WithoutRows;
    hide MetaKey;
    hide CatalogKey;
    hide EncodeSchema;
    hide Answers;
    hide PlanInsert;
    hide Added;
    hide SchemaFits;
    hide ConsistentSince;
    NoStates(db.store.states);
    s, answer := OK, Failed;
    match st {
      case CreateTable(table, columns, pk) =>
        GoodTable(table);
        s := db.ExecCreate(table, columns, pk);
      case DropTable(table, ifExists) => s := db.ExecDrop(table, ifExists);
      case Insert(table, names, values) => s := db.ExecInsert(table, names, values);
      case Select(_, _, _, _, _, _, _) =>
        answer := db.ExecSelect(st);
        s := if answer.Rows? then OK else InvalidArgument;
      case Update(table, sets, w) => s := db.ExecUpdate(table, sets, w);
      case Delete(table, w) => s := db.ExecDelete(table, w);
      case ShowTables =>
      case Describe(table) =>
        var schema := db.SchemaOf(table);
        s := if schema.Some? then OK else InvalidArgument;
    }
  }

  lemma {:induction false} PositionBound(ts: seq<Token>, from: nat, to: nat, n: nat)
    requires Ascending(ts, from, to) && n < |ts|
    ensures from + n <= ts[n].position <= to
  {
    if n > 0 {
      PositionBound(ts, from, to, n - 1);
    }
  }

  lemma LexInput(text: Bytes, num: Numeric)
    requires Lex(text, 0).Some? && |text| < 0xFFFF_FFFF && NumericOk(num)
    ensures Parser.InputOk(Lex(text, 0).value, num)
  {
    hide Lex;
    hide TokensOk;
    hide NumericOk;
    LexShape(text, 0);
    var ts := Lex(text, 0).value;
    if ts != [] {
      PositionBound(ts, 0, |text|, |ts| - 1);
    }
  }

  /** `execute_sql`: on every text the database stays consistent; a text that begins with a statement of the
      grammar has the effect, report and answer that statement means, and any other text is an error that
      changes nothing. */
  method ExecuteSql(db: Database, text: Bytes, ghost want: Syntax, ghost end: nat)
    returns (s: Status, answer: QueryResult)
    requires db.Valid() && |text| < 0xFFFF_FFFF
    modifies db.store, db.catalog
    ensures db.Valid()
    ensures (Lex(text, 0).Some? ==> forall c, j :: !Sentences.StatementIs(db.num, Lex(text, 0).value, 0, c, j)) ==>
      s == InvalidArgument && answer == Failed && db.store.Map() == old(db.store.Map()) &&
        db.catalog.cache == old(db.catalog.cache)
    ensures Lex(text, 0).Some? && Sentences.StatementIs(db.num, Lex(text, 0).value, 0, want, end) ==>
      && Parser.StatementOk(Meaning(db.num, want))
      && Effect(db.num, Meaning(db.num, want), old(db.store.Map()), old(db.catalog.cache), s, db.store.Map(),
        db.catalog.cache)
      && Replies(db.num, Meaning(db.num, want), db.store.data, db.catalog.cache, s, answer)
    ensures old(db.store.states) <= db.store.states && ConsistentSince(db.store.states, |old(db.store.states)|)
  {
    hide Lex;
    hide Effect;
    hide Replies;
    hide DbOk;
    hide NumericOk;
    hide Sentences.StatementIs;
    hide Meaning;
    hide Parser.InputOk;
    hide Parser.StatementOk;
    hide KeyValue.PlainMap;
    hide ConsistentSince;
    NoStates(db.store.states);
    s, answer := InvalidArgument, Failed;
    var lexer := new SqlTokenizer(text);
    var tokens := lexer.Tokenize();
    if tokens.None? {
      return;
    }
    LexInput(text, db.num);
    var parser := new Parser.SqlParser(tokens.value, db.num);
    ghost var c;
    var st;
    st, c := parser.ParseStatement(want, end);
    if st.Parsed? {
      s, answer := Execute(db, st.value);
    }
  }

  predicate AllKeysMarked(cache: map<Bytes, Schema>) {
    forall n :: n in cache ==> KeyMarked(cache[n])
  }

  /** Every statement keeps the key columns NOT NULL, so no INSERT ever generates a key. */
  lemma KeysStayMarked(num: Numeric, st: Statement, m: map<Bytes, Bytes>, cache: map<Bytes, Schema>, s: Status,
      m': map<Bytes, Bytes>, cache': map<Bytes, Schema>)
    requires NumericOk(num) && Parser.StatementOk(st) && Effect(num, st, m, cache, s, m', cache') &&
      AllKeysMarked(cache)
    ensures AllKeysMarked(cache')
    ensures st.Insert? && st.table in cache ==> !PlanInsert(num, cache[st.table], st.names, st.values).AutoKey?
  {
    hide NumericOk;
    hide PlanInsert;
    hide InsertEffect;
    hide SchemaFits;
    hide AllCanonical;
    hide Rewritten;
    hide Removed;
    hide Updater;
    hide Selector;
    if st.Insert? && st.table in cache {
      AutoKeyUnreachable(num, cache[st.table], st.names, st.values);
    }
  }

  /** An UPDATE that gives every row it selects a key cell with its old key text; any other statement. */
  ghost predicate KeySafe(num: Numeric, st: Statement, m: map<Bytes, Bytes>, cache: map<Bytes, Schema>)
    requires Parser.StatementOk(st)
  {
    st.Update? && st.table in cache && AllKnown(cache[st.table].columns, st.assignments) ==>
      forall k :: k in m && InScan(RowPrefix(st.table), k) && Selects(num, st.filter, cache[st.table], m[k]) ==>
        SameKeyText(num, cache[st.table], st.assignments, RowOf(m[k]))
  }

  /** Starting with every row under its own key, a statement keeps that if and only if it is key-safe; so
      every statement but such an UPDATE keeps primary keys unique. */
  lemma StatementKeepsKeys(num: Numeric, st: Statement, m: map<Bytes, Bytes>, cache: map<Bytes, Schema>, s: Status,
      m': map<Bytes, Bytes>, cache': map<Bytes, Schema>)
    requires NumericOk(num) && Parser.StatementOk(st) && Effect(num, st, m, cache, s, m', cache')
    requires DbOk(m, cache) && KeysMatch(num, m, cache)
    ensures KeysMatch(num, m', cache') <==> KeySafe(num, st, m, cache)
  {
    hide NumericOk;
    hide PlanInsert;
    hide SchemaFits;
    hide AllCanonical;
    hide Updater;
    hide Selector;
    hide InScan;
    hide RowPrefix;
    hide DbOk;
    hide NameOk;
    hide MetaKey;
    hide CatalogKey;
    hide EncodeSchema;
    hide KeysMatch;
    hide Selects;
    hide SameKeyText;
    hide RowOf;
    hide InsertEffect;
    match st {
      case CreateTable(table, columns, pk) =>
        GoodTable(table);
        if columns != [] && pk != [] && table !in cache {
          CreateMatches(num, m, cache, Schema(table, columns, pk));
        }
      case DropTable(table, _) => FewerRowsMatch(num, m, m', cache, cache');
      case Insert(table, names, values) =>
        if table in cache {
          InsertKeepsMatch(num, m, cache, table, names, values, s, m');
        }
      case Update(table, sets, w) =>
        if table in cache && AllKnown(cache[table].columns, sets) {
          UpdateMatchesExactly(num, sets, w, m, cache, table);
        }
      case Delete(table, w) => FewerRowsMatch(num, m, m', cache, cache');
      case _ =>
    }
  }

  lemma InsertKeepsMatch(num: Numeric, m: map<Bytes, Bytes>, cache: map<Bytes, Schema>, table: Bytes, names: seq<Bytes>,
      values: seq<Value>, s: Status, m': map<Bytes, Bytes>)
    requires DbOk(m, cache) && KeysMatch(num, m, cache) && table in cache
    requires InsertEffect(num, cache[table], table, names, values, m, s, m')
    ensures KeysMatch(num, m', cache)
  {
    hide PlanInsert;
    hide DbOk;
    hide KeysMatch;
    hide Added;
    hide Keyed;
    hide ColumnIndex;
    hide ShowInt;
    hide MetaKey;
    TableFits(m, cache, table);
    match PlanInsert(num, cache[table], names, values) {
      case Rejected =>
      case WithKey(row) =>
        DbAgrees(m, cache);
        InsertMatches(num, m, cache, table, row, s, m');
      case AutoKey(row) =>
        var text := ShowInt((NextId(num, m, table) + 1) % Codec.U64_SIZE);
        CounterMatches(num, m, cache, table, text);
        MetaOk(m, cache, table, NEXT_ROWID, text);
        DbAgrees(Bumped(num, m, table), cache);
        InsertMatches(num, Bumped(num, m, table), cache, table, Keyed(num, m, cache[table], row), s, m');
    }
  }

  /** An UPDATE that selects no row or assigns no NOT NULL column NULL; any other statement. */
  ghost predicate NullSafe(num: Numeric, st: Statement, m: map<Bytes, Bytes>, cache: map<Bytes, Schema>)
    requires Parser.StatementOk(st)
  {
    st.Update? && st.table in cache && AllKnown(cache[st.table].columns, st.assignments) ==>
      (AnySelected(m, st.table, Selector(num, st.filter, cache[st.table])) ==>
        GivesNoNull(cache[st.table], st.assignments))
  }

  /** Starting with no NULL in a NOT NULL column, a statement keeps that if and only if it is null-safe: UPDATE makes
      no check of its own. */
  lemma StatementKeepsFilled(num: Numeric, st: Statement, m: map<Bytes, Bytes>, cache: map<Bytes, Schema>, s: Status,
      m': map<Bytes, Bytes>, cache': map<Bytes, Schema>)
    requires NumericOk(num) && Parser.StatementOk(st) && Effect(num, st, m, cache, s, m', cache')
    requires DbOk(m, cache) && NoNulls(m, cache)
    ensures NoNulls(m', cache') <==> NullSafe(num, st, m, cache)
  {
    hide NumericOk;
    hide PlanInsert;
    hide SchemaFits;
    hide AllCanonical;
    hide Updater;
    hide Selector;
    hide InScan;
    hide RowPrefix;
    hide DbOk;
    hide NameOk;
    hide MetaKey;
    hide CatalogKey;
    hide EncodeSchema;
    hide NoNulls;
    hide GivesNoNull;
    hide AnySelected;
    hide InsertEffect;
    match st {
      case CreateTable(table, columns, pk) =>
        GoodTable(table);
        if columns != [] && pk != [] && table !in cache {
          CreateFilled(m, cache, Schema(table, columns, pk));
        }
      case DropTable(table, _) => FewerRowsFilled(m, m', cache, cache');
      case Insert(table, names, values) =>
        if table in cache {
          InsertKeepsFilled(num, m, cache, table, names, values, s, m');
        }
      case Update(table, sets, w) =>
        if table in cache && AllKnown(cache[table].columns, sets) {
          UpdateFillsExactly(num, sets, w, m, cache, table);
        }
      case Delete(table, w) => FewerRowsFilled(m, m', cache, cache');
      case _ =>
    }
  }

  lemma InsertKeepsFilled(num: Numeric, m: map<Bytes, Bytes>, cache: map<Bytes, Schema>, table: Bytes,
      names: seq<Bytes>, values: seq<Value>, s: Status, m': map<Bytes, Bytes>)
    requires DbOk(m, cache) && NoNulls(m, cache) && table in cache
    requires InsertEffect(num, cache[table], table, names, values, m, s, m')
    ensures NoNulls(m', cache)
  {
    hide PlanInsert;
    hide DbOk;
    hide NoNulls;
    hide Added;
    hide Filled;
    hide ColumnIndex;
    hide ShowInt;
    hide MetaKey;
    TableFits(m, cache, table);
    var plan := PlanInsert(num, cache[table], names, values);
    if plan != Rejected {
      PlannedFilled(num, cache[table], names, values);
      FilledLength(cache[table], plan.row);
    }
    match plan {
      case Rejected =>
      case WithKey(row) =>
        DbAgrees(m, cache);
        InsertFills(num, m, cache, table, row, s, m');
      case AutoKey(row) =>
        var text := ShowInt((NextId(num, m, table) + 1) % Codec.U64_SIZE);
        CounterFilled(m, cache, table, text);
        MetaOk(m, cache, table, NEXT_ROWID, text);
        DbAgrees(Bumped(num, m, table), cache);
        InsertFills(num, Bumped(num, m, table), cache, table, Keyed(num, m, cache[table], row), s, m');
    }
  }

  lemma DbAgrees(m: map<Bytes, Bytes>, cache: map<Bytes, Schema>)
    requires DbOk(m, cache)
    ensures Agree(m, cache)
  {
    hide Agree;
  }

  /** Rows of other tables are untouched, whatever the statement; so a table changes only through statements that name
      it. */
  lemma OtherTablesUntouched(num: Numeric, st: Statement, m: map<Bytes, Bytes>, cache: map<Bytes, Schema>, s: Status,
      m': map<Bytes, Bytes>, cache': map<Bytes, Schema>, other: Bytes, k: Bytes)
    requires NumericOk(num) && Parser.StatementOk(st) && Effect(num, st, m, cache, s, m', cache') && DbOk(m, cache)
    requires NameOk(other) && InScan(RowPrefix(other), k)
    requires match st
      case CreateTable(table, _, _) => true
      case DropTable(table, _) => table != other
      case Insert(table, _, _) => table != other
      case Update(table, _, _) => table != other
      case Delete(table, _) => table != other
      case _ => true
    ensures Layers.Get(m', k) == Layers.Get(m, k)
  {
    hide NumericOk;
    hide PlanInsert;
    hide SchemaFits;
    hide AllCanonical;
    hide Updater;
    hide Selector;
    hide InScan;
    hide RowPrefix;
    hide DbOk;
    hide NameOk;
    hide MetaKey;
    hide CatalogKey;
    hide EncodeSchema;
    match st {
      case CreateTable(table, _, _) =>
        CatalogNotRow(other, table);
        NotMeta(other, table, NEXT_ROWID);
      case DropTable(table, _) =>
        CatalogNotRow(other, table);
        NotMeta(other, table, NEXT_ROWID);
        if table in cache {
          TableName(m, cache, table);
          OtherTable(table, other, k);
        }
      case Insert(table, names, values) =>
        NotMeta(other, table, NEXT_ROWID);
        if table in cache {
          TableName(m, cache, table);
          InsertElsewhere(num, cache[table], table, names, values, m, s, m', other, k);
        }
      case Update(table, sets, w) =>
        if table in cache {
          TableName(m, cache, table);
          OtherTable(table, other, k);
        }
      case Delete(table, w) =>
        if table in cache {
          TableName(m, cache, table);
          OtherTable(table, other, k);
        }
      case _ =>
    }
  }

  lemma TableName(m: map<Bytes, Bytes>, cache: map<Bytes, Schema>, table: Bytes)
    requires DbOk(m, cache) && table in cache
    ensures NameOk(table) && cache[table].name == table
  {
    hide NameOk;
    NameOfTable(m, cache, table);
  }

  lemma InsertElsewhere(num: Numeric, schema: Schema, table: Bytes, names: seq<Bytes>, values: seq<Value>, m: map<Bytes,
      Bytes>, s: Status, m': map<Bytes, Bytes>, other: Bytes, k: Bytes)
    requires InsertEffect(num, schema, table, names, values, m, s, m') && schema.name == table
    requires NameOk(table) && NameOk(other) && table != other && InScan(RowPrefix(other), k)
    ensures Layers.Get(m', k) == Layers.Get(m, k)
  {
    hide PlanInsert;
    hide InScan;
    hide RowPrefix;
    hide NameOk;
    hide MetaKey;
    hide AllCanonical;
    hide EncodeRow;
    hide FormatKey;
    NotMeta(other, table, NEXT_ROWID);
    OtherTable(table, other, k);
    forall pk ensures RowKey(table, pk) != k { RowNotCatalog(table, pk); }
  }
}
