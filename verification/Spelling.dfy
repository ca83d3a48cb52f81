/** The words and marks of the language (src/sql/sql_tokenizer.cpp), spelled out: which text is which token, and
    what it stands for. */
module Spelling {
  import opened Bytes
  import opened Keys
  import opened Values
  import opened Ast
  import opened Tokens
  import opened Tokenizer
  import opened Grammar

  // ---- Keywords. ----

  /** The word of a keyword. */
  function Spelled(k: Kind): string {
    match k
    case KW_CREATE => "CREATE"
    case KW_TABLE => "TABLE"
    case KW_DROP => "DROP"
    case KW_INSERT => "INSERT"
    case KW_INTO => "INTO"
    case KW_VALUES => "VALUES"
    case KW_SELECT => "SELECT"
    case KW_FROM => "FROM"
    case KW_WHERE => "WHERE"
    case KW_UPDATE => "UPDATE"
    case KW_SET => "SET"
    case KW_DELETE => "DELETE"
    case KW_AND => "AND"
    case KW_OR => "OR"
    case KW_NOT => "NOT"
    case KW_NULL => "NULL"
    case KW_PRIMARY => "PRIMARY"
    case KW_KEY => "KEY"
    case KW_TRUE => "TRUE"
    case KW_FALSE => "FALSE"
    case KW_INT => "INT"
    case KW_INTEGER => "INTEGER"
    case KW_FLOAT => "FLOAT"
    case KW_REAL => "REAL"
    case KW_DOUBLE => "DOUBLE"
    case KW_TEXT => "TEXT"
    case KW_STRING => "STRING"
    case KW_VARCHAR => "VARCHAR"
    case KW_BOOL => "BOOL"
    case KW_BOOLEAN => "BOOLEAN"
    case KW_IF => "IF"
    case KW_EXISTS => "EXISTS"
    case KW_ORDER => "ORDER"
    case KW_BY => "BY"
    case KW_ASC => "ASC"
    case KW_DESC => "DESC"
    case KW_LIMIT => "LIMIT"
    case KW_SHOW => "SHOW"
    case KW_TABLES => "TABLES"
    case KW_DESCRIBE => "DESCRIBE"
    case _ => ""
  }

  /** A number that tells the words apart: length and first two letters. */
  function Rank(u: Bytes): nat {
    if |u| < 2 then 0
    else
      var a: int, b: int := u[0], u[1];
      |u| * 0x10000 + a * 0x100 + b
  }

  lemma StatementRanks()
    ensures Rank(Text("CREATE")) == 0x64352
    ensures Rank(Text("TABLE")) == 0x55441
    ensures Rank(Text("DROP")) == 0x44452
    ensures Rank(Text("INSERT")) == 0x6494E
    ensures Rank(Text("INTO")) == 0x4494E
    ensures Rank(Text("VALUES")) == 0x65641
    ensures Rank(Text("SELECT")) == 0x65345
    ensures Rank(Text("FROM")) == 0x44652
    ensures Rank(Text("WHERE")) == 0x55748
    ensures Rank(Text("UPDATE")) == 0x65550
  {
  }

  /** The words of this group, and no others, are found in it. */
  lemma StatementWords(u: Bytes)
    ensures StatementWord(u) != IDENTIFIER ==> u == Text(Spelled(StatementWord(u)))
    ensures StatementWord(u) != IDENTIFIER ==> Rank(u) in {
        0x64352, 0x55441, 0x44452, 0x6494E, 0x4494E,
        0x65641, 0x65345, 0x44652, 0x55748, 0x65550}
    ensures u == Text("CREATE") ==> StatementWord(u) == KW_CREATE
    ensures u == Text("TABLE") ==> StatementWord(u) == KW_TABLE
    ensures u == Text("DROP") ==> StatementWord(u) == KW_DROP
    ensures u == Text("INSERT") ==> StatementWord(u) == KW_INSERT
    ensures u == Text("INTO") ==> StatementWord(u) == KW_INTO
    ensures u == Text("VALUES") ==> StatementWord(u) == KW_VALUES
    ensures u == Text("SELECT") ==> StatementWord(u) == KW_SELECT
    ensures u == Text("FROM") ==> StatementWord(u) == KW_FROM
    ensures u == Text("WHERE") ==> StatementWord(u) == KW_WHERE
    ensures u == Text("UPDATE") ==> StatementWord(u) == KW_UPDATE
  {
    hide Text;
    hide Rank;
    StatementRanks();
  }

  lemma ClauseRanks()
    ensures Rank(Text("SET")) == 0x35345
    ensures Rank(Text("DELETE")) == 0x64445
    ensures Rank(Text("AND")) == 0x3414E
    ensures Rank(Text("OR")) == 0x24F52
    ensures Rank(Text("NOT")) == 0x34E4F
    ensures Rank(Text("NULL")) == 0x44E55
    ensures Rank(Text("PRIMARY")) == 0x75052
    ensures Rank(Text("KEY")) == 0x34B45
    ensures Rank(Text("TRUE")) == 0x45452
    ensures Rank(Text("FALSE")) == 0x54641
  {
  }

  /** The words of this group, and no others, are found in it. */
  lemma ClauseWords(u: Bytes)
    ensures ClauseWord(u) != IDENTIFIER ==> u == Text(Spelled(ClauseWord(u)))
    ensures ClauseWord(u) != IDENTIFIER ==> Rank(u) in {
        0x35345, 0x64445, 0x3414E, 0x24F52, 0x34E4F,
        0x44E55, 0x75052, 0x34B45, 0x45452, 0x54641}
    ensures u == Text("SET") ==> ClauseWord(u) == KW_SET
    ensures u == Text("DELETE") ==> ClauseWord(u) == KW_DELETE
    ensures u == Text("AND") ==> ClauseWord(u) == KW_AND
    ensures u == Text("OR") ==> ClauseWord(u) == KW_OR
    ensures u == Text("NOT") ==> ClauseWord(u) == KW_NOT
    ensures u == Text("NULL") ==> ClauseWord(u) == KW_NULL
    ensures u == Text("PRIMARY") ==> ClauseWord(u) == KW_PRIMARY
    ensures u == Text("KEY") ==> ClauseWord(u) == KW_KEY
    ensures u == Text("TRUE") ==> ClauseWord(u) == KW_TRUE
    ensures u == Text("FALSE") ==> ClauseWord(u) == KW_FALSE
  {
    hide Text;
    hide Rank;
    ClauseRanks();
  }

  lemma TypeRanks()
    ensures Rank(Text("INT")) == 0x3494E
    ensures Rank(Text("INTEGER")) == 0x7494E
    ensures Rank(Text("FLOAT")) == 0x5464C
    ensures Rank(Text("REAL")) == 0x45245
    ensures Rank(Text("DOUBLE")) == 0x6444F
    ensures Rank(Text("TEXT")) == 0x45445
    ensures Rank(Text("STRING")) == 0x65354
    ensures Rank(Text("VARCHAR")) == 0x75641
    ensures Rank(Text("BOOL")) == 0x4424F
    ensures Rank(Text("BOOLEAN")) == 0x7424F
  {
  }

  /** The words of this group, and no others, are found in it. */
  lemma TypeWords(u: Bytes)
    ensures TypeWord(u) != IDENTIFIER ==> u == Text(Spelled(TypeWord(u)))
    ensures TypeWord(u) != IDENTIFIER ==> Rank(u) in {
        0x3494E, 0x7494E, 0x5464C, 0x45245, 0x6444F,
        0x45445, 0x65354, 0x75641, 0x4424F, 0x7424F}
    ensures u == Text("INT") ==> TypeWord(u) == KW_INT
    ensures u == Text("INTEGER") ==> TypeWord(u) == KW_INTEGER
    ensures u == Text("FLOAT") ==> TypeWord(u) == KW_FLOAT
    ensures u == Text("REAL") ==> TypeWord(u) == KW_REAL
    ensures u == Text("DOUBLE") ==> TypeWord(u) == KW_DOUBLE
    ensures u == Text("TEXT") ==> TypeWord(u) == KW_TEXT
    ensures u == Text("STRING") ==> TypeWord(u) == KW_STRING
    ensures u == Text("VARCHAR") ==> TypeWord(u) == KW_VARCHAR
    ensures u == Text("BOOL") ==> TypeWord(u) == KW_BOOL
    ensures u == Text("BOOLEAN") ==> TypeWord(u) == KW_BOOLEAN
  {
    hide Text;
    hide Rank;
    TypeRanks();
  }

  lemma OtherRanks()
    ensures Rank(Text("IF")) == 0x24946
    ensures Rank(Text("EXISTS")) == 0x64558
    ensures Rank(Text("ORDER")) == 0x54F52
    ensures Rank(Text("BY")) == 0x24259
    ensures Rank(Text("ASC")) == 0x34153
    ensures Rank(Text("DESC")) == 0x44445
    ensures Rank(Text("LIMIT")) == 0x54C49
    ensures Rank(Text("SHOW")) == 0x45348
    ensures Rank(Text("TABLES")) == 0x65441
    ensures Rank(Text("DESCRIBE")) == 0x84445
  {
  }

  /** The words of this group, and no others, are found in it. */
  lemma OtherWords(u: Bytes)
    ensures OtherWord(u) != IDENTIFIER ==> u == Text(Spelled(OtherWord(u)))
    ensures OtherWord(u) != IDENTIFIER ==> Rank(u) in {
        0x24946, 0x64558, 0x54F52, 0x24259, 0x34153,
        0x44445, 0x54C49, 0x45348, 0x65441, 0x84445}
    ensures u == Text("IF") ==> OtherWord(u) == KW_IF
    ensures u == Text("EXISTS") ==> OtherWord(u) == KW_EXISTS
    ensures u == Text("ORDER") ==> OtherWord(u) == KW_ORDER
    ensures u == Text("BY") ==> OtherWord(u) == KW_BY
    ensures u == Text("ASC") ==> OtherWord(u) == KW_ASC
    ensures u == Text("DESC") ==> OtherWord(u) == KW_DESC
    ensures u == Text("LIMIT") ==> OtherWord(u) == KW_LIMIT
    ensures u == Text("SHOW") ==> OtherWord(u) == KW_SHOW
    ensures u == Text("TABLES") ==> OtherWord(u) == KW_TABLES
    ensures u == Text("DESCRIBE") ==> OtherWord(u) == KW_DESCRIBE
  {
    hide Text;
    hide Rank;
    OtherRanks();
  }

  lemma WordRead(w: Bytes)
    ensures KeywordOf(w) != IDENTIFIER ==> Upper(w) == Text(Spelled(KeywordOf(w)))
  {
    hide *;
    var u := Upper(w);
    KeywordFrom(w);
    StatementWords(u);
    ClauseWords(u);
    TypeWords(u);
    OtherWords(u);
  }

  lemma KeywordFrom(w: Bytes)
    ensures var u := Upper(w);
      KeywordOf(w) ==
        if StatementWord(u) != IDENTIFIER then StatementWord(u)
        else if ClauseWord(u) != IDENTIFIER then ClauseWord(u)
        else if TypeWord(u) != IDENTIFIER then TypeWord(u)
        else OtherWord(u)
  {
    hide StatementWord;
    hide ClauseWord;
    hide TypeWord;
    hide OtherWord;
  }

  lemma StatementFound(w: Bytes)
    ensures Upper(w) == Text("CREATE") ==> KeywordOf(w) == KW_CREATE
    ensures Upper(w) == Text("TABLE") ==> KeywordOf(w) == KW_TABLE
    ensures Upper(w) == Text("DROP") ==> KeywordOf(w) == KW_DROP
    ensures Upper(w) == Text("INSERT") ==> KeywordOf(w) == KW_INSERT
    ensures Upper(w) == Text("INTO") ==> KeywordOf(w) == KW_INTO
    ensures Upper(w) == Text("VALUES") ==> KeywordOf(w) == KW_VALUES
    ensures Upper(w) == Text("SELECT") ==> KeywordOf(w) == KW_SELECT
    ensures Upper(w) == Text("FROM") ==> KeywordOf(w) == KW_FROM
    ensures Upper(w) == Text("WHERE") ==> KeywordOf(w) == KW_WHERE
    ensures Upper(w) == Text("UPDATE") ==> KeywordOf(w) == KW_UPDATE
  {
    hide *;
    KeywordFrom(w);
    var u := Upper(w);
    StatementRanks();
    StatementWords(u);
  }

  lemma ClauseFound(w: Bytes)
    ensures Upper(w) == Text("SET") ==> KeywordOf(w) == KW_SET
    ensures Upper(w) == Text("DELETE") ==> KeywordOf(w) == KW_DELETE
    ensures Upper(w) == Text("AND") ==> KeywordOf(w) == KW_AND
    ensures Upper(w) == Text("OR") ==> KeywordOf(w) == KW_OR
    ensures Upper(w) == Text("NOT") ==> KeywordOf(w) == KW_NOT
    ensures Upper(w) == Text("NULL") ==> KeywordOf(w) == KW_NULL
    ensures Upper(w) == Text("PRIMARY") ==> KeywordOf(w) == KW_PRIMARY
    ensures Upper(w) == Text("KEY") ==> KeywordOf(w) == KW_KEY
    ensures Upper(w) == Text("TRUE") ==> KeywordOf(w) == KW_TRUE
    ensures Upper(w) == Text("FALSE") ==> KeywordOf(w) == KW_FALSE
  {
    hide *;
    KeywordFrom(w);
    var u := Upper(w);
    ClauseRanks();
    StatementWords(u);
    ClauseWords(u);
  }

  lemma TypeFound(w: Bytes)
    ensures Upper(w) == Text("INT") ==> KeywordOf(w) == KW_INT
    ensures Upper(w) == Text("INTEGER") ==> KeywordOf(w) == KW_INTEGER
    ensures Upper(w) == Text("FLOAT") ==> KeywordOf(w) == KW_FLOAT
    ensures Upper(w) == Text("REAL") ==> KeywordOf(w) == KW_REAL
    ensures Upper(w) == Text("DOUBLE") ==> KeywordOf(w) == KW_DOUBLE
    ensures Upper(w) == Text("TEXT") ==> KeywordOf(w) == KW_TEXT
    ensures Upper(w) == Text("STRING") ==> KeywordOf(w) == KW_STRING
    ensures Upper(w) == Text("VARCHAR") ==> KeywordOf(w) == KW_VARCHAR
    ensures Upper(w) == Text("BOOL") ==> KeywordOf(w) == KW_BOOL
    ensures Upper(w) == Text("BOOLEAN") ==> KeywordOf(w) == KW_BOOLEAN
  {
    hide *;
    KeywordFrom(w);
    var u := Upper(w);
    TypeRanks();
    StatementWords(u);
    ClauseWords(u);
    TypeWords(u);
  }

  lemma OtherFound(w: Bytes)
    ensures Upper(w) == Text("IF") ==> KeywordOf(w) == KW_IF
    ensures Upper(w) == Text("EXISTS") ==> KeywordOf(w) == KW_EXISTS
    ensures Upper(w) == Text("ORDER") ==> KeywordOf(w) == KW_ORDER
    ensures Upper(w) == Text("BY") ==> KeywordOf(w) == KW_BY
    ensures Upper(w) == Text("ASC") ==> KeywordOf(w) == KW_ASC
    ensures Upper(w) == Text("DESC") ==> KeywordOf(w) == KW_DESC
    ensures Upper(w) == Text("LIMIT") ==> KeywordOf(w) == KW_LIMIT
    ensures Upper(w) == Text("SHOW") ==> KeywordOf(w) == KW_SHOW
    ensures Upper(w) == Text("TABLES") ==> KeywordOf(w) == KW_TABLES
    ensures Upper(w) == Text("DESCRIBE") ==> KeywordOf(w) == KW_DESCRIBE
  {
    hide *;
    KeywordFrom(w);
    var u := Upper(w);
    OtherRanks();
    StatementWords(u);
    ClauseWords(u);
    TypeWords(u);
    OtherWords(u);
  }

  predicate IsStatement(k: Kind) {
    match k
    case KW_CREATE | KW_TABLE | KW_DROP | KW_INSERT | KW_INTO => true
    case KW_VALUES | KW_SELECT | KW_FROM | KW_WHERE | KW_UPDATE => true
    case _ => false
  }

  lemma StatementSpelled(w: Bytes, k: Kind)
    requires IsStatement(k) && Upper(w) == Text(Spelled(k))
    ensures KeywordOf(w) == k
  {
    hide KeywordOf;
    hide Text;
    hide Upper;
    StatementFound(w);
  }

  predicate IsClause(k: Kind) {
    match k
    case KW_SET | KW_DELETE | KW_AND | KW_OR | KW_NOT => true
    case KW_NULL | KW_PRIMARY | KW_KEY | KW_TRUE | KW_FALSE => true
    case _ => false
  }

  lemma ClauseSpelled(w: Bytes, k: Kind)
    requires IsClause(k) && Upper(w) == Text(Spelled(k))
    ensures KeywordOf(w) == k
  {
    hide KeywordOf;
    hide Text;
    hide Upper;
    ClauseFound(w);
  }

  predicate IsType(k: Kind) {
    match k
    case KW_INT | KW_INTEGER | KW_FLOAT | KW_REAL | KW_DOUBLE => true
    case KW_TEXT | KW_STRING | KW_VARCHAR | KW_BOOL | KW_BOOLEAN => true
    case _ => false
  }

  lemma TypeSpelled(w: Bytes, k: Kind)
    requires IsType(k) && Upper(w) == Text(Spelled(k))
    ensures KeywordOf(w) == k
  {
    hide KeywordOf;
    hide Text;
    hide Upper;
    TypeFound(w);
  }

  predicate IsOther(k: Kind) {
    match k
    case KW_IF | KW_EXISTS | KW_ORDER | KW_BY | KW_ASC => true
    case KW_DESC | KW_LIMIT | KW_SHOW | KW_TABLES | KW_DESCRIBE => true
    case _ => false
  }

  lemma OtherSpelled(w: Bytes, k: Kind)
    requires IsOther(k) && Upper(w) == Text(Spelled(k))
    ensures KeywordOf(w) == k
  {
    hide KeywordOf;
    hide Text;
    hide Upper;
    OtherFound(w);
  }

  /** A keyword is read if and only if the word, in capitals, is the keyword's; any other word is a name. */
  lemma KeywordSpelled(w: Bytes, k: Kind)
    requires IsKeyword(k)
    ensures KeywordOf(w) == k <==> Upper(w) == Text(Spelled(k))
  {
    hide KeywordOf;
    hide Text;
    hide Upper;
    hide Spelled;
    WordRead(w);
    if Upper(w) == Text(Spelled(k)) {
      if IsStatement(k) {
        StatementSpelled(w, k);
      } else if IsClause(k) {
        ClauseSpelled(w, k);
      } else if IsType(k) {
        TypeSpelled(w, k);
      } else {
        OtherSpelled(w, k);
      }
    }
  }

  lemma TypeKinds(k: Kind)
    ensures TypeOf(k) == Some(INT) <==> k == KW_INT || k == KW_INTEGER
    ensures TypeOf(k) == Some(FLOAT) <==> k == KW_FLOAT || k == KW_REAL || k == KW_DOUBLE
    ensures TypeOf(k) == Some(TEXT) <==> k == KW_TEXT || k == KW_STRING || k == KW_VARCHAR
    ensures TypeOf(k) == Some(BOOL) <==> k == KW_BOOL || k == KW_BOOLEAN
  {
  }

  lemma NumbersSpelled()
    ensures Spelled(KW_INT) == "INT"
    ensures Spelled(KW_INTEGER) == "INTEGER"
    ensures Spelled(KW_FLOAT) == "FLOAT"
    ensures Spelled(KW_REAL) == "REAL"
  {
  }

  lemma TextsSpelled()
    ensures Spelled(KW_DOUBLE) == "DOUBLE"
    ensures Spelled(KW_TEXT) == "TEXT"
    ensures Spelled(KW_STRING) == "STRING"
  {
  }

  lemma BoolsSpelled()
    ensures Spelled(KW_VARCHAR) == "VARCHAR"
    ensures Spelled(KW_BOOL) == "BOOL"
    ensures Spelled(KW_BOOLEAN) == "BOOLEAN"
  {
  }

  lemma TypeKeywords(w: Bytes)
    ensures KeywordOf(w) == KW_INT <==> Upper(w) == Text("INT")
    ensures KeywordOf(w) == KW_INTEGER <==> Upper(w) == Text("INTEGER")
    ensures KeywordOf(w) == KW_FLOAT <==> Upper(w) == Text("FLOAT")
    ensures KeywordOf(w) == KW_REAL <==> Upper(w) == Text("REAL")
    ensures KeywordOf(w) == KW_DOUBLE <==> Upper(w) == Text("DOUBLE")
    ensures KeywordOf(w) == KW_TEXT <==> Upper(w) == Text("TEXT")
    ensures KeywordOf(w) == KW_STRING <==> Upper(w) == Text("STRING")
    ensures KeywordOf(w) == KW_VARCHAR <==> Upper(w) == Text("VARCHAR")
    ensures KeywordOf(w) == KW_BOOL <==> Upper(w) == Text("BOOL")
    ensures KeywordOf(w) == KW_BOOLEAN <==> Upper(w) == Text("BOOLEAN")
  {
    hide KeywordOf;
    hide Text;
    hide Upper;
    hide Spelled;
    NumbersSpelled();
    TextsSpelled();
    BoolsSpelled();
    KeywordSpelled(w, KW_INT);
    KeywordSpelled(w, KW_INTEGER);
    KeywordSpelled(w, KW_FLOAT);
    KeywordSpelled(w, KW_REAL);
    KeywordSpelled(w, KW_DOUBLE);
    KeywordSpelled(w, KW_TEXT);
    KeywordSpelled(w, KW_STRING);
    KeywordSpelled(w, KW_VARCHAR);
    KeywordSpelled(w, KW_BOOL);
    KeywordSpelled(w, KW_BOOLEAN);
  }

  /** The names of the column types. */
  lemma TypeNames(w: Bytes)
    ensures TypeOf(KeywordOf(w)) == Some(INT) <==> Upper(w) == Text("INT") || Upper(w) == Text("INTEGER")
    ensures TypeOf(KeywordOf(w)) == Some(FLOAT) <==>
      Upper(w) == Text("FLOAT") || Upper(w) == Text("REAL") || Upper(w) == Text("DOUBLE")
    ensures TypeOf(KeywordOf(w)) == Some(TEXT) <==>
      Upper(w) == Text("TEXT") || Upper(w) == Text("STRING") || Upper(w) == Text("VARCHAR")
    ensures TypeOf(KeywordOf(w)) == Some(BOOL) <==> Upper(w) == Text("BOOL") || Upper(w) == Text("BOOLEAN")
  {
    hide *;
    TypeKinds(KeywordOf(w));
    TypeKeywords(w);
  }

  // ---- Marks. ----

  /** The sign of a mark; OP_NE has a second one, `!=`. */
  function Sign(k: Kind): string {
    match k
    case LPAREN => "("
    case RPAREN => ")"
    case COMMA => ","
    case SEMICOLON => ";"
    case STAR => "*"
    case DOT => "."
    case OP_EQ => "="
    case OP_NE => "<>"
    case OP_LT => "<"
    case OP_GT => ">"
    case OP_LE => "<="
    case OP_GE => ">="
    case _ => ""
  }

  lemma Signs()
    ensures Text("(") == [0x28] && Text(")") == [0x29] && Text(",") == [0x2C] && Text(";") == [0x3B]
    ensures Text("*") == [0x2A] && Text(".") == [0x2E] && Text("=") == [0x3D] && Text("<") == [0x3C]
    ensures Text(">") == [0x3E] && Text("<=") == [0x3C, 0x3D] && Text(">=") == [0x3E, 0x3D]
    ensures Text("<>") == [0x3C, 0x3E] && Text("!=") == [0x21, 0x3D] && Text("") == []
  {
  }

  lemma ShortMark(k: Kind, c: Byte)
    ensures IsMark(k, [c]) <==> [c] == Text(Sign(k))
  {
    hide Text;
    Signs();
  }

  lemma LongMark(k: Kind, c: Byte, d: Byte)
    ensures IsMark(k, [c, d]) <==> [c, d] == Text(Sign(k)) || (k == OP_NE && [c, d] == Text("!="))
  {
    hide Text;
    Signs();
  }

  lemma SignLength(k: Kind)
    ensures |Text(Sign(k))| <= 2 && |Text("!=")| == 2
  {
  }

  /** The marks, and no others. */
  lemma MarkSpelled(k: Kind, w: Bytes)
    ensures IsMark(k, w) <==> w != [] && (w == Text(Sign(k)) || (k == OP_NE && w == Text("!=")))
  {
    hide Text;
    hide Mark;
    hide Sign;
    SignLength(k);
    if |w| == 1 {
      assert w == [w[0]];
      ShortMark(k, w[0]);
    } else if |w| == 2 {
      assert w == [w[0], w[1]];
      LongMark(k, w[0], w[1]);
    }
  }

  /** One character of lookahead decides between a mark of one character and one of two. */
  lemma LongestMark(c: Byte, d: Byte)
    ensures c == '<' as int ==> Mark(c, d) == Some(if d == '=' as int then (OP_LE, Text("<="))
      else if d == '>' as int then (OP_NE, Text("<>")) else (OP_LT, Text("<")))
    ensures c == '>' as int ==> Mark(c, d) == Some(if d == '=' as int then (OP_GE, Text(">=")) else (OP_GT, Text(">")))
    ensures c == '!' as int ==> Mark(c, d) == if d == '=' as int then Some((OP_NE, Text("!="))) else None
  {
    hide Text;
    Signs();
  }

  /** How the comparisons are written. */
  lemma ComparisonSpelled(op: CompOp, w: Bytes)
    ensures (exists k :: IsMark(k, w) && OpOf(k) == Some(op)) <==> match op
      case EQ => w == Text("=")
      case NE => w == Text("<>") || w == Text("!=")
      case LT => w == Text("<")
      case GT => w == Text(">")
      case LE => w == Text("<=")
      case GE => w == Text(">=")
  {
    hide Text;
    hide IsMark;
    Signs();
    forall k ensures IsMark(k, w) <==> w != [] && (w == Text(Sign(k)) || (k == OP_NE && w == Text("!="))) {
      MarkSpelled(k, w);
    }
    var k := OpKind(op);
    assert IsMark(k, w) <==> w != [] && (w == Text(Sign(k)) || (k == OP_NE && w == Text("!=")));
  }

  // ---- Characters and numbers. ----

  /** The character classes of the "C" locale. */
  lemma Characters(b: Byte)
    ensures IsSpace(b) <==> b as char in {' ', '\t', '\n', '\r', '\U{B}', '\U{C}'}
    ensures IsDigit(b) <==> '0' <= b as char <= '9'
    ensures IsAlpha(b) <==> 'A' <= b as char <= 'Z' || 'a' <= b as char <= 'z'
    ensures IsWordStart(b) <==> IsAlpha(b) || b as char == '_'
    ensures IsWordByte(b) <==> IsAlpha(b) || IsDigit(b) || b as char == '_'
    ensures ToUpper(b) == if 'a' <= b as char <= 'z' then b - 'a' as int + 'A' as int else b
  {
  }

  /** Digits from p on, and points, of which at most one, and none after an earlier one. */
  predicate NumberRest(w: Bytes, p: nat, dotted: bool) {
    && (forall i :: p <= i < |w| ==> IsDigit(w[i]) || (w[i] == '.' as int && !dotted))
    && (forall i, j :: p <= i < j < |w| ==> !(w[i] == '.' as int && w[j] == '.' as int))
  }

  lemma {:induction false} NumberRestIs(w: Bytes, p: nat, dotted: bool)
    requires p <= |w|
    ensures NumberEnd(w, p, dotted) == |w| <==> NumberRest(w, p, dotted)
    decreases |w| - p
  {
    NumberStep(w, p, dotted);
    if p < |w| && w[p] == POINT && !dotted {
      NumberRestIs(w, p + 1, true);
    } else if p < |w| && IsDigit(w[p]) {
      NumberRestIs(w, p + 1, dotted);
    }
  }

  /** A number: perhaps a minus sign, a digit, and then digits with at most one point among them. */
  lemma NumberSpelled(w: Bytes)
    ensures IsNumber(w) <==>
      var p := if w != [] && w[0] == '-' as int then 1 else 0;
      p < |w| && IsDigit(w[p]) && NumberRest(w, p, false)
  {
    hide NumberEnd;
    if w != [] {
      NumberRestIs(w, if w[0] == MINUS then 1 else 0, false);
    }
  }

  /** A text between single or double quotes, its own such quotes doubled, is one string literal. */
  lemma StringSpelled(a: Bytes, t: Bytes, b: Bytes, quote: Byte)
    requires quote == '\'' as int || quote == '\"' as int
    requires b != [] ==> b[0] != quote
    ensures var s := a + ([quote] + Doubled(t, quote) + [quote]) + b;
      TokenAt(s, |a|) == Some(Lexeme(Token(STRING_LIT, t, |a|), |s| - |b|))
  {
    hide Doubled;
    hide StringFrom;
    hide Mark;
    hide WordToken;
    hide NumberToken;
    var s := a + Quoted(t, quote) + b;
    QuoteRoundTrip(a, t, b, quote);
    assert s[|a|] == Quoted(t, quote)[0] == quote;
  }
}
