/** Tokens (include/mosaicdb/sql_tokenizer.h). */
module Tokens {
  import opened Bytes

  datatype Kind =
    | KW_CREATE | KW_TABLE | KW_DROP | KW_INSERT | KW_INTO | KW_VALUES
    | KW_SELECT | KW_FROM | KW_WHERE | KW_UPDATE | KW_SET | KW_DELETE
    | KW_AND | KW_OR | KW_NOT | KW_NULL | KW_PRIMARY | KW_KEY
    | KW_INT | KW_FLOAT | KW_TEXT | KW_BOOL | KW_INTEGER | KW_REAL
    | KW_VARCHAR | KW_BOOLEAN | KW_STRING | KW_DOUBLE
    | KW_TRUE | KW_FALSE | KW_IF | KW_EXISTS
    | KW_ORDER | KW_BY | KW_ASC | KW_DESC | KW_LIMIT
    | KW_SHOW | KW_TABLES | KW_DESCRIBE
    | INTEGER_LIT | FLOAT_LIT | STRING_LIT
    | IDENTIFIER
    | OP_EQ | OP_NE | OP_LT | OP_GT | OP_LE | OP_GE
    | COMMA | LPAREN | RPAREN | SEMICOLON | STAR | DOT
    | END_OF_INPUT

  datatype Token = Token(kind: Kind, text: Bytes, position: nat)

  // ---- Character classes, as in the "C" locale. ----

  predicate IsSpace(b: Byte) { b == 0x20 || 0x09 <= b <= 0x0D }

  predicate IsDigit(b: Byte) { 0x30 <= b <= 0x39 }

  predicate IsAlpha(b: Byte) { 0x41 <= b <= 0x5A || 0x61 <= b <= 0x7A }

  const UNDERSCORE: Byte := 0x5F

  predicate IsWordByte(b: Byte) { IsAlpha(b) || IsDigit(b) || b == UNDERSCORE }

  predicate IsWordStart(b: Byte) { IsAlpha(b) || b == UNDERSCORE }

  /** Names as the tokenizer reads them: a letter or '_', then letters, digits and '_'. */
  predicate IsWord(w: Bytes) {
    w != [] && IsWordStart(w[0]) && forall i :: 0 <= i < |w| ==> IsWordByte(w[i])
  }

  function ToUpper(b: Byte): Byte { if 0x61 <= b <= 0x7A then b - 0x20 else b }

  function Upper(w: Bytes): (u: Bytes)
    ensures |u| == |w|
  {
    seq(|w|, i requires 0 <= i < |w| => ToUpper(w[i]))
  }

  // ---- Token lists as the tokenizer makes them. ----

  predicate TokensOk(ts: seq<Token>) {
    && ts != []
    && (forall i :: 0 <= i < |ts| ==> (ts[i].kind == END_OF_INPUT <==> i == |ts| - 1))
    && ts[|ts| - 1].text == []
    && (forall i :: 0 <= i < |ts| && ts[i].kind == IDENTIFIER ==> IsWord(ts[i].text))
  }
}
