/** The tokenizer (src/sql/sql_tokenizer.cpp). */
module Tokenizer {
  import opened Bytes
  import opened Keys
  import opened Tokens

  const QUOTE: Byte := 0x27
  const DOUBLE_QUOTE: Byte := 0x22
  const POINT: Byte := 0x2E

  predicate IsKeyword(k: Kind) {
    match k
    case INTEGER_LIT | FLOAT_LIT | STRING_LIT | IDENTIFIER => false
    case OP_EQ | OP_NE | OP_LT | OP_GT | OP_LE | OP_GE => false
    case COMMA | LPAREN | RPAREN | SEMICOLON | STAR | DOT | END_OF_INPUT => false
    case _ => true
  }

  function StatementWord(u: Bytes): (k: Kind)
    ensures IsKeyword(k) || k == IDENTIFIER
  {
    if u == Text("CREATE") then KW_CREATE
    else if u == Text("TABLE") then KW_TABLE
    else if u == Text("DROP") then KW_DROP
    else if u == Text("INSERT") then KW_INSERT
    else if u == Text("INTO") then KW_INTO
    else if u == Text("VALUES") then KW_VALUES
    else if u == Text("SELECT") then KW_SELECT
    else if u == Text("FROM") then KW_FROM
    else if u == Text("WHERE") then KW_WHERE
    else if u == Text("UPDATE") then KW_UPDATE
    else IDENTIFIER
  }

  function ClauseWord(u: Bytes): (k: Kind)
    ensures IsKeyword(k) || k == IDENTIFIER
  {
    if u == Text("SET") then KW_SET
    else if u == Text("DELETE") then KW_DELETE
    else if u == Text("AND") then KW_AND
    else if u == Text("OR") then KW_OR
    else if u == Text("NOT") then KW_NOT
    else if u == Text("NULL") then KW_NULL
    else if u == Text("PRIMARY") then KW_PRIMARY
    else if u == Text("KEY") then KW_KEY
    else if u == Text("TRUE") then KW_TRUE
    else if u == Text("FALSE") then KW_FALSE
    else IDENTIFIER
  }

  function TypeWord(u: Bytes): (k: Kind)
    ensures IsKeyword(k) || k == IDENTIFIER
  {
    if u == Text("INT") then KW_INT
    else if u == Text("INTEGER") then KW_INTEGER
    else if u == Text("FLOAT") then KW_FLOAT
    else if u == Text("REAL") then KW_REAL
    else if u == Text("DOUBLE") then KW_DOUBLE
    else if u == Text("TEXT") then KW_TEXT
    else if u == Text("STRING") then KW_STRING
    else if u == Text("VARCHAR") then KW_VARCHAR
    else if u == Text("BOOL") then KW_BOOL
    else if u == Text("BOOLEAN") then KW_BOOLEAN
    else IDENTIFIER
  }

  function OtherWord(u: Bytes): (k: Kind)
    ensures IsKeyword(k) || k == IDENTIFIER
  {
    if u == Text("IF") then KW_IF
    else if u == Text("EXISTS") then KW_EXISTS
    else if u == Text("ORDER") then KW_ORDER
    else if u == Text("BY") then KW_BY
    else if u == Text("ASC") then KW_ASC
    else if u == Text("DESC") then KW_DESC
    else if u == Text("LIMIT") then KW_LIMIT
    else if u == Text("SHOW") then KW_SHOW
    else if u == Text("TABLES") then KW_TABLES
    else if u == Text("DESCRIBE") then KW_DESCRIBE
    else IDENTIFIER
  }

  /** `keyword_type`. */
  function KeywordOf(word: Bytes): (k: Kind)
    ensures IsKeyword(k) || k == IDENTIFIER
  {
    var u := Upper(word);
    if StatementWord(u) != IDENTIFIER then StatementWord(u)
    else if ClauseWord(u) != IDENTIFIER then ClauseWord(u)
    else if TypeWord(u) != IDENTIFIER then TypeWord(u)
    else OtherWord(u)
  }

  // ---- Runs of characters. ----

  function SpaceEnd(s: Bytes, pos: nat): (q: nat)
    requires pos <= |s|
    ensures pos <= q <= |s| && (q < |s| ==> !IsSpace(s[q])) && forall i :: pos <= i < q ==> IsSpace(s[i])
    decreases |s| - pos
  {
    if pos < |s| && IsSpace(s[pos]) then SpaceEnd(s, pos + 1) else pos
  }

  function WordEnd(s: Bytes, pos: nat): (q: nat)
    requires pos <= |s|
    ensures pos <= q <= |s| && (q < |s| ==> !IsWordByte(s[q])) && forall i :: pos <= i < q ==> IsWordByte(s[i])
    decreases |s| - pos
  {
    if pos < |s| && IsWordByte(s[pos]) then WordEnd(s, pos + 1) else pos
  }

  /** Digits with at most one point; the flag says whether a point was already read. */
  function NumberEnd(s: Bytes, pos: nat, dotted: bool): (q: nat)
    requires pos <= |s|
    ensures pos <= q <= |s|
    decreases |s| - pos
  {
    if pos < |s| && s[pos] == POINT && !dotted then NumberEnd(s, pos + 1, true)
    else if pos < |s| && IsDigit(s[pos]) then NumberEnd(s, pos + 1, dotted)
    else pos
  }

  lemma NumberStep(s: Bytes, pos: nat, dotted: bool)
    requires pos <= |s|
    ensures NumberEnd(s, pos, dotted) ==
      if pos < |s| && s[pos] == POINT && !dotted then NumberEnd(s, pos + 1, true)
      else if pos < |s| && IsDigit(s[pos]) then NumberEnd(s, pos + 1, dotted)
      else pos
  {
  }

  predicate HasPoint(w: Bytes) { POINT in w }

  datatype Lexeme<T> = Lexeme(value: T, next: nat)

  /** The rest of a string literal: a doubled quote stands for one, a single one ends it, and so does the end of the
      text. */
  function StringFrom(s: Bytes, pos: nat, quote: Byte): (r: Lexeme<Bytes>)
    requires pos <= |s|
    ensures pos <= r.next <= |s| && |r.value| <= r.next - pos
    decreases |s| - pos
  {
    if pos == |s| then Lexeme([], pos)
    else if s[pos] != quote then
      var r := StringFrom(s, pos + 1, quote);
      Lexeme([s[pos]] + r.value, r.next)
    else if pos + 1 < |s| && s[pos + 1] == quote then
      var r := StringFrom(s, pos + 2, quote);
      Lexeme([quote] + r.value, r.next)
    else Lexeme([], pos + 1)
  }

  function After(value: Bytes, r: Lexeme<Bytes>): Lexeme<Bytes> {
    Lexeme(value + r.value, r.next)
  }

  /** One round of the string loop. */
  lemma StringStep(s: Bytes, pos: nat, quote: Byte, value: Bytes)
    requires pos <= |s|
    ensures After([], StringFrom(s, pos, quote)) == StringFrom(s, pos, quote)
    ensures pos == |s| ==> After(value, StringFrom(s, pos, quote)) == Lexeme(value, pos)
    ensures pos < |s| && s[pos] != quote ==>
      After(value, StringFrom(s, pos, quote)) == After(value + [s[pos]], StringFrom(s, pos + 1, quote))
    ensures pos + 1 < |s| && s[pos] == quote && s[pos + 1] == quote ==>
      After(value, StringFrom(s, pos, quote)) == After(value + [quote], StringFrom(s, pos + 2, quote))
    ensures pos < |s| && s[pos] == quote && (pos + 1 == |s| || s[pos + 1] != quote) ==>
      After(value, StringFrom(s, pos, quote)) == Lexeme(value, pos + 1)
  {
    assert value + [] == value && [] + StringFrom(s, pos, quote).value == StringFrom(s, pos, quote).value;
    if pos < |s| {
      var r := StringFrom(s, pos + 1, quote).value;
      assert value + ([s[pos]] + r) == value + [s[pos]] + r;
    }
    if pos + 1 < |s| {
      var r := StringFrom(s, pos + 2, quote).value;
      assert value + ([quote] + r) == value + [quote] + r;
    }
  }

  // ---- Quoting. ----

  /** A text with its quotes doubled. */
  function Doubled(t: Bytes, quote: Byte): Bytes {
    if t == [] then []
    else (if t[0] == quote then [quote, quote] else [t[0]]) + Doubled(t[1..], quote)
  }

  function Quoted(t: Bytes, quote: Byte): Bytes {
    [quote] + Doubled(t, quote) + [quote]
  }

  lemma {:induction false} DoubledReadsBack(a: Bytes, t: Bytes, b: Bytes, quote: Byte)
    requires b != [] ==> b[0] != quote
    ensures var s := a + Doubled(t, quote) + [quote] + b;
      StringFrom(s, |a|, quote) == Lexeme(t, |a| + |Doubled(t, quote)| + 1)
    decreases |t|
  {
    hide StringFrom;
    var s := a + Doubled(t, quote) + [quote] + b;
    if t == [] {
      assert s == a + [quote] + b;
      StringStep(s, |a|, quote, []);
    } else {
      var head := if t[0] == quote then [quote, quote] else [t[0]];
      assert s == (a + head) + Doubled(t[1..], quote) + [quote] + b;
      DoubledReadsBack(a + head, t[1..], b, quote);
      assert s[|a|] == head[0];
      StringStep(s, |a|, quote, []);
      assert [] + [t[0]] == [t[0]] && [t[0]] + t[1..] == t;
    }
  }

  /** Any text, quoted with its quotes doubled, reads back unchanged. */
  lemma QuoteRoundTrip(a: Bytes, t: Bytes, b: Bytes, quote: Byte)
    requires b != [] ==> b[0] != quote
    ensures StringFrom(a + Quoted(t, quote) + b, |a| + 1, quote) == Lexeme(t, |a| + |Quoted(t, quote)|)
  {
    hide StringFrom;
    assert a + Quoted(t, quote) + b == (a + [quote]) + Doubled(t, quote) + [quote] + b;
    DoubledReadsBack(a + [quote], t, b, quote);
  }

  // ---- One token. ----

  function Peek(s: Bytes, pos: nat): Byte {
    if pos < |s| then s[pos] else 0
  }

  function WordToken(s: Bytes, pos: nat): Lexeme<Token>
    requires pos < |s|
  {
    var q := WordEnd(s, pos);
    var w := s[pos..q];
    Lexeme(Token(KeywordOf(w), if KeywordOf(w) == IDENTIFIER then w else Upper(w), pos), q)
  }

  function NumberToken(s: Bytes, pos: nat): Lexeme<Token>
    requires pos < |s|
  {
    var q := NumberEnd(s, if s[pos] == MINUS then pos + 1 else pos, false);
    Lexeme(Token(if HasPoint(s[pos..q]) then FLOAT_LIT else INTEGER_LIT, s[pos..q], pos), q)
  }

  function StringToken(s: Bytes, pos: nat): Lexeme<Token>
    requires pos < |s|
  {
    var r := StringFrom(s, pos + 1, s[pos]);
    Lexeme(Token(STRING_LIT, r.value, pos), r.next)
  }

  /** The operator or punctuation that starts with c, when d follows. */
  function Mark(c: Byte, d: Byte): Option<(Kind, Bytes)> {
    match c
    case 0x28 => Some((LPAREN, [c]))
    case 0x29 => Some((RPAREN, [c]))
    case 0x2C => Some((COMMA, [c]))
    case 0x3B => Some((SEMICOLON, [c]))
    case 0x2A => Some((STAR, [c]))
    case 0x2E => Some((DOT, [c]))
    case 0x3D => Some((OP_EQ, [c]))
    case 0x3C => if d == 0x3D then Some((OP_LE, [c, d])) else if d == 0x3E then Some((OP_NE, [c, d])) else
      Some((OP_LT, [c]))
    case 0x3E => if d == 0x3D then Some((OP_GE, [c, d])) else Some((OP_GT, [c]))
    case 0x21 => if d == 0x3D then Some((OP_NE, [c, d])) else None
    case _ => None
  }

  /** The token at a position that is not a space; None for a character that starts none. */
  function TokenAt(s: Bytes, pos: nat): Option<Lexeme<Token>>
    requires pos < |s|
  {
    var c := s[pos];
    if IsWordStart(c) then Some(WordToken(s, pos))
    else if IsDigit(c) || (c == MINUS && pos + 1 < |s| && IsDigit(s[pos + 1])) then Some(NumberToken(s, pos))
    else if c == QUOTE || c == DOUBLE_QUOTE then Some(StringToken(s, pos))
    else
      match Mark(c, Peek(s, pos + 1))
      case None => None
      case Some(m) => Some(Lexeme(Token(m.0, m.1, pos), pos + |m.1|))
  }

  /** What one token promises: the cursor moves on and stays in bounds, and the token is no END and no ill-formed name.
      */
  predicate LexemeOk(s: Bytes, pos: nat, l: Lexeme<Token>) {
    && pos < l.next <= |s| && l.value.position == pos && l.value.kind != END_OF_INPUT
    && (l.value.kind == IDENTIFIER ==> IsWord(l.value.text))
    && |l.value.text| <= |s|
  }

  lemma WordTokenOk(s: Bytes, pos: nat)
    requires pos < |s| && IsWordStart(s[pos])
    ensures LexemeOk(s, pos, WordToken(s, pos))
  {
    hide KeywordOf;
    var q := WordEnd(s, pos);
    var w := s[pos..q];
    assert q > pos;
    assert w[0] == s[pos];
    forall i | 0 <= i < |w| ensures IsWordByte(w[i]) { assert w[i] == s[pos + i]; }
  }

  lemma MarkOk(c: Byte, d: Byte)
    ensures var m := Mark(c, d);
      m.Some? ==>
        && 1 <= |m.value.1| <= 2 && (|m.value.1| == 2 ==> d != 0)
        && m.value.0 != END_OF_INPUT && m.value.0 != IDENTIFIER
  {
  }

  lemma TokenAtOk(s: Bytes, pos: nat)
    requires pos < |s|
    ensures TokenAt(s, pos).Some? ==> LexemeOk(s, pos, TokenAt(s, pos).value)
  {
    hide KeywordOf;
    hide WordToken;
    hide Mark;
    hide IsWord;
    if IsWordStart(s[pos]) {
      WordTokenOk(s, pos);
    } else {
      MarkOk(s[pos], Peek(s, pos + 1));
    }
  }

  // ---- The whole text. ----

  function Prepended(ts: seq<Token>, r: Option<seq<Token>>): Option<seq<Token>> {
    match r
    case None => None
    case Some(rest) => Some(ts + rest)
  }

  /** The tokens from a position to the end, closed by END_OF_INPUT. */
  function Lex(s: Bytes, pos: nat): Option<seq<Token>>
    requires pos <= |s|
    decreases |s| - pos
  {
    var p := SpaceEnd(s, pos);
    if p == |s| then Some([Token(END_OF_INPUT, [], p)])
    else
      TokenAtOk(s, p);
      match TokenAt(s, p)
      case None => None
      case Some(l) => Prepended([l.value], Lex(s, l.next))
  }

  /** Token positions ascend strictly from a start. */
  predicate Ascending(ts: seq<Token>, from: nat, to: nat) {
    && (forall i :: 0 <= i < |ts| ==> from <= ts[i].position <= to)
    && (forall i, j :: 0 <= i < j < |ts| ==> ts[i].position < ts[j].position)
  }

  predicate ShortTexts(ts: seq<Token>, n: nat) {
    forall i :: 0 <= i < |ts| ==> |ts[i].text| <= n
  }

  lemma ShapeCons(t: Token, ts: seq<Token>, from: nat, next: nat, to: nat)
    requires TokensOk(ts) && Ascending(ts, next, to) && ShortTexts(ts, to)
    requires from <= t.position < next && t.kind != END_OF_INPUT && (t.kind == IDENTIFIER ==> IsWord(t.text)) &&
      |t.text| <= to
    ensures TokensOk([t] + ts) && Ascending([t] + ts, from, to) && ShortTexts([t] + ts, to)
  {
    hide IsWord;
    assert next <= ts[0].position <= to;
  }

  /** Every text that tokenizes gives a list with exactly one END_OF_INPUT, at its end, proper names, and strictly
      ascending positions inside the text. */
  lemma {:induction false} LexShape(s: Bytes, pos: nat)
    requires pos <= |s|
    ensures Lex(s, pos).Some? ==>
      TokensOk(Lex(s, pos).value) && Ascending(Lex(s, pos).value, pos, |s|) && ShortTexts(Lex(s, pos).value, |s|)
    decreases |s| - pos
  {
    hide TokenAt;
    hide IsWord;
    var p := SpaceEnd(s, pos);
    if p < |s| {
      TokenAtOk(s, p);
      if TokenAt(s, p).Some? {
        var l := TokenAt(s, p).value;
        LexShape(s, l.next);
        if Lex(s, l.next).Some? {
          ShapeCons(l.value, Lex(s, l.next).value, pos, l.next, |s|);
        }
      }
    }
  }

  lemma PrependMore(ts: seq<Token>, more: seq<Token>, r: Option<seq<Token>>)
    ensures Prepended([], r) == r && Prepended(ts + more, r) == Prepended(ts, Prepended(more, r))
  {
    if r.Some? {
      assert [] + r.value == r.value && ts + more + r.value == ts + (more + r.value);
    }
  }

  /** One round of the main loop. */
  lemma LexStep(s: Bytes, pos: nat, ts: seq<Token>)
    requires pos <= |s|
    ensures var p := SpaceEnd(s, pos);
      if p == |s| then Lex(s, pos) == Lex(s, p) && Prepended(ts, Lex(s, pos)) == Some(ts + [Token(END_OF_INPUT, [], p)])
      else if TokenAt(s, p).None? then Prepended(ts, Lex(s, pos)) == None
      else
        var l := TokenAt(s, p).value;
        p < l.next <= |s| && Prepended(ts, Lex(s, pos)) == Prepended(ts + [l.value], Lex(s, l.next))
  {
    hide TokenAt;
    var p := SpaceEnd(s, pos);
    if p < |s| {
      TokenAtOk(s, p);
      if TokenAt(s, p).Some? {
        PrependMore(ts, [TokenAt(s, p).value.value], Lex(s, TokenAt(s, p).value.next));
      }
    }
  }

  // ---- Printing tokens. ----

  const SPACE: Byte := 0x20

  /** The texts `read_number` takes. */
  predicate IsNumber(w: Bytes) {
    && w != []
    && (IsDigit(w[0]) || (w[0] == MINUS && |w| > 1 && IsDigit(w[1])))
    && NumberEnd(w, if w[0] == MINUS then 1 else 0, false) == |w|
  }

  predicate IsMark(k: Kind, w: Bytes) {
    && 1 <= |w| <= 2 && !IsWordStart(w[0]) && !IsDigit(w[0]) && w[0] != MINUS && w[0] != QUOTE &&
      w[0] != DOUBLE_QUOTE && !IsSpace(w[0])
    && Mark(w[0], if |w| == 2 then w[1] else SPACE) == Some((k, w))
  }

  /** The tokens a text can contain. */
  predicate Lexable(t: Token) {
    match t.kind
    case END_OF_INPUT => false
    case STRING_LIT => true
    case INTEGER_LIT => IsNumber(t.text) && !HasPoint(t.text)
    case FLOAT_LIT => IsNumber(t.text) && HasPoint(t.text)
    case k =>
      if k == IDENTIFIER || IsKeyword(k) then IsWord(t.text) && KeywordOf(t.text) == k &&
        (IsKeyword(k) ==> Upper(t.text) == t.text)
      else IsMark(k, t.text)
  }

  function Rendered(t: Token): Bytes {
    if t.kind == STRING_LIT then Quoted(t.text, QUOTE) else t.text
  }

  /** Tokens as text, a space after each. */
  function Render(ts: seq<Token>): Bytes {
    if ts == [] then [] else Rendered(ts[0]) + ([SPACE] + Render(ts[1..]))
  }

  predicate Same(t: Token, u: Token) {
    t.kind == u.kind && t.text == u.text
  }

  lemma {:induction false} WordEndIs(s: Bytes, pos: nat, q: nat)
    requires pos <= q <= |s| && (forall i :: pos <= i < q ==> IsWordByte(s[i])) && (q < |s| ==> !IsWordByte(s[q]))
    ensures WordEnd(s, pos) == q
    decreases q - pos
  {
    if pos < q {
      WordEndIs(s, pos + 1, q);
    }
  }

  lemma {:induction false} NumberEndLocal(a: Bytes, w: Bytes, b: Bytes, i: nat, dotted: bool)
    requires i <= |w| && NumberEnd(w, i, dotted) == |w| && b != [] && b[0] == SPACE
    ensures NumberEnd(a + w + b, |a| + i, dotted) == |a| + |w|
    decreases |w| - i
  {
    var s := a + w + b;
    if i < |w| {
      assert s[|a| + i] == w[i];
      NumberEndLocal(a, w, b, i + 1, dotted || w[i] == POINT);
    } else {
      assert s[|a| + |w|] == SPACE;
    }
  }

  lemma WordReads(a: Bytes, t: Token, b: Bytes)
    requires IsWord(t.text) && KeywordOf(t.text) == t.kind && (t.kind != IDENTIFIER ==> Upper(t.text) == t.text)
    requires b != [] && b[0] == SPACE
    ensures var s := a + t.text + b;
      |a| < |s| && s[|a|] == t.text[0] && WordToken(s, |a|) == Lexeme(Token(t.kind, t.text, |a|), |a| + |t.text|)
  {
    hide KeywordOf;
    hide Upper;
    var s := a + t.text + b;
    forall i | |a| <= i < |a| + |t.text| ensures IsWordByte(s[i]) { assert s[i] == t.text[i - |a|]; }
    WordEndIs(s, |a|, |a| + |t.text|);
    assert s[|a|..|a| + |t.text|] == t.text;
  }

  lemma NumberReads(a: Bytes, t: Token, b: Bytes)
    requires IsNumber(t.text) && t.kind == (if HasPoint(t.text) then FLOAT_LIT else INTEGER_LIT) && b != [] &&
      b[0] == SPACE
    ensures var s := a + t.text + b;
      && |a| < |s| && s[|a|] == t.text[0] && (|t.text| > 1 ==> |a| + 1 < |s| && s[|a| + 1] == t.text[1])
      && NumberToken(s, |a|) == Lexeme(Token(t.kind, t.text, |a|), |a| + |t.text|)
  {
    hide NumberEnd;
    hide HasPoint;
    var s := a + t.text + b;
    NumberEndLocal(a, t.text, b, if t.text[0] == MINUS then 1 else 0, false);
    assert s[|a|..|a| + |t.text|] == t.text;
  }

  lemma MarkReads(a: Bytes, w: Bytes, b: Bytes)
    requires 1 <= |w| <= 2 && b != [] && b[0] == SPACE
    ensures var s := a + w + b;
      |a| + 1 < |s| && s[|a|] == w[0] && Peek(s, |a| + 1) == if |w| == 2 then w[1] else SPACE
  {
  }

  lemma StringReads(a: Bytes, t: Bytes, b: Bytes)
    requires b != [] && b[0] == SPACE
    ensures var s := a + Quoted(t, QUOTE) + b;
      |a| < |s| && s[|a|] == QUOTE && StringToken(s, |a|) == Lexeme(Token(STRING_LIT, t, |a|), |a| + |Quoted(t, QUOTE)|)
  {
    hide StringFrom;
    hide Doubled;
    QuoteRoundTrip(a, t, b, QUOTE);
    assert Quoted(t, QUOTE)[0] == QUOTE;
  }

  /** A printed token reads back, wherever it stands. */
  lemma TokenReads(a: Bytes, t: Token, b: Bytes)
    requires Lexable(t) && b != [] && b[0] == SPACE
    ensures var s := a + Rendered(t) + b;
      && |a| < |s| && !IsSpace(s[|a|])
      && TokenAt(s, |a|) == Some(Lexeme(Token(t.kind, t.text, |a|), |a| + |Rendered(t)|))
  {
    hide KeywordOf;
    hide WordToken;
    hide NumberToken;
    hide StringToken;
    hide Mark;
    hide Quoted;
    hide NumberEnd;
    if t.kind == STRING_LIT {
      StringReads(a, t.text, b);
    } else if t.kind == INTEGER_LIT || t.kind == FLOAT_LIT {
      NumberReads(a, t, b);
    } else if t.kind == IDENTIFIER || IsKeyword(t.kind) {
      WordReads(a, t, b);
    } else {
      MarkReads(a, t.text, b);
    }
  }

  lemma SpaceSkipped(s: Bytes, pos: nat)
    requires pos < |s| && IsSpace(s[pos])
    ensures Lex(s, pos) == Lex(s, pos + 1)
  {
    assert SpaceEnd(s, pos) == SpaceEnd(s, pos + 1);
  }

  lemma LexOne(s: Bytes, pos: nat)
    requires pos < |s| && !IsSpace(s[pos]) && TokenAt(s, pos).Some?
    ensures pos < TokenAt(s, pos).value.next <= |s|
    ensures Lex(s, pos) == Prepended([TokenAt(s, pos).value.value], Lex(s, TokenAt(s, pos).value.next))
  {
    hide TokenAt;
    TokenAtOk(s, pos);
    assert SpaceEnd(s, pos) == pos;
  }

  /** A printed token and its space, read off the front. */
  lemma RenderHead(a: Bytes, t: Token, rest: Bytes)
    requires Lexable(t)
    ensures var s, q := a + (Rendered(t) + ([SPACE] + rest)), |a| + |Rendered(t)| + 1;
      s == (a + Rendered(t) + [SPACE]) + rest && q == |a + Rendered(t) + [SPACE]| <= |s| &&
        Lex(s, |a|) == Prepended([Token(t.kind, t.text, |a|)], Lex(s, q))
  {
    hide TokenAt;
    hide Lexable;
    hide Rendered;
    hide Lex;
    var head := Rendered(t);
    var s := a + (head + ([SPACE] + rest));
    assert s == a + head + ([SPACE] + rest);
    TokenReads(a, t, [SPACE] + rest);
    LexOne(s, |a|);
    assert s == (a + head + [SPACE]) + rest;
    assert s[|a| + |head|] == SPACE;
    SpaceSkipped(s, |a| + |head|);
  }

  /** What reading a list of tokens back gives: the same tokens, then END_OF_INPUT. */
  predicate ReadsBack(r: Option<seq<Token>>, ts: seq<Token>) {
    r.Some? && |r.value| == |ts| + 1 && r.value[|ts|].kind == END_OF_INPUT && forall i :: 0 <= i < |ts| ==>
      Same(r.value[i], ts[i])
  }

  lemma ReadsBackCons(t: Token, u: Token, r: Option<seq<Token>>, ts: seq<Token>)
    requires t.kind == u.kind && t.text == u.text && ReadsBack(r, ts)
    ensures ReadsBack(Prepended([t], r), [u] + ts)
  {
  }

  /** Any list of tokens, printed with spaces between them, is read back, followed by END_OF_INPUT. */
  lemma {:induction false} RenderRoundTrip(a: Bytes, ts: seq<Token>)
    requires forall i :: 0 <= i < |ts| ==> Lexable(ts[i])
    ensures ReadsBack(Lex(a + Render(ts), |a|), ts)
    decreases |ts|
  {
    hide *;
    if ts == [] {
      RenderNone(a);
    } else {
      var rest := Render(ts[1..]);
      RenderCons(ts);
      RenderHead(a, ts[0], rest);
      var b := a + Rendered(ts[0]) + [SPACE];
      RenderRoundTrip(b, ts[1..]);
      ReadsBackCons(Token(ts[0].kind, ts[0].text, |a|), ts[0], Lex(b + rest, |b|), ts[1..]);
    }
  }

  lemma RenderNone(a: Bytes)
    ensures ReadsBack(Lex(a + Render([]), |a|), [])
  {
    assert a + Render([]) == a;
  }

  lemma RenderCons(ts: seq<Token>)
    requires ts != []
    ensures Render(ts) == Rendered(ts[0]) + ([SPACE] + Render(ts[1..])) && ts == [ts[0]] + ts[1..]
  {
    hide Rendered;
  }

  lemma UpperWord(w: Bytes)
    requires IsWord(w)
    ensures IsWord(Upper(w)) && KeywordOf(Upper(w)) == KeywordOf(w) && Upper(Upper(w)) == Upper(w)
  {
    hide StatementWord;
    hide ClauseWord;
    hide TypeWord;
    hide OtherWord;
    assert Upper(Upper(w)) == Upper(w);
  }

  lemma {:induction false} NumberEndInside(s: Bytes, start: nat, pos: nat, dotted: bool)
    requires start <= pos <= |s|
    ensures var q := NumberEnd(s, pos, dotted); NumberEnd(s[start..q], pos - start, dotted) == q - start
    decreases |s| - pos
  {
    var q := NumberEnd(s, pos, dotted);
    if pos < |s| && ((s[pos] == POINT && !dotted) || IsDigit(s[pos])) {
      NumberEndInside(s, start, pos + 1, dotted || s[pos] == POINT);
      assert s[start..q][pos - start] == s[pos];
    }
  }

  lemma WordLexable(s: Bytes, pos: nat)
    requires pos < |s| && IsWordStart(s[pos])
    ensures Lexable(WordToken(s, pos).value)
  {
    hide KeywordOf;
    hide Upper;
    hide IsMark;
    var w := s[pos..WordEnd(s, pos)];
    assert WordEnd(s, pos) > pos;
    assert w[0] == s[pos];
    forall i | 0 <= i < |w| ensures IsWordByte(w[i]) { assert w[i] == s[pos + i]; }
    UpperWord(w);
  }

  lemma NumberLexable(s: Bytes, pos: nat)
    requires pos < |s| && (IsDigit(s[pos]) || (s[pos] == MINUS && pos + 1 < |s| && IsDigit(s[pos + 1])))
    ensures Lexable(NumberToken(s, pos).value)
  {
    hide KeywordOf;
    hide IsMark;
    var first := if s[pos] == MINUS then pos + 1 else pos;
    var q := NumberEnd(s, first, false);
    NumberEndInside(s, pos, first, false);
    assert q > first;
    assert s[pos..q][0] == s[pos] && (first > pos ==> s[pos..q][1] == s[pos + 1]);
  }

  lemma MarkLexable(c: Byte, d: Byte, pos: nat)
    requires Mark(c, d).Some?
    ensures Lexable(Token(Mark(c, d).value.0, Mark(c, d).value.1, pos))
  {
    hide KeywordOf;
    hide IsWord;
    hide IsNumber;
    hide HasPoint;
    hide Upper;
  }

  /** The tokenizer yields no other tokens. */
  lemma {:induction false} LexIsLexable(s: Bytes, pos: nat)
    requires pos <= |s|
    ensures Lex(s, pos).Some? ==> forall i :: 0 <= i < |Lex(s, pos).value| - 1 ==> Lexable(Lex(s, pos).value[i])
    decreases |s| - pos
  {
    hide Lexable;
    hide TokenAt;
    var p := SpaceEnd(s, pos);
    if p < |s| {
      TokenAtOk(s, p);
      if TokenAt(s, p).Some? {
        TokenIsLexable(s, p);
        LexIsLexable(s, TokenAt(s, p).value.next);
      }
    }
  }

  lemma TokenIsLexable(s: Bytes, p: nat)
    requires p < |s| && TokenAt(s, p).Some?
    ensures Lexable(TokenAt(s, p).value.value)
  {
    hide KeywordOf;
    hide WordToken;
    hide NumberToken;
    hide Mark;
    hide StringFrom;
    hide IsMark;
    hide IsNumber;
    hide IsWord;
    if IsWordStart(s[p]) {
      WordLexable(s, p);
    } else if IsDigit(s[p]) || (s[p] == MINUS && p + 1 < |s| && IsDigit(s[p + 1])) {
      NumberLexable(s, p);
    } else if s[p] != QUOTE && s[p] != DOUBLE_QUOTE {
      MarkLexable(s[p], Peek(s, p + 1), p);
    }
  }

  /** Names are always good table names: no colon, and below '~'. */
  lemma WordsArePlain(w: Bytes)
    requires IsWord(w)
    ensures PlainName(w) && Reachable(w)
  {
  }

  class SqlTokenizer {
    const input: Bytes
    var pos: nat

    constructor (text: Bytes)
      ensures input == text && pos == 0
    {
      input, pos := text, 0;
    }

    method SkipWhitespace()
      requires pos <= |input|
      modifies this
      ensures pos == SpaceEnd(input, old(pos))
    {
      while pos < |input| && IsSpace(input[pos])
        invariant pos <= |input| && SpaceEnd(input, pos) == SpaceEnd(input, old(pos))
      {
        pos := pos + 1;
      }
    }

    method ReadNumber() returns (t: Token)
      requires pos < |input|
      modifies this
      ensures Lexeme(t, pos) == NumberToken(input, old(pos))
    {
      hide NumberEnd;
      var start := pos;
      var dotted := false;
      if input[pos] == MINUS {
        pos := pos + 1;
      }
      ghost var first := pos;
      while pos < |input|
        invariant start <= first <= pos <= |input|
        invariant dotted == (POINT in input[start..pos])
        invariant NumberEnd(input, pos, dotted) == NumberEnd(input, first, false)
      {
        NumberStep(input, pos, dotted);
        assert input[start..pos + 1] == input[start..pos] + [input[pos]];
        if input[pos] == POINT {
          if dotted {
            break;
          }
          dotted := true;
          pos := pos + 1;
        } else if IsDigit(input[pos]) {
          pos := pos + 1;
        } else {
          break;
        }
      }
      NumberStep(input, pos, dotted);
      t := Token(if dotted then FLOAT_LIT else INTEGER_LIT, input[start..pos], start);
    }

    method ReadString() returns (t: Token)
      requires pos < |input|
      modifies this
      ensures Lexeme(t, pos) == StringToken(input, old(pos))
    {
      hide StringFrom;
      hide After;
      var start, quote := pos, input[pos];
      pos := pos + 1;
      var value: Bytes := [];
      ghost var whole := StringFrom(input, pos, quote);
      StringStep(input, pos, quote, []);
      while pos < |input|
        invariant pos <= |input| && whole == After(value, StringFrom(input, pos, quote))
      {
        StringStep(input, pos, quote, value);
        var c := input[pos];
        pos := pos + 1;
        if c == quote {
          if Peek(input, pos) == quote && pos < |input| {
            value := value + [quote];
            pos := pos + 1;
          } else {
            return Token(STRING_LIT, value, start);
          }
        } else {
          value := value + [c];
        }
      }
      StringStep(input, pos, quote, value);
      t := Token(STRING_LIT, value, start);
    }

    method ReadWord() returns (t: Token)
      requires pos < |input|
      modifies this
      ensures Lexeme(t, pos) == WordToken(input, old(pos))
    {
      hide KeywordOf;
      var start := pos;
      while pos < |input| && IsWordByte(input[pos])
        invariant start <= pos <= |input| && WordEnd(input, pos) == WordEnd(input, start)
      {
        pos := pos + 1;
      }
      var w := input[start..pos];
      var kind := KeywordOf(w);
      t := Token(kind, if kind == IDENTIFIER then w else Upper(w), start);
    }

    /** The branches of `tokenize`; None for its exception. */
    method ReadToken() returns (r: Option<Token>)
      requires pos < |input|
      modifies this
      ensures r.None? <==> TokenAt(input, old(pos)).None?
      ensures r.Some? ==> TokenAt(input, old(pos)) == Some(Lexeme(r.value, pos))
    {
      hide WordToken;
      hide NumberToken;
      hide StringToken;
      hide Mark;
      var c := input[pos];
      var t;
      if IsWordStart(c) {
        t := ReadWord();
      } else if IsDigit(c) || (c == MINUS && pos + 1 < |input| && IsDigit(input[pos + 1])) {
        t := ReadNumber();
      } else if c == QUOTE || c == DOUBLE_QUOTE {
        t := ReadString();
      } else {
        var m := Mark(c, Peek(input, pos + 1));
        if m.None? {
          return None;
        }
        t := Token(m.value.0, m.value.1, pos);
        pos := pos + |m.value.1|;
      }
      r := Some(t);
    }

    /** `tokenize`. */
    method Tokenize() returns (r: Option<seq<Token>>)
      requires pos == 0
      modifies this
      ensures r == Lex(input, 0)
    {
      hide *;
      var tokens := [];
      PrependMore([], [], Lex(input, 0));
      while pos < |input|
        invariant pos <= |input| && Lex(input, 0) == Prepended(tokens, Lex(input, pos))
        decreases |input| - pos
      {
        LexStep(input, pos, tokens);
        SkipWhitespace();
        if pos >= |input| {
          break;
        }
        var t := ReadToken();
        if t.None? {
          return None;
        }
        tokens := tokens + [t.value];
      }
      LexStep(input, pos, tokens);
      r := Some(tokens + [Token(END_OF_INPUT, [], pos)]);
    }
  }
}
