/** Syntax in a token list: `XIs(num, ts, i, c, j)` says that the tokens from i to j spell c and that
    the token at j does not continue it. Each lemma takes one piece of syntax apart. */
module Sentences {
  import opened Bytes
  import opened Values
  import opened Ast
  import opened Eval
  import opened Tokens
  import opened Grammar

  lemma ReadsOne(ts: seq<Token>, i: nat, s: Sym, j: nat)
    ensures Reads(ts, i, [s], j) <==> i < |ts| && j == i + 1 && Fits(ts[i], s)
  {
    hide Fits;
    if Reads(ts, i, [s], j) {
      assert Fits(ts[i + 0], [s][0]);
    }
  }

  lemma ReadsKind(ts: seq<Token>, i: nat, k: Kind, j: nat)
    ensures Reads(ts, i, [K(k)], j) <==> i < |ts| && j == i + 1 && ts[i].kind == k
  {
    hide Reads;
    ReadsOne(ts, i, K(k), j);
  }

  lemma ReadsText(ts: seq<Token>, i: nat, k: Kind, w: Bytes, j: nat)
    ensures Reads(ts, i, [T(k, w)], j) <==> i < |ts| && j == i + 1 && ts[i].kind == k && ts[i].text == w
  {
    hide Reads;
    ReadsOne(ts, i, T(k, w), j);
  }

  /** Short patterns, token by token. */
  lemma ReadsPair(ts: seq<Token>, i: nat, a: Sym, b: Sym, j: nat)
    ensures Reads(ts, i, [a, b], j) <==> j == i + 2 <= |ts| && Fits(ts[i], a) && Fits(ts[i + 1], b)
  {
    hide Fits;
    var p := [a, b];
    if Reads(ts, i, p, j) {
      assert Fits(ts[i + 0], p[0]) && Fits(ts[i + 1], p[1]);
    }
  }

  lemma ReadsTriple(ts: seq<Token>, i: nat, a: Sym, b: Sym, c: Sym, j: nat)
    ensures Reads(ts, i, [a, b, c], j) <==>
      j == i + 3 <= |ts| && Fits(ts[i], a) && Fits(ts[i + 1], b) && Fits(ts[i + 2], c)
  {
    hide Fits;
    var p := [a, b, c];
    if Reads(ts, i, p, j) {
      assert Fits(ts[i + 0], p[0]) && Fits(ts[i + 1], p[1]) && Fits(ts[i + 2], p[2]);
    }
  }

  /** A pattern in two parts. */
  lemma ReadsTwo(ts: seq<Token>, i: nat, p: seq<Sym>, q: seq<Sym>, j: nat)
    ensures Reads(ts, i, p + q, j) <==> Reads(ts, i, p, i + |p|) && Reads(ts, i + |p|, q, j)
  {
    hide Reads;
    if Reads(ts, i, p + q, j) {
      ReadsSplit(ts, i, p, q, j);
    }
    if Reads(ts, i, p, i + |p|) && Reads(ts, i + |p|, q, j) {
      ReadsJoin(ts, i, p, i + |p|, q, j);
    }
  }

  /** A pattern that starts with a keyword or mark. */
  lemma ReadsFirst(ts: seq<Token>, i: nat, k: Kind, q: seq<Sym>, j: nat)
    ensures Reads(ts, i, [K(k)] + q, j) <==> i < |ts| && ts[i].kind == k && Reads(ts, i + 1, q, j)
  {
    hide Reads;
    ReadsTwo(ts, i, [K(k)], q, j);
    ReadsKind(ts, i, k, i + 1);
  }

  lemma ReadsFirstText(ts: seq<Token>, i: nat, k: Kind, w: Bytes, q: seq<Sym>, j: nat)
    ensures Reads(ts, i, [T(k, w)] + q, j) <==> i < |ts| && ts[i].kind == k && ts[i].text == w && Reads(ts, i + 1, q, j)
  {
    hide Reads;
    ReadsTwo(ts, i, [T(k, w)], q, j);
    ReadsText(ts, i, k, w, i + 1);
  }

  // ---- Lists. ----

  ghost predicate ListIs<X>(ts: seq<Token>, i: nat, f: X -> seq<Sym>, xs: seq<X>, j: nat) {
    Reads(ts, i, Each(f, xs), j)
  }

  lemma NoItems<X>(ts: seq<Token>, i: nat, f: X -> seq<Sym>)
    requires i <= |ts|
    ensures ListIs(ts, i, f, [], i)
  {
  }

  lemma OneMore<X>(ts: seq<Token>, i: nat, f: X -> seq<Sym>, xs: seq<X>, j: nat, x: X, k: nat)
    requires ListIs(ts, i, f, xs, j) && Reads(ts, j, f(x), k)
    ensures ListIs(ts, i, f, xs + [x], k) && More(xs, x) == xs + [x]
  {
    EachMore(ts, i, f, xs, j, x, k);
  }

  /** A list read so far is a beginning of the list that is expected. */
  ghost predicate Along<X>(c: seq<X>, xs: seq<X>) {
    |c| <= |xs| && c == xs[..|c|]
  }

  /** One more item read. */
  ghost function More<X>(c: seq<X>, x: X): seq<X> {
    c + [x]
  }

  lemma AlongNone<X>(xs: seq<X>)
    ensures Along([], xs)
  {
  }

  lemma AlongNext<X>(c: seq<X>, xs: seq<X>)
    requires Along(c, xs)
    ensures |c| <= |xs| && c == xs[..|c|]
    ensures |c| == |xs| ==> c == xs
    ensures |c| < |xs| ==> Along(More(c, xs[|c|]), xs) && xs[..|c| + 1] == c + [xs[|c|]]
  {
  }

  /** The item after the first n stands where these end. */
  lemma NextItem<X>(ts: seq<Token>, i: nat, f: X -> seq<Sym>, xs: seq<X>, j: nat, n: nat, p: nat)
    requires ListIs(ts, i, f, xs, j) && n <= |xs| && ListIs(ts, i, f, xs[..n], p)
    ensures if n == |xs| then p == j && xs[..n] == xs
      else
        && Reads(ts, p, f(xs[n]), p + |f(xs[n])|) && ListIs(ts, i, f, xs[..n + 1], p + |f(xs[n])|)
        && xs[..n + 1] == xs[..n] + [xs[n]]
  {
    hide Reads;
    hide Each;
    ReadsLength(ts, i, Each(f, xs[..n]), p);
    if n == |xs| {
      assert xs[..n] == xs;
      ReadsLength(ts, i, Each(f, xs), j);
    } else {
      EachAt(ts, i, f, xs, j, n);
      ReadsLength(ts, p, f(xs[n]), i + |Each(f, xs[..n + 1])|);
      assert xs[..n + 1] == xs[..n] + [xs[n]];
      EachMore(ts, i, f, xs[..n], p, xs[n], p + |f(xs[n])|);
    }
  }

  /** A list and the parenthesis that closes it. */
  ghost predicate Closed<X>(ts: seq<Token>, i: nat, f: X -> seq<Sym>, xs: seq<X>, j: nat) {
    Reads(ts, i, Each(f, xs) + [K(RPAREN)], j)
  }

  lemma ClosedParts<X>(ts: seq<Token>, i: nat, f: X -> seq<Sym>, xs: seq<X>, j: nat)
    ensures Closed(ts, i, f, xs, j) <==>
      j > 0 && ListIs(ts, i, f, xs, j - 1) && j - 1 < |ts| && ts[j - 1].kind == RPAREN
  {
    hide Reads;
    hide Each;
    var e := Each(f, xs);
    ReadsTwo(ts, i, e, [K(RPAREN)], j);
    ReadsKind(ts, i + |e|, RPAREN, j);
    if Closed(ts, i, f, xs, j) {
      ReadsLength(ts, i, e, i + |e|);
    }
    if j > 0 && ListIs(ts, i, f, xs, j - 1) {
      ReadsLength(ts, i, e, j - 1);
    }
  }

  // ---- Conditions and WHERE. ----

  ghost predicate LiteralIs(num: Numeric, ts: seq<Token>, i: nat, l: Literal) {
    i < |ts| && Fits(ts[i], LiteralSym(l)) && LiteralOk(num, l)
  }

  lemma LiteralKind(num: Numeric, ts: seq<Token>, i: nat, l: Literal)
    requires LiteralIs(num, ts, i, l)
    ensures i < |ts| && ts[i].kind != COMMA && ts[i].kind != RPAREN && ts[i].kind != END_OF_INPUT &&
      ts[i].kind != SEMICOLON
  {
  }

  ghost predicate CondIs(num: Numeric, ts: seq<Token>, i: nat, c: CondSyn, j: nat) {
    Reads(ts, i, PrintCond(c), j) && LiteralOk(num, c.value)
  }

  lemma CondParts(num: Numeric, ts: seq<Token>, i: nat, c: CondSyn, j: nat)
    ensures CondIs(num, ts, i, c, j) <==>
      && j == i + 3 <= |ts| && ts[i].kind == IDENTIFIER && ts[i].text == c.column && ts[i + 1].kind == OpKind(c.op)
      && LiteralIs(num, ts, i + 2, c.value)
  {
    hide LiteralSym;
    hide LiteralOk;
    hide Reads;
    ReadsTriple(ts, i, T(IDENTIFIER, c.column), K(OpKind(c.op)), LiteralSym(c.value), j);
  }

  predicate IsLogic(k: Kind) { k == KW_AND || k == KW_OR }

  ghost predicate LinkIs(num: Numeric, ts: seq<Token>, i: nat, l: Link, j: nat) {
    Reads(ts, i, PrintLink(l), j) && LiteralOk(num, l.cond.value)
  }

  lemma LinkParts(num: Numeric, ts: seq<Token>, i: nat, l: Link, j: nat)
    ensures LinkIs(num, ts, i, l, j) <==> i < |ts| && ts[i].kind == LogicKind(l.op) && CondIs(num, ts, i + 1, l.cond, j)
  {
    hide Reads;
    hide LiteralOk;
    ReadsFirst(ts, i, LogicKind(l.op), PrintCond(l.cond), j);
  }

  /** The connectives with their conditions; nothing is said of what follows. */
  ghost predicate LinksIs(num: Numeric, ts: seq<Token>, i: nat, ls: seq<Link>, j: nat) {
    ListIs(ts, i, PrintLink, ls, j) && LinksOk(num, ls)
  }

  lemma NoLinks(num: Numeric, ts: seq<Token>, i: nat, first: Condition)
    requires i <= |ts|
    ensures LinksOk(num, []) && LinksIs(num, ts, i, [], i) && LinksMeaning(num, first, []) == Where([first], [])
  {
    hide ListIs;
    NoItems(ts, i, PrintLink);
    LinksMore(num, first, [], Link(AND, CondSyn([], EQ, NullLit)));
  }

  lemma MoreLinks(num: Numeric, ts: seq<Token>, i: nat, ls: seq<Link>, j: nat, l: Link, k: nat, first: Condition)
    requires LinksIs(num, ts, i, ls, j) && LinkIs(num, ts, j, l, k)
    ensures LinksOk(num, ls) && LinksOk(num, More(ls, l)) && LinksIs(num, ts, i, More(ls, l), k)
    ensures var w := LinksMeaning(num, first, ls);
      LinksMeaning(num, first, More(ls, l)) == Where(w.conditions + [CondMeaning(num, l.cond)], w.ops + [l.op])
  {
    hide ListIs;
    hide LiteralOk;
    hide Reads;
    hide PrintLink;
    hide CondMeaning;
    hide LinksMeaning;
    OneMore(ts, i, PrintLink, ls, j, l, k);
    LinksMore(num, first, ls, l);
  }

  lemma NextLink(num: Numeric, ts: seq<Token>, i: nat, ls: seq<Link>, j: nat, c: seq<Link>, p: nat)
    requires LinksIs(num, ts, i, ls, j) && Along(c, ls) && LinksIs(num, ts, i, c, p)
    ensures |c| <= |ls| && if |c| == |ls| then p == j && c == ls
      else LinkIs(num, ts, p, ls[|c|], p + 4) && p < |ts| && IsLogic(ts[p].kind) && Along(More(c, ls[|c|]), ls)
  {
    hide Along;
    AlongNext(c, ls);
    var n := |c|;
    hide ListIs;
    hide LiteralOk;
    hide Reads;
    hide CondIs;
    NextItem(ts, i, PrintLink, ls, j, n, p);
    if n < |ls| {
      LinkParts(num, ts, p, ls[n], p + 4);
    }
  }

  ghost predicate WhereIs(num: Numeric, ts: seq<Token>, i: nat, w: WhereSyn, j: nat) {
    Reads(ts, i, PrintWhere(w), j) && WhereSynOk(num, w) && j < |ts| && !IsLogic(ts[j].kind)
  }

  lemma WhereParts(num: Numeric, ts: seq<Token>, i: nat, w: WhereSyn, j: nat)
    ensures WhereIs(num, ts, i, w, j) <==>
      && i < |ts| && ts[i].kind == KW_WHERE && CondIs(num, ts, i + 1, w.first, i + 4)
      && LinksIs(num, ts, i + 4, w.rest, j) && j < |ts| && !IsLogic(ts[j].kind)
    ensures WhereIs(num, ts, i, w, j) ==> WhereMeaning(num, w) == LinksMeaning(num, CondMeaning(num, w.first), w.rest)
  {
    hide Reads;
    hide Each;
    hide LiteralOk;
    hide LinksOk;
    hide LinksMeaning;
    hide CondMeaning;
    ReadsFirst(ts, i, KW_WHERE, PrintCond(w.first) + Each(PrintLink, w.rest), j);
    ReadsTwo(ts, i + 1, PrintCond(w.first), Each(PrintLink, w.rest), j);
  }

  ghost predicate FilterIs(num: Numeric, ts: seq<Token>, i: nat, w: Option<WhereSyn>, j: nat) {
    Reads(ts, i, PrintFilter(w), j) && FilterOk(num, w) && j < |ts| && FilterEnds(w, ts[j].kind)
  }

  lemma FilterParts(num: Numeric, ts: seq<Token>, i: nat, w: Option<WhereSyn>, j: nat)
    ensures FilterIs(num, ts, i, w, j) <==>
      if w.Some? then WhereIs(num, ts, i, w.value, j) else i == j < |ts| && ts[i].kind != KW_WHERE
    ensures w.Some? && FilterIs(num, ts, i, w, j) ==>
      ts[i].kind == KW_WHERE && FilterMeaning(num, w) == WhereMeaning(num, w.value)
    ensures w.None? ==> FilterOk(num, w) && FilterMeaning(num, w) == NO_WHERE
    ensures FilterIs(num, ts, i, w, j) ==> FilterOk(num, w)
  {
    hide PrintWhere;
    hide WhereMeaning;
    hide WhereSynOk;
    if w.Some? {
      WhereParts(num, ts, i, w.value, j);
    }
  }

  // ---- INSERT's lists. ----

  ghost predicate NameIs(ts: seq<Token>, i: nat, n: NameItem, j: nat) {
    Reads(ts, i, PrintNameItem(n), j) && j < |ts| && (!n.comma ==> ts[j].kind != COMMA)
  }

  lemma NameParts(ts: seq<Token>, i: nat, n: NameItem, j: nat)
    ensures NameIs(ts, i, n, j) <==>
      && i + 1 < |ts| && ts[i].kind == IDENTIFIER && ts[i].text == n.name && j < |ts|
      && (n.comma <==> ts[i + 1].kind == COMMA) && j == if n.comma then i + 2 else i + 1
  {
    hide Reads;
    ReadsFirstText(ts, i, IDENTIFIER, n.name, PrintComma(n.comma), j);
    ReadsComma(ts, i + 1, n.comma, j);
  }

  lemma ReadsComma(ts: seq<Token>, i: nat, comma: bool, j: nat)
    ensures Reads(ts, i, PrintComma(comma), j) <==>
      if comma then i < |ts| && ts[i].kind == COMMA && j == i + 1 else i == j <= |ts|
  {
    if comma {
      ReadsOne(ts, i, K(COMMA), j);
    }
  }

  /** The next name of a closed list, or its end. */
  lemma NextName(ts: seq<Token>, i: nat, ns: seq<NameItem>, j: nat, c: seq<NameItem>, p: nat)
    requires Closed(ts, i, PrintNameItem, ns, j) && Along(c, ns) && ListIs(ts, i, PrintNameItem, c, p)
    ensures |c| <= |ns| && if |c| == |ns| then j == p + 1 && p < |ts| && ts[p].kind == RPAREN && c == ns
      else
        && NameIs(ts, p, ns[|c|], if ns[|c|].comma then p + 2 else p + 1) && Along(More(c, ns[|c|]), ns)
        && p < |ts| && ts[p].kind == IDENTIFIER
  {
    hide Along;
    AlongNext(c, ns);
    var n := |c|;
    hide Reads;
    hide ListIs;
    hide Closed;
    ClosedParts(ts, i, PrintNameItem, ns, j);
    NextItem(ts, i, PrintNameItem, ns, j - 1, n, p);
    if n < |ns| {
      var q := p + |PrintNameItem(ns[n])|;
      NextNameHead(ts, i, ns, j, n + 1, q);
      NameParts(ts, p, ns[n], q);
    }
  }

  lemma NextNameHead(ts: seq<Token>, i: nat, ns: seq<NameItem>, j: nat, n: nat, p: nat)
    requires Closed(ts, i, PrintNameItem, ns, j) && n <= |ns| && ListIs(ts, i, PrintNameItem, ns[..n], p)
    ensures p < |ts| && ts[p].kind != COMMA
  {
    hide Reads;
    hide ListIs;
    hide Closed;
    ClosedParts(ts, i, PrintNameItem, ns, j);
    NextItem(ts, i, PrintNameItem, ns, j - 1, n, p);
    if n < |ns| {
      ReadsAt(ts, p, PrintNameItem(ns[n]), p + |PrintNameItem(ns[n])|, 0);
    }
  }

  ghost predicate ValueIs(num: Numeric, ts: seq<Token>, i: nat, l: LitItem, j: nat) {
    Reads(ts, i, PrintLitItem(l), j) && LiteralOk(num, l.value) && j < |ts| && (!l.comma ==> ts[j].kind != COMMA)
  }

  lemma ValueParts(num: Numeric, ts: seq<Token>, i: nat, l: LitItem, j: nat)
    ensures ValueIs(num, ts, i, l, j) <==>
      && i + 1 < |ts| && LiteralIs(num, ts, i, l.value) && j < |ts|
      && (l.comma <==> ts[i + 1].kind == COMMA) && j == if l.comma then i + 2 else i + 1
  {
    hide Reads;
    hide LiteralSym;
    hide LiteralOk;
    ReadsTwo(ts, i, [LiteralSym(l.value)], PrintComma(l.comma), j);
    ReadsOne(ts, i, LiteralSym(l.value), i + 1);
    ReadsComma(ts, i + 1, l.comma, j);
  }

  lemma NextValue(num: Numeric, ts: seq<Token>, i: nat, ls: seq<LitItem>, j: nat, c: seq<LitItem>, p: nat)
    requires Closed(ts, i, PrintLitItem, ls, j) && LitsOk(num, ls) && Along(c, ls) && ListIs(ts, i, PrintLitItem, c, p)
    ensures |c| <= |ls| && if |c| == |ls| then j == p + 1 && p < |ts| && ts[p].kind == RPAREN && c == ls
      else
        && ValueIs(num, ts, p, ls[|c|], if ls[|c|].comma then p + 2 else p + 1) && Along(More(c, ls[|c|]), ls)
        && p < |ts| && ts[p].kind != RPAREN && ts[p].kind != END_OF_INPUT && ts[p].kind != SEMICOLON
  {
    hide Reads;
    hide ListIs;
    hide Closed;
    hide LiteralSym;
    hide LiteralOk;
    hide Along;
    AlongNext(c, ls);
    var n := |c|;
    ClosedParts(ts, i, PrintLitItem, ls, j);
    NextItem(ts, i, PrintLitItem, ls, j - 1, n, p);
    if n < |ls| {
      var q := p + |PrintLitItem(ls[n])|;
      ValueHead(num, ts, i, ls, j, n, p);
      ValueHead(num, ts, i, ls, j, n + 1, q);
    }
  }

  lemma ValueHead(num: Numeric, ts: seq<Token>, i: nat, ls: seq<LitItem>, j: nat, n: nat, p: nat)
    requires Closed(ts, i, PrintLitItem, ls, j) && LitsOk(num, ls) && n <= |ls| &&
      ListIs(ts, i, PrintLitItem, ls[..n], p)
    ensures p < |ts| && ts[p].kind != COMMA
    ensures n < |ls| ==> ts[p].kind != RPAREN && ts[p].kind != END_OF_INPUT && ts[p].kind != SEMICOLON
  {
    hide Reads;
    hide ListIs;
    hide Closed;
    hide LiteralSym;
    hide LiteralOk;
    ClosedParts(ts, i, PrintLitItem, ls, j);
    NextItem(ts, i, PrintLitItem, ls, j - 1, n, p);
    if n < |ls| {
      ReadsAt(ts, p, PrintLitItem(ls[n]), p + |PrintLitItem(ls[n])|, 0);
      LiteralKind(num, ts, p, ls[n].value);
    }
  }

  lemma NamesMore(ns: seq<NameItem>, n: NameItem)
    ensures NamesOf([]) == [] && NamesOf(ns + [n]) == NamesOf(ns) + [n.name]
  {
  }

  lemma NoValues(num: Numeric)
    ensures LitsOk(num, []) && ValuesOf(num, []) == [] && AllCanonical([])
  {
  }

  lemma ValuesMore(num: Numeric, ls: seq<LitItem>, l: LitItem)
    requires LitsOk(num, ls) && LiteralOk(num, l.value)
    ensures LitsOk(num, ls + [l]) && ValuesOf(num, ls + [l]) == ValuesOf(num, ls) + [LiteralValue(num, l.value)]
    ensures AllCanonical(ValuesOf(num, ls)) && Canonical(LiteralValue(num, l.value)) ==>
      AllCanonical(ValuesOf(num, ls + [l]))
  {
    hide LiteralOk;
    hide LiteralValue;
    hide Canonical;
  }

  // ---- SELECT's columns and UPDATE's assignments. ----

  lemma MoreNameParts(ts: seq<Token>, i: nat, name: Bytes, j: nat)
    ensures Reads(ts, i, PrintMoreName(name), j) <==>
      j == i + 2 <= |ts| && ts[i].kind == COMMA && ts[i + 1].kind == IDENTIFIER && ts[i + 1].text == name
  {
    hide Reads;
    ReadsPair(ts, i, K(COMMA), T(IDENTIFIER, name), j);
  }

  lemma NextMoreName(ts: seq<Token>, i: nat, ns: seq<Bytes>, j: nat, c: seq<Bytes>, p: nat)
    requires ListIs(ts, i, PrintMoreName, ns, j) && Along(c, ns) && ListIs(ts, i, PrintMoreName, c, p)
    ensures |c| <= |ns| && if |c| == |ns| then p == j && c == ns
      else
        && p + 1 < |ts| && ts[p].kind == COMMA && ts[p + 1].kind == IDENTIFIER && ts[p + 1].text == ns[|c|]
        && Along(More(c, ns[|c|]), ns)
  {
    hide Along;
    AlongNext(c, ns);
    var n := |c|;
    hide Reads;
    hide ListIs;
    NextItem(ts, i, PrintMoreName, ns, j, n, p);
    if n < |ns| {
      MoreNameParts(ts, p, ns[n], p + 2);
    }
  }

  ghost predicate ColumnsIs(ts: seq<Token>, i: nat, names: seq<Bytes>, j: nat) {
    names != [] && Reads(ts, i, PrintColumns(false, names), j) && j < |ts| && ts[j].kind != COMMA
  }

  lemma ColumnsParts(ts: seq<Token>, i: nat, names: seq<Bytes>, j: nat)
    ensures ColumnsIs(ts, i, names, j) <==>
      && names != [] && i < |ts| && ts[i].kind == IDENTIFIER && ts[i].text == names[0]
      && ListIs(ts, i + 1, PrintMoreName, names[1..], j) && j < |ts| && ts[j].kind != COMMA
    ensures names != [] ==> names == [names[0]] + names[1..]
  {
    hide Reads;
    hide Each;
    if names != [] {
      ReadsFirstText(ts, i, IDENTIFIER, names[0], Each(PrintMoreName, names[1..]), j);
    }
  }

  ghost predicate SetIs(num: Numeric, ts: seq<Token>, i: nat, s: SetSyn, j: nat) {
    Reads(ts, i, PrintSet(s), j) && LiteralOk(num, s.value)
  }

  lemma SetParts(num: Numeric, ts: seq<Token>, i: nat, s: SetSyn, j: nat)
    ensures SetIs(num, ts, i, s, j) <==>
      && j == i + 3 <= |ts| && ts[i].kind == IDENTIFIER && ts[i].text == s.column && ts[i + 1].kind == OP_EQ
      && LiteralIs(num, ts, i + 2, s.value)
  {
    hide LiteralSym;
    hide LiteralOk;
    hide Reads;
    ReadsTriple(ts, i, T(IDENTIFIER, s.column), K(OP_EQ), LiteralSym(s.value), j);
  }

  ghost predicate MoreSetsIs(num: Numeric, ts: seq<Token>, i: nat, ss: seq<SetSyn>, j: nat) {
    ListIs(ts, i, PrintMoreSet, ss, j) && SetsOk(num, ss)
  }

  lemma NoSets(num: Numeric, ts: seq<Token>, i: nat)
    requires i <= |ts|
    ensures MoreSetsIs(num, ts, i, [], i) && SetsOk(num, []) && SetsMeaning(num, []) == [] && ValuesOk([])
  {
    hide ListIs;
    NoItems(ts, i, PrintMoreSet);
  }

  lemma OneMoreSet(num: Numeric, ts: seq<Token>, i: nat, ss: seq<SetSyn>, j: nat, s: SetSyn, k: nat)
    requires MoreSetsIs(num, ts, i, ss, j) && j < |ts| && ts[j].kind == COMMA && SetIs(num, ts, j + 1, s, k)
    ensures MoreSetsIs(num, ts, i, More(ss, s), k) && SetsOk(num, ss) && SetsOk(num, More(ss, s)) &&
      SetsMeaning(num, More(ss, s)) == SetsMeaning(num, ss) + [SetMeaning(num, s)]
    ensures ValuesOk(SetsMeaning(num, ss)) && Canonical(SetMeaning(num, s).value) ==>
      ValuesOk(SetsMeaning(num, More(ss, s)))
  {
    hide ListIs;
    hide LiteralOk;
    hide Reads;
    hide PrintSet;
    hide SetMeaning;
    hide Canonical;
    ReadsFirst(ts, j, COMMA, PrintSet(s), k);
    OneMore(ts, i, PrintMoreSet, ss, j, s, k);
  }

  lemma NextSet(num: Numeric, ts: seq<Token>, i: nat, ss: seq<SetSyn>, j: nat, c: seq<SetSyn>, p: nat)
    requires MoreSetsIs(num, ts, i, ss, j) && Along(c, ss) && MoreSetsIs(num, ts, i, c, p)
    ensures |c| <= |ss| && if |c| == |ss| then p == j && c == ss
      else p < |ts| && ts[p].kind == COMMA && SetIs(num, ts, p + 1, ss[|c|], p + 4) && Along(More(c, ss[|c|]), ss)
  {
    hide Along;
    AlongNext(c, ss);
    var n := |c|;
    hide ListIs;
    hide LiteralOk;
    hide Reads;
    NextItem(ts, i, PrintMoreSet, ss, j, n, p);
    if n < |ss| {
      ReadsFirst(ts, p, COMMA, PrintSet(ss[n]), p + 4);
    }
  }

  ghost predicate SetsIs(num: Numeric, ts: seq<Token>, i: nat, ss: seq<SetSyn>, j: nat) {
    ss != [] && Reads(ts, i, PrintSets(ss), j) && SetsOk(num, ss) && j < |ts| && ts[j].kind != COMMA
  }

  lemma SetsParts(num: Numeric, ts: seq<Token>, i: nat, ss: seq<SetSyn>, j: nat)
    ensures SetsIs(num, ts, i, ss, j) <==>
      ss != [] && SetIs(num, ts, i, ss[0], i + 3) && MoreSetsIs(num, ts, i + 3, ss[1..], j) && j < |ts| &&
        ts[j].kind != COMMA
    ensures ss != [] ==> ss == [ss[0]] + ss[1..]
    ensures SetsIs(num, ts, i, ss, j) ==>
      SetsOk(num, ss) && SetsMeaning(num, ss) == [SetMeaning(num, ss[0])] + SetsMeaning(num, ss[1..])
  {
    hide Reads;
    hide Each;
    hide LiteralOk;
    hide SetsOk;
    hide SetsMeaning;
    hide SetMeaning;
    hide PrintSet;
    if ss != [] {
      assert |PrintSet(ss[0])| == 3 by { SetLength(ss[0]); }
      ReadsTwo(ts, i, PrintSet(ss[0]), Each(PrintMoreSet, ss[1..]), j);
      SetsOkParts(num, ss);
      SetsCons(num, ss);
    }
  }

  lemma SetLength(s: SetSyn)
    ensures |PrintSet(s)| == 3
  {
  }

  lemma SetsOkParts(num: Numeric, ss: seq<SetSyn>)
    requires ss != []
    ensures SetsOk(num, ss) <==> LiteralOk(num, ss[0].value) && SetsOk(num, ss[1..])
  {
    hide LiteralOk;
    if LiteralOk(num, ss[0].value) && SetsOk(num, ss[1..]) {
      forall i | 0 <= i < |ss| ensures LiteralOk(num, ss[i].value) {
        assert i > 0 ==> ss[i] == ss[1..][i - 1];
      }
    }
  }

  lemma SetsCons(num: Numeric, ss: seq<SetSyn>)
    requires ss != []
    ensures SetsOk(num, ss) ==>
      SetsOk(num, ss[1..]) && SetsMeaning(num, ss) == [SetMeaning(num, ss[0])] + SetsMeaning(num, ss[1..])
  {
    hide LiteralOk;
    hide SetMeaning;
  }

  lemma ValuesOkCons(a: Assignment, sets: seq<Assignment>)
    requires Canonical(a.value) && ValuesOk(sets)
    ensures ValuesOk([a] + sets)
  {
    hide Canonical;
  }

  // ---- CREATE TABLE's items. ----

  ghost predicate TypeIs(ts: seq<Token>, i: nat, t: TypeSyn, j: nat) {
    Reads(ts, i, PrintType(t), j) && TypeSynOk(t) && j < |ts| && TypeEnds(t, ts[j].kind)
  }

  lemma TypeParts(ts: seq<Token>, i: nat, t: TypeSyn, j: nat)
    ensures TypeIs(ts, i, t, j) <==>
      && TypeSynOk(t) && i + 1 < |ts| && ts[i].kind == t.kind && j < |ts|
      && if t.size.None? then j == i + 1 && (TypeOf(t.kind) == Some(TEXT) ==> ts[j].kind != LPAREN)
         else
           && j == i + 4 && ts[i + 1].kind == LPAREN && ts[i + 2].kind == t.size.value.kind
           && ts[i + 2].text == t.size.value.text && ts[i + 3].kind == RPAREN
  {
    hide TypeOf;
    hide Reads;
    if t.size.None? {
      assert PrintType(t) == [K(t.kind)];
      ReadsKind(ts, i, t.kind, j);
    } else if TypeSynOk(t) {
      var s := t.size.value;
      ReadsFirst(ts, i, t.kind, [K(LPAREN), s, K(RPAREN)], j);
      ReadsTriple(ts, i + 1, K(LPAREN), s, K(RPAREN), j);
    }
  }

  predicate IsConstraint(k: Kind) { k == KW_PRIMARY || k == KW_NOT }

  lemma ConstraintParts(ts: seq<Token>, i: nat, c: Constraint, j: nat)
    ensures Reads(ts, i, PrintConstraint(c), j) <==>
      && j == i + 2 <= |ts|
      && if c == PrimaryKey then ts[i].kind == KW_PRIMARY && ts[i + 1].kind == KW_KEY
         else ts[i].kind == KW_NOT && ts[i + 1].kind == KW_NULL
  {
    hide Reads;
    if c == PrimaryKey {
      ReadsPair(ts, i, K(KW_PRIMARY), K(KW_KEY), j);
    } else {
      ReadsPair(ts, i, K(KW_NOT), K(KW_NULL), j);
    }
  }

  lemma NextConstraint(ts: seq<Token>, i: nat, cs: seq<Constraint>, j: nat, c: seq<Constraint>, p: nat)
    requires ListIs(ts, i, PrintConstraint, cs, j) && Along(c, cs) && ListIs(ts, i, PrintConstraint, c, p)
    ensures |c| <= |cs| && if |c| == |cs| then p == j && c == cs
      else
        && Reads(ts, p, PrintConstraint(cs[|c|]), p + 2) && p < |ts| && IsConstraint(ts[p].kind)
        && Along(More(c, cs[|c|]), cs)
  {
    hide Along;
    AlongNext(c, cs);
    var n := |c|;
    hide Reads;
    hide ListIs;
    NextItem(ts, i, PrintConstraint, cs, j, n, p);
    if n < |cs| {
      ConstraintParts(ts, p, cs[n], p + 2);
    }
  }

  /** A column definition without its comma. */
  ghost predicate ColumnIs(ts: seq<Token>, i: nat, name: Bytes, ty: TypeSyn, cs: seq<Constraint>, j: nat) {
    Reads(ts, i, PrintColumn(name, ty, cs), j) && TypeSynOk(ty) && j < |ts| && ColumnEnds(ty, cs, ts[j].kind)
  }

  lemma ColumnParts(ts: seq<Token>, i: nat, name: Bytes, ty: TypeSyn, cs: seq<Constraint>, j: nat)
    ensures ColumnIs(ts, i, name, ty, cs, j) <==>
      && i < |ts| && ts[i].kind == IDENTIFIER && ts[i].text == name && TypeIs(ts, i + 1, ty, i + 1 + |PrintType(ty)|)
      && ListIs(ts, i + 1 + |PrintType(ty)|, PrintConstraint, cs, j) && j < |ts| && !IsConstraint(ts[j].kind)
  {
    hide Reads;
    hide Each;
    hide PrintType;
    hide TypeOf;
    hide TypeSynOk;
    var m := i + 1 + |PrintType(ty)|;
    ReadsFirstText(ts, i, IDENTIFIER, name, PrintType(ty) + Each(PrintConstraint, cs), j);
    ReadsTwo(ts, i + 1, PrintType(ty), Each(PrintConstraint, cs), j);
    if ListIs(ts, m, PrintConstraint, cs, j) {
      ConstraintsHead(ts, m, cs, j);
    }
  }

  lemma ConstraintsHead(ts: seq<Token>, i: nat, cs: seq<Constraint>, j: nat)
    requires ListIs(ts, i, PrintConstraint, cs, j)
    ensures if cs == [] then i == j else i < |ts| && IsConstraint(ts[i].kind)
  {
    hide Reads;
    ReadsLength(ts, i, Each(PrintConstraint, cs), j);
    NoItems(ts, i, PrintConstraint);
    AlongNone(cs);
    NextConstraint(ts, i, cs, j, [], i);
  }

  ghost predicate ItemIs(ts: seq<Token>, i: nat, it: ItemSyn, j: nat) {
    Reads(ts, i, PrintItem(it), j) && ItemSynOk(it) && j < |ts| && ItemEnds(it, ts[j].kind)
  }

  /** An item is its definition and then its comma. */
  lemma ColumnItemParts(ts: seq<Token>, i: nat, it: ItemSyn, j: nat)
    requires it.ColumnItem?
    ensures ItemIs(ts, i, it, j) <==>
      var m := i + |PrintColumn(it.name, it.ty, it.constraints)|;
      ColumnIs(ts, i, it.name, it.ty, it.constraints, m) && j < |ts| && (it.comma <==> ts[m].kind == COMMA) &&
        j == if it.comma then m + 1 else m
  {
    hide Reads;
    hide PrintColumn;
    hide TypeSynOk;
    hide TypeOf;
    var p := PrintColumn(it.name, it.ty, it.constraints);
    ReadsTwo(ts, i, p, PrintComma(it.comma), j);
    ReadsComma(ts, i + |p|, it.comma, j);
  }

  lemma KeyItemParts(ts: seq<Token>, i: nat, it: ItemSyn, j: nat)
    requires it.KeyItem?
    ensures ItemIs(ts, i, it, j) <==>
      KeyIs(ts, i, it.name) && j < |ts| && i + 5 < |ts| && (it.comma <==> ts[i + 5].kind == COMMA) &&
        j == if it.comma then i + 6 else i + 5
  {
    hide Reads;
    hide KeyIs;
    ReadsTwo(ts, i, PrintKey(it.name), PrintComma(it.comma), j);
    ReadsComma(ts, i + 5, it.comma, j);
    KeyReads(ts, i, it.name);
  }

  ghost predicate NamedIs(ts: seq<Token>, i: nat, name: Bytes) {
    i + 3 <= |ts| && ts[i].kind == LPAREN && ts[i + 1].kind == IDENTIFIER && ts[i + 1].text == name &&
      ts[i + 2].kind == RPAREN
  }

  ghost predicate KeyIs(ts: seq<Token>, i: nat, name: Bytes) {
    i + 2 <= |ts| && ts[i].kind == KW_PRIMARY && ts[i + 1].kind == KW_KEY && NamedIs(ts, i + 2, name)
  }

  lemma KeyReads(ts: seq<Token>, i: nat, name: Bytes)
    ensures Reads(ts, i, PrintKey(name), i + 5) <==> KeyIs(ts, i, name)
  {
    hide Reads;
    assert PrintKey(name) == [K(KW_PRIMARY), K(KW_KEY)] + [K(LPAREN), T(IDENTIFIER, name), K(RPAREN)];
    ReadsTwo(ts, i, [K(KW_PRIMARY), K(KW_KEY)], [K(LPAREN), T(IDENTIFIER, name), K(RPAREN)], i + 5);
    ReadsPair(ts, i, K(KW_PRIMARY), K(KW_KEY), i + 2);
    ReadsTriple(ts, i + 2, K(LPAREN), T(IDENTIFIER, name), K(RPAREN), i + 5);
  }

  lemma ItemHead(ts: seq<Token>, i: nat, it: ItemSyn, j: nat)
    requires Reads(ts, i, PrintItem(it), j)
    ensures i < |ts| && ts[i].kind == FirstKind(it)
  {
    hide Reads;
    hide PrintType;
    hide Each;
    ReadsAt(ts, i, PrintItem(it), j, 0);
  }

  /** The next item of the list, or its end. */
  lemma NextDef(ts: seq<Token>, i: nat, items: seq<ItemSyn>, j: nat, c: seq<ItemSyn>, p: nat)
    requires Closed(ts, i, PrintItem, items, j) && ItemsOk(items) && Along(c, items) && ListIs(ts, i, PrintItem, c, p)
    ensures |c| <= |items| && if |c| == |items| then j == p + 1 && p < |ts| && ts[p].kind == RPAREN && c == items
      else
        && ItemIs(ts, p, items[|c|], p + |PrintItem(items[|c|])|) && Along(More(c, items[|c|]), items)
        && p < |ts| && (ts[p].kind == KW_PRIMARY || ts[p].kind == IDENTIFIER)
  {
    hide *;
    AlongNext(c, items);
    var n := |c|;
    NextDefHead(ts, i, items, j, n, p);
    FirstKinds();
    ClosedParts(ts, i, PrintItem, items, j);
    NextItem(ts, i, PrintItem, items, j - 1, n, p);
    if n < |items| {
      var q := p + |PrintItem(items[n])|;
      NextDefHead(ts, i, items, j, n + 1, q);
      EndsBeforeParen(items[n]);
      ItemHolds(ts, p, items, n, q);
    }
  }

  lemma FirstKinds()
    ensures forall it :: FirstKind(it) == KW_PRIMARY || FirstKind(it) == IDENTIFIER
  {
  }

  lemma ItemHolds(ts: seq<Token>, i: nat, items: seq<ItemSyn>, n: nat, j: nat)
    requires ItemsOk(items) && n < |items| && Reads(ts, i, PrintItem(items[n]), j) && j < |ts|
    requires ts[j].kind == if n + 1 < |items| then FirstKind(items[n + 1]) else RPAREN
    ensures ItemIs(ts, i, items[n], j)
  {
    hide Reads;
    hide PrintItem;
    hide ItemEnds;
    hide ItemSynOk;
    hide FirstKind;
    EndsBeforeParen(items[n]);
  }

  lemma EndsBeforeParen(it: ItemSyn)
    ensures ItemEnds(it, RPAREN)
  {
    hide TypeOf;
  }

  lemma NextDefHead(ts: seq<Token>, i: nat, items: seq<ItemSyn>, j: nat, n: nat, p: nat)
    requires Closed(ts, i, PrintItem, items, j) && n <= |items| && ListIs(ts, i, PrintItem, items[..n], p)
    ensures p < |ts| && ts[p].kind == if n < |items| then FirstKind(items[n]) else RPAREN
  {
    hide Reads;
    hide ListIs;
    hide Closed;
    hide PrintItem;
    ClosedParts(ts, i, PrintItem, items, j);
    NextItem(ts, i, PrintItem, items, j - 1, n, p);
    if n < |items| {
      ItemHead(ts, p, items[n], p + |PrintItem(items[n])|);
    }
  }

  // ---- SELECT's tail. ----

  ghost predicate OrderIs(ts: seq<Token>, i: nat, o: Option<OrderSyn>, j: nat) {
    Reads(ts, i, PrintOrder(o), j) && j < |ts| && OrderEnds(o, ts[j].kind)
  }

  lemma OrderParts(ts: seq<Token>, i: nat, o: Option<OrderSyn>, j: nat)
    ensures OrderIs(ts, i, o, j) <==>
      if o.None? then i == j < |ts| && ts[i].kind != KW_ORDER
      else
        && i + 3 < |ts| && ts[i].kind == KW_ORDER && ts[i + 1].kind == KW_BY && ts[i + 2].kind == IDENTIFIER &&
          ts[i + 2].text == o.value.column
        && DirectionIs(ts, i + 3, o.value.direction, j)
  {
    hide Reads;
    if o.None? {
      if i <= |ts| {
        ReadsNone(ts, i);
      }
      if Reads(ts, i, [], j) {
        ReadsLength(ts, i, [], j);
      }
    } else {
      var d := PrintDirection(o.value.direction);
      ReadsTwo(ts, i, [K(KW_ORDER), K(KW_BY), T(IDENTIFIER, o.value.column)], d, j);
      ReadsTriple(ts, i, K(KW_ORDER), K(KW_BY), T(IDENTIFIER, o.value.column), i + 3);
      DirectionReads(ts, i + 3, o.value.direction, j);
    }
  }

  ghost predicate DirectionIs(ts: seq<Token>, i: nat, d: Option<bool>, j: nat) {
    && i < |ts| && j < |ts|
    && if d.None? then i == j && ts[i].kind != KW_DESC && ts[i].kind != KW_ASC
       else j == i + 1 && ts[i].kind == if d.value then KW_DESC else KW_ASC
  }

  lemma DirectionReads(ts: seq<Token>, i: nat, d: Option<bool>, j: nat)
    ensures DirectionIs(ts, i, d, j) <==>
      Reads(ts, i, PrintDirection(d), j) && j < |ts| && (d.None? ==> ts[j].kind != KW_DESC && ts[j].kind != KW_ASC)
  {
    if d.Some? {
      ReadsKind(ts, i, if d.value then KW_DESC else KW_ASC, j);
    }
  }

  ghost predicate LimitIs(num: Numeric, ts: seq<Token>, i: nat, l: Option<Sym>, j: nat) {
    Reads(ts, i, PrintLimit(l), j) && LimitOk(num, l) && j < |ts| && LimitEnds(l, ts[j].kind)
  }

  lemma LimitParts(num: Numeric, ts: seq<Token>, i: nat, l: Option<Sym>, j: nat)
    ensures LimitIs(num, ts, i, l, j) <==>
      if l.None? then i == j < |ts| && ts[i].kind != KW_LIMIT
      else
        && LimitOk(num, l) && j == i + 2 < |ts| && ts[i].kind == KW_LIMIT && ts[i + 1].kind == l.value.kind &&
          ts[i + 1].text == l.value.text
  {
    if l.Some? && LimitOk(num, l) {
      ReadsPair(ts, i, K(KW_LIMIT), l.value, j);
    }
  }

  // ---- Statements. ----

  /** The tokens from i to j are a statement of the grammar, not continued at j. */
  ghost predicate StatementIs(num: Numeric, ts: seq<Token>, i: nat, c: Syntax, j: nat) {
    Reads(ts, i, Print(c), j) && SyntaxOk(num, c) && j < |ts| && Ends(c, ts[j].kind)
  }

  lemma CreateParts(num: Numeric, ts: seq<Token>, i: nat, table: Bytes, items: seq<ItemSyn>, j: nat)
    ensures StatementIs(num, ts, i, CreateSyn(table, items), j) <==>
      && i + 4 <= |ts| && ts[i].kind == KW_CREATE && ts[i + 1].kind == KW_TABLE && ts[i + 2].kind == IDENTIFIER &&
        ts[i + 2].text == table
      && ts[i + 3].kind == LPAREN && Closed(ts, i + 4, PrintItem, items, j) && ItemsOk(items) && j < |ts|
  {
    hide Reads;
    hide Each;
    hide ItemsOk;
    var rest := Each(PrintItem, items) + [K(RPAREN)];
    assert Print(CreateSyn(table, items)) ==
      [K(KW_CREATE)] + ([K(KW_TABLE)] + ([T(IDENTIFIER, table)] + ([K(LPAREN)] + rest)));
    ReadsFirst(ts, i, KW_CREATE, [K(KW_TABLE)] + ([T(IDENTIFIER, table)] + ([K(LPAREN)] + rest)), j);
    ReadsFirst(ts, i + 1, KW_TABLE, [T(IDENTIFIER, table)] + ([K(LPAREN)] + rest), j);
    ReadsFirstText(ts, i + 2, IDENTIFIER, table, [K(LPAREN)] + rest, j);
    ReadsFirst(ts, i + 3, LPAREN, rest, j);
  }

  lemma DropParts(num: Numeric, ts: seq<Token>, i: nat, table: Bytes, ifExists: bool, j: nat)
    ensures StatementIs(num, ts, i, DropSyn(table, ifExists), j) <==>
      var p := if ifExists then i + 4 else i + 2;
      && j == p + 1 < |ts| && ts[i].kind == KW_DROP && ts[i + 1].kind == KW_TABLE && ts[p].kind == IDENTIFIER &&
        ts[p].text == table
      && (ifExists ==> ts[i + 2].kind == KW_IF && ts[i + 3].kind == KW_EXISTS)
  {
    hide Reads;
    if ifExists {
      assert [K(KW_DROP), K(KW_TABLE), K(KW_IF), K(KW_EXISTS), T(IDENTIFIER, table)] ==
        [K(KW_DROP), K(KW_TABLE)] + [K(KW_IF), K(KW_EXISTS), T(IDENTIFIER, table)];
      ReadsTwo(ts, i, [K(KW_DROP), K(KW_TABLE)], [K(KW_IF), K(KW_EXISTS), T(IDENTIFIER, table)], j);
      ReadsPair(ts, i, K(KW_DROP), K(KW_TABLE), i + 2);
      ReadsTriple(ts, i + 2, K(KW_IF), K(KW_EXISTS), T(IDENTIFIER, table), j);
    } else {
      ReadsTriple(ts, i, K(KW_DROP), K(KW_TABLE), T(IDENTIFIER, table), j);
    }
  }

  ghost predicate NamesIs(ts: seq<Token>, i: nat, ns: Option<seq<NameItem>>, j: nat) {
    j < |ts| && ts[j].kind == KW_VALUES && Reads(ts, i, PrintNames(ns), j)
  }

  lemma NamesParts(ts: seq<Token>, i: nat, ns: Option<seq<NameItem>>, j: nat)
    ensures NamesIs(ts, i, ns, j) <==>
      && j < |ts| && ts[j].kind == KW_VALUES
      && if ns.None? then i == j else i < |ts| && ts[i].kind == LPAREN && Closed(ts, i + 1, PrintNameItem, ns.value, j)
  {
    hide Each;
    if ns.Some? {
      hide Reads;
      ReadsFirst(ts, i, LPAREN, Each(PrintNameItem, ns.value) + [K(RPAREN)], j);
    }
  }

  lemma InsertParts(num: Numeric, ts: seq<Token>, i: nat, table: Bytes, names: Option<seq<NameItem>>,
      values: seq<LitItem>, j: nat)
    ensures StatementIs(num, ts, i, InsertSyn(table, names, values), j) <==>
      var p := i + 3 + |PrintNames(names)|;
      && i + 3 <= |ts| && ts[i].kind == KW_INSERT && ts[i + 1].kind == KW_INTO && ts[i + 2].kind == IDENTIFIER &&
        ts[i + 2].text == table
      && NamesIs(ts, i + 3, names, p) && p + 1 < |ts| && ts[p + 1].kind == LPAREN
      && Closed(ts, p + 2, PrintLitItem, values, j) && LitsOk(num, values) && j < |ts|
  {
    hide Reads;
    hide Each;
    hide LitsOk;
    hide PrintNames;
    var p := i + 3 + |PrintNames(names)|;
    var vs := Each(PrintLitItem, values) + [K(RPAREN)];
    var rest := PrintNames(names) + ([K(KW_VALUES), K(LPAREN)] + vs);
    InsertHead(ts, i, table, rest, j);
    ReadsTwo(ts, i + 3, PrintNames(names), [K(KW_VALUES), K(LPAREN)] + vs, j);
    ReadsTwo(ts, p, [K(KW_VALUES), K(LPAREN)], vs, j);
    ReadsPair(ts, p, K(KW_VALUES), K(LPAREN), p + 2);
  }

  lemma InsertHead(ts: seq<Token>, i: nat, table: Bytes, rest: seq<Sym>, j: nat)
    ensures Reads(ts, i, [K(KW_INSERT), K(KW_INTO), T(IDENTIFIER, table)] + rest, j) <==>
      && i + 3 <= |ts| && ts[i].kind == KW_INSERT && ts[i + 1].kind == KW_INTO && ts[i + 2].kind == IDENTIFIER &&
        ts[i + 2].text == table
      && Reads(ts, i + 3, rest, j)
  {
    hide Reads;
    ReadsTwo(ts, i, [K(KW_INSERT), K(KW_INTO), T(IDENTIFIER, table)], rest, j);
    ReadsTriple(ts, i, K(KW_INSERT), K(KW_INTO), T(IDENTIFIER, table), i + 3);
  }

  lemma UpdateParts(num: Numeric, ts: seq<Token>, i: nat, table: Bytes, sets: seq<SetSyn>, filter: Option<WhereSyn>,
      j: nat)
    ensures StatementIs(num, ts, i, UpdateSyn(table, sets, filter), j) <==>
      && i + 3 <= |ts| && ts[i].kind == KW_UPDATE && ts[i + 1].kind == IDENTIFIER && ts[i + 1].text == table &&
        ts[i + 2].kind == KW_SET
      && SetsIs(num, ts, i + 3, sets, i + 3 + |PrintSets(sets)|) &&
        FilterIs(num, ts, i + 3 + |PrintSets(sets)|, filter, j)
  {
    hide Reads;
    hide PrintSets;
    hide PrintFilter;
    hide SetsOk;
    hide FilterOk;
    hide FilterEnds;
    var p := i + 3 + |PrintSets(sets)|;
    UpdateHead(ts, i, table, PrintSets(sets) + PrintFilter(filter), j);
    ReadsTwo(ts, i + 3, PrintSets(sets), PrintFilter(filter), j);
    FilterHeadKind(ts, p, filter, j);
  }

  lemma UpdateHead(ts: seq<Token>, i: nat, table: Bytes, rest: seq<Sym>, j: nat)
    ensures Reads(ts, i, [K(KW_UPDATE), T(IDENTIFIER, table), K(KW_SET)] + rest, j) <==>
      && i + 3 <= |ts| && ts[i].kind == KW_UPDATE && ts[i + 1].kind == IDENTIFIER && ts[i + 1].text == table &&
        ts[i + 2].kind == KW_SET
      && Reads(ts, i + 3, rest, j)
  {
    hide Reads;
    ReadsTwo(ts, i, [K(KW_UPDATE), T(IDENTIFIER, table), K(KW_SET)], rest, j);
    ReadsTriple(ts, i, K(KW_UPDATE), T(IDENTIFIER, table), K(KW_SET), i + 3);
  }

  lemma FilterHeadKind(ts: seq<Token>, i: nat, w: Option<WhereSyn>, j: nat)
    ensures Reads(ts, i, PrintFilter(w), j) && j < |ts| && FilterEnds(w, ts[j].kind) ==>
      i < |ts| && (ts[i].kind != COMMA <==> (w.None? ==> ts[j].kind != COMMA))
  {
    hide Reads;
    hide PrintFilter;
    if Reads(ts, i, PrintFilter(w), j) {
      FilterHead(ts, i, w, j);
    }
  }

  lemma FilterHead(ts: seq<Token>, i: nat, w: Option<WhereSyn>, j: nat)
    requires Reads(ts, i, PrintFilter(w), j)
    ensures if w.None? then i == j else i < |ts| && ts[i].kind == KW_WHERE
  {
    hide Reads;
    hide Each;
    if w.None? {
      ReadsLength(ts, i, [], j);
    } else {
      ReadsAt(ts, i, PrintWhere(w.value), j, 0);
    }
  }

  lemma DeleteParts(num: Numeric, ts: seq<Token>, i: nat, table: Bytes, filter: Option<WhereSyn>, j: nat)
    ensures StatementIs(num, ts, i, DeleteSyn(table, filter), j) <==>
      && i + 3 <= |ts| && ts[i].kind == KW_DELETE && ts[i + 1].kind == KW_FROM && ts[i + 2].kind == IDENTIFIER &&
        ts[i + 2].text == table
      && FilterIs(num, ts, i + 3, filter, j)
  {
    hide Reads;
    hide PrintFilter;
    hide FilterOk;
    ReadsTwo(ts, i, [K(KW_DELETE), K(KW_FROM), T(IDENTIFIER, table)], PrintFilter(filter), j);
    ReadsTriple(ts, i, K(KW_DELETE), K(KW_FROM), T(IDENTIFIER, table), i + 3);
  }

  lemma ShortParts(num: Numeric, ts: seq<Token>, i: nat, table: Bytes, j: nat)
    ensures StatementIs(num, ts, i, ShowSyn, j) <==>
      j == i + 2 < |ts| && ts[i].kind == KW_SHOW && ts[i + 1].kind == KW_TABLES
    ensures StatementIs(num, ts, i, DescribeSyn(table), j) <==>
      j == i + 2 < |ts| && ts[i].kind == KW_DESCRIBE && ts[i + 1].kind == IDENTIFIER && ts[i + 1].text == table
  {
    hide Reads;
    ReadsPair(ts, i, K(KW_SHOW), K(KW_TABLES), j);
    ReadsPair(ts, i, K(KW_DESCRIBE), T(IDENTIFIER, table), j);
  }

  // ---- SELECT. ----

  ghost predicate SelectListIs(ts: seq<Token>, i: nat, all: bool, names: seq<Bytes>, j: nat) {
    j < |ts| && ts[j].kind == KW_FROM && (all <==> names == []) && Reads(ts, i, PrintColumns(all, names), j)
  }

  lemma SelectListParts(ts: seq<Token>, i: nat, all: bool, names: seq<Bytes>, j: nat)
    ensures SelectListIs(ts, i, all, names, j) <==>
      && j < |ts| && ts[j].kind == KW_FROM && (all <==> names == [])
      && if all then j == i + 1 && ts[i].kind == STAR else ColumnsIs(ts, i, names, j)
    ensures SelectListIs(ts, i, all, names, j) && !all ==> ts[i].kind == IDENTIFIER
  {
    hide Reads;
    hide Each;
    if all {
      ReadsKind(ts, i, STAR, j);
    } else {
      ColumnsParts(ts, i, names, j);
    }
  }

  /** WHERE, ORDER BY and LIMIT, each optional. */
  ghost predicate TailIs(num: Numeric, ts: seq<Token>, i: nat, c: Syntax, j: nat)
    requires c.SelectSyn?
  {
    && Reads(ts, i, PrintFilter(c.filter) + (PrintOrder(c.order) + PrintLimit(c.limit)), j) && j < |ts|
    && FilterOk(num, c.filter) && LimitOk(num, c.limit) && TailEnds(c.filter, c.order, c.limit, ts[j].kind)
  }

  lemma TailParts(num: Numeric, ts: seq<Token>, i: nat, c: Syntax, j: nat)
    requires c.SelectSyn?
    ensures var p := i + |PrintFilter(c.filter)|; var q := p + |PrintOrder(c.order)|;
      TailIs(num, ts, i, c, j) <==>
        FilterIs(num, ts, i, c.filter, p) && OrderIs(ts, p, c.order, q) && LimitIs(num, ts, q, c.limit, j)
  {
    hide Reads;
    hide PrintFilter;
    hide PrintOrder;
    hide PrintLimit;
    hide FilterOk;
    hide LimitOk;
    hide OrderEnds;
    hide FilterEnds;
    var p := i + |PrintFilter(c.filter)|;
    var q := p + |PrintOrder(c.order)|;
    ReadsTwo(ts, i, PrintFilter(c.filter), PrintOrder(c.order) + PrintLimit(c.limit), j);
    ReadsTwo(ts, p, PrintOrder(c.order), PrintLimit(c.limit), j);
    if Reads(ts, p, PrintOrder(c.order), q) && Reads(ts, q, PrintLimit(c.limit), j) && j < |ts| {
      TailHeads(ts, p, c.order, q, c.limit, j);
      NotContinued(c.filter, c.order);
    }
  }

  lemma NotContinued(w: Option<WhereSyn>, o: Option<OrderSyn>)
    ensures FilterEnds(w, KW_ORDER) && FilterEnds(w, KW_LIMIT) && OrderEnds(o, KW_LIMIT)
    ensures forall k :: OrderEnds(None, k) <==> k != KW_ORDER
  {
  }

  lemma TailHeads(ts: seq<Token>, p: nat, o: Option<OrderSyn>, q: nat, l: Option<Sym>, j: nat)
    requires Reads(ts, p, PrintOrder(o), q) && Reads(ts, q, PrintLimit(l), j) && j < |ts|
    ensures q <= j && p <= q
    ensures if o.None? then p == q else ts[p].kind == KW_ORDER
    ensures if l.None? then q == j else ts[q].kind == KW_LIMIT
  {
    hide Reads;
    ReadsLength(ts, p, PrintOrder(o), q);
    ReadsLength(ts, q, PrintLimit(l), j);
    if o.Some? {
      ReadsAt(ts, p, PrintOrder(o), q, 0);
    }
    if l.Some? {
      ReadsAt(ts, q, PrintLimit(l), j, 0);
    }
  }

  lemma SelectParts(num: Numeric, ts: seq<Token>, i: nat, c: Syntax, j: nat)
    requires c.SelectSyn?
    ensures StatementIs(num, ts, i, c, j) <==>
      var p := i + 1 + |PrintColumns(c.all, c.columns)|;
      && i < |ts| && ts[i].kind == KW_SELECT && SelectListIs(ts, i + 1, c.all, c.columns, p)
      && p + 1 < |ts| && ts[p + 1].kind == IDENTIFIER && ts[p + 1].text == c.table && TailIs(num, ts, p + 2, c, j)
  {
    hide Reads;
    hide PrintColumns;
    hide PrintFilter;
    hide PrintOrder;
    hide PrintLimit;
    hide FilterOk;
    hide LimitOk;
    hide TailEnds;
    var p := i + 1 + |PrintColumns(c.all, c.columns)|;
    var tail := PrintFilter(c.filter) + (PrintOrder(c.order) + PrintLimit(c.limit));
    var from := [K(KW_FROM), T(IDENTIFIER, c.table)] + tail;
    ReadsFirst(ts, i, KW_SELECT, PrintColumns(c.all, c.columns) + from, j);
    ReadsTwo(ts, i + 1, PrintColumns(c.all, c.columns), from, j);
    ReadsTwo(ts, p, [K(KW_FROM), T(IDENTIFIER, c.table)], tail, j);
    ReadsPair(ts, p, K(KW_FROM), T(IDENTIFIER, c.table), p + 2);
  }
}
