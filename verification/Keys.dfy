/** Key encoding of the relational layer (src/relational/catalog.cpp, `format_pk` of
    src/sql/executor.cpp): where tables live in the key space. */
module Keys {
  import opened Bytes
  import opened Entries

  /** A string literal as bytes. */
  function Text(s: string): (b: Bytes)
    ensures |b| == |s|
  {
    seq(|s|, i requires 0 <= i < |s| => s[i] as int % 256)
  }

  const COLON: Byte := 0x3A
  const TILDE: Byte := 0x7E

  /** "__table:", "__catalog:", "__meta:" and ":row:". */
  const TABLE_PREFIX: Bytes := [0x5F, 0x5F, 0x74, 0x61, 0x62, 0x6C, 0x65, 0x3A]
  const CATALOG_PREFIX: Bytes := [0x5F, 0x5F, 0x63, 0x61, 0x74, 0x61, 0x6C, 0x6F, 0x67, 0x3A]
  const META_PREFIX: Bytes := [0x5F, 0x5F, 0x6D, 0x65, 0x74, 0x61, 0x3A]
  const ROW_MARK: Bytes := [0x3A, 0x72, 0x6F, 0x77, 0x3A]

  function CatalogKey(table: Bytes): Bytes { CATALOG_PREFIX + table }

  function RowPrefix(table: Bytes): Bytes { TABLE_PREFIX + table + ROW_MARK }

  function RowPrefixEnd(table: Bytes): Bytes { RowPrefix(table) + [TILDE] }

  function RowKey(table: Bytes, pk: Bytes): Bytes { RowPrefix(table) + pk }

  function MetaKey(table: Bytes, field: Bytes): Bytes { META_PREFIX + table + [COLON] + field }

  /** A key that `scan(prefix, prefix + "~")` would return. */
  predicate InScan(prefix: Bytes, k: Bytes) {
    InRange(k, prefix, prefix + [TILDE])
  }

  // ---- Ranges. ----

  /** Everything between P and P followed by one byte starts with P. */
  lemma {:induction false} BetweenHasPrefix(p: Bytes, x: Byte, k: Bytes)
    requires AtMost(p, k) && AtMost(k, p + [x])
    ensures p <= k
    decreases |p|
  {
    if p != [] {
      assert (p + [x])[1..] == p[1..] + [x];
      assert k != [];
      BetweenHasPrefix(p[1..], x, k[1..]);
      assert p == [p[0]] + p[1..] && k == [k[0]] + k[1..];
    }
  }

  /** The suffixes that lie in a scan: empty, starting below '~', or exactly "~". */
  predicate Reachable(pk: Bytes) {
    pk == [] || pk[0] < TILDE || pk == [TILDE]
  }

  lemma AtMostAfterPrefix(p: Bytes, a: Bytes, b: Bytes)
    ensures AtMost(p + a, p + b) <==> AtMost(a, b)
  {
    LessAfterPrefix(p, a, b);
    if p + a == p + b {
      assert (p + a)[|p|..] == a && (p + b)[|p|..] == b;
    }
  }

  /** A scan returns exactly the keys with the prefix and a reachable suffix. */
  lemma ScanExact(prefix: Bytes, k: Bytes)
    ensures InScan(prefix, k) <==> prefix <= k && Reachable(k[|prefix|..])
  {
    hide Less;
    if InScan(prefix, k) {
      BetweenHasPrefix(prefix, TILDE, k);
    }
    if prefix <= k {
      SuffixInScan(prefix, k[|prefix|..]);
      assert k == prefix + k[|prefix|..];
    }
  }

  lemma SuffixInScan(prefix: Bytes, s: Bytes)
    ensures InScan(prefix, prefix + s) <==> Reachable(s)
  {
    AtMostAfterPrefix(prefix, [], s);
    AtMostAfterPrefix(prefix, s, [TILDE]);
    assert prefix + [] == prefix;
    assert AtMost([], s);
    assert s != [] ==> (Less(s, [TILDE]) <==> s[0] < TILDE || (s[0] == TILDE && Less(s[1..], [TILDE][1..])));
    if s != [] && s[0] == TILDE && s[1..] == [] {
      assert s == [s[0]] + s[1..];
    }
  }

  /** A row is scanned with its table exactly when its key text is reachable. */
  lemma RowInScan(table: Bytes, pk: Bytes)
    ensures InScan(RowPrefix(table), RowKey(table, pk)) <==> Reachable(pk)
  {
    SuffixInScan(RowPrefix(table), pk);
  }

  // ---- Different tables. ----

  predicate PlainName(table: Bytes) {
    COLON !in table
  }

  lemma {:induction false} SamePrefixSameName(a: Bytes, b: Bytes, x: Bytes, y: Bytes)
    requires PlainName(a) && PlainName(b) && a + [COLON] + x == b + [COLON] + y
    ensures a == b
    decreases |a|
  {
    HeadOfName(a, x);
    HeadOfName(b, y);
    if a != [] && b != [] {
      assert (a + [COLON] + x)[1..] == a[1..] + [COLON] + x && (b + [COLON] + y)[1..] == b[1..] + [COLON] + y;
      SamePrefixSameName(a[1..], b[1..], x, y);
      assert a == [a[0]] + a[1..] && b == [b[0]] + b[1..];
    }
  }

  lemma HeadOfName(a: Bytes, x: Bytes)
    requires PlainName(a)
    ensures (a + [COLON] + x)[0] == COLON <==> a == []
    ensures a != [] ==> (a + [COLON] + x)[0] == a[0]
  {
  }

  /** Row keys of differently named tables never share a prefix, so their scans never overlap. */
  lemma ScansDisjoint(a: Bytes, b: Bytes, k: Bytes)
    requires PlainName(a) && PlainName(b) && RowPrefix(a) <= k && RowPrefix(b) <= k
    ensures a == b
  {
    var n := |TABLE_PREFIX|;
    RowKeyTail(a, k);
    RowKeyTail(b, k);
    var x, y := k[n + |a| + 1..], k[n + |b| + 1..];
    SamePrefixSameName(a, b, x, y);
  }

  lemma RowKeyTail(a: Bytes, k: Bytes)
    requires RowPrefix(a) <= k
    ensures |k| >= |TABLE_PREFIX| + |a| + 5
    ensures k[|TABLE_PREFIX|..] == a + [COLON] + k[|TABLE_PREFIX| + |a| + 1..]
    ensures TABLE_PREFIX <= k
  {
    var n := |TABLE_PREFIX|;
    assert k[..n + |a| + 5] == RowPrefix(a);
    assert k[n..n + |a|] == a;
    assert k[n + |a|] == COLON;
  }

  /** Without that restriction they do: a table named `x:row:y` lies inside table `x`. */
  lemma NestedNamesOverlap(x: Bytes, y: Bytes, pk: Bytes)
    ensures RowPrefix(x) <= RowKey(x + ROW_MARK + y, pk)
  {
    assert RowKey(x + ROW_MARK + y, pk) == RowPrefix(x) + (y + ROW_MARK + pk);
  }

  /** Row, catalog and metadata keys are of three separate kinds. */
  lemma KindsDisjoint(k: Bytes)
    ensures !(TABLE_PREFIX <= k && CATALOG_PREFIX <= k)
    ensures !(TABLE_PREFIX <= k && META_PREFIX <= k)
    ensures !(CATALOG_PREFIX <= k && META_PREFIX <= k)
  {
    if TABLE_PREFIX <= k { assert k[2] == TABLE_PREFIX[2]; }
    if CATALOG_PREFIX <= k { assert k[2] == CATALOG_PREFIX[2]; }
    if META_PREFIX <= k { assert k[2] == META_PREFIX[2]; }
  }

  // ---- Integer keys: "%010lld". ----

  const ZERO: Byte := 0x30
  const MINUS: Byte := 0x2D

  function Pow10(w: nat): nat {
    if w == 0 then 1 else 10 * Pow10(w - 1)
  }

  /** The last w decimal digits of n. */
  function FixedDigits(n: nat, w: nat): (d: Bytes)
    ensures |d| == w
  {
    if w == 0 then [] else FixedDigits(n / 10, w - 1) + [ZERO + n % 10]
  }

  /** The digits of n, at least w of them: zero padding to a minimum width. */
  function PaddedDigits(n: nat, w: nat): Bytes
    decreases n, w
  {
    if n == 0 then FixedDigits(0, w) else PaddedDigits(n / 10, if w == 0 then 0 else w - 1) + [ZERO + n % 10]
  }

  function FormatInt(n: int): Bytes {
    if n >= 0 then PaddedDigits(n, 10) else [MINUS] + PaddedDigits(-n, 9)
  }

  /** The number a digit string denotes. */
  function DigitsValue(d: Bytes): int {
    if d == [] then 0 else 10 * DigitsValue(d[..|d| - 1]) + (d[|d| - 1] - ZERO)
  }

  lemma {:induction false} FixedZero(w: nat)
    ensures DigitsValue(FixedDigits(0, w)) == 0
    ensures forall i :: 0 <= i < w ==> FixedDigits(0, w)[i] == ZERO
  {
    if w > 0 {
      FixedZero(w - 1);
      assert FixedDigits(0, w)[..w - 1] == FixedDigits(0, w - 1);
    }
  }

  lemma {:induction false} PaddedValue(n: nat, w: nat)
    ensures DigitsValue(PaddedDigits(n, w)) == n
    ensures forall i :: 0 <= i < |PaddedDigits(n, w)| ==> PaddedDigits(n, w)[i] >= ZERO
    decreases n, w
  {
    if n == 0 {
      FixedZero(w);
    } else {
      var v := if w == 0 then 0 else w - 1;
      PaddedValue(n / 10, v);
      assert PaddedDigits(n, w)[..|PaddedDigits(n, w)| - 1] == PaddedDigits(n / 10, v);
    }
  }

  /** Different integers give different key texts. */
  lemma FormatIntInjective(a: int, b: int)
    requires FormatInt(a) == FormatInt(b)
    ensures a == b
  {
    hide PaddedDigits;
    hide DigitsValue;
    if a >= 0 {
      PaddedValue(a, 10);
    } else {
      PaddedValue(-a, 9);
      assert FormatInt(a)[0] == MINUS && FormatInt(a)[1..] == PaddedDigits(-a, 9);
    }
    if b >= 0 {
      PaddedValue(b, 10);
    } else {
      PaddedValue(-b, 9);
      assert FormatInt(b)[0] == MINUS && FormatInt(b)[1..] == PaddedDigits(-b, 9);
    }
  }

  lemma {:induction false} LessBySuffix(x: Bytes, y: Bytes, c: Byte, d: Byte)
    requires |x| == |y|
    ensures Less(x + [c], y + [d]) <==> Less(x, y) || (x == y && c < d)
    decreases |x|
  {
    var p, q := x + [c], y + [d];
    if x == [] {
      assert p[1..] == [] && q[1..] == [];
    } else {
      assert p[1..] == x[1..] + [c] && q[1..] == y[1..] + [d];
      LessBySuffix(x[1..], y[1..], c, d);
      assert x[0] == y[0] && x[1..] == y[1..] <==> x == y by {
        if x[0] == y[0] && x[1..] == y[1..] {
          assert x == [x[0]] + x[1..] && y == [y[0]] + y[1..];
        }
      }
    }
  }

  lemma {:induction false} FixedOrder(a: nat, b: nat, w: nat)
    requires a < Pow10(w) && b < Pow10(w)
    ensures Less(FixedDigits(a, w), FixedDigits(b, w)) <==> a < b
    ensures FixedDigits(a, w) == FixedDigits(b, w) <==> a == b
    decreases w
  {
    hide Less;
    if w > 0 {
      FixedOrder(a / 10, b / 10, w - 1);
      var x, y := FixedDigits(a / 10, w - 1), FixedDigits(b / 10, w - 1);
      LessBySuffix(x, y, ZERO + a % 10, ZERO + b % 10);
      assert FixedDigits(a, w)[..w - 1] == x && FixedDigits(b, w)[..w - 1] == y;
      assert FixedDigits(a, w)[w - 1] == ZERO + a % 10 && FixedDigits(b, w)[w - 1] == ZERO + b % 10;
    } else {
      LessIrreflexive([]);
    }
  }

  // ---- The order of integer keys, for all integers. ----

  /** Strings of different length compare on the shorter length first. */
  lemma {:induction false} LessByLength(x: Bytes, y: Bytes)
    ensures |x| <= |y| ==> (Less(x, y) <==> Less(x, y[..|x|]) || (x == y[..|x|] && |x| < |y|))
    ensures |x| > |y| ==> (Less(x, y) <==> Less(x[..|y|], y))
    decreases |x|
  {
    if x != [] && y != [] {
      var s, t := x[1..], y[1..];
      LessByLength(s, t);
      if |x| <= |y| {
        assert y[..|x|][1..] == t[..|s|];
        assert x == y[..|x|] <==> x[0] == y[0] && s == t[..|s|] by {
          assert x == [x[0]] + s && y[..|x|] == [y[0]] + t[..|s|];
        }
      } else {
        assert x[..|y|][1..] == s[..|t|];
      }
    } else if x == [] {
      assert y[..0] == [];
    } else {
      assert x[..0] == [];
    }
  }

  /** A number without its last k digits. */
  function Leading(n: nat, k: nat): nat {
    if k == 0 then n else Leading(n / 10, k - 1)
  }

  lemma {:induction false} FixedPrefix(n: nat, w: nat, k: nat)
    requires k <= w
    ensures FixedDigits(n, w)[..w - k] == FixedDigits(Leading(n, k), w - k)
    decreases k
  {
    hide FixedDigits;
    if k > 0 {
      FixedPrefix(n / 10, w - 1, k - 1);
      FixedInit(n, w);
      SliceOfPrefix(FixedDigits(n, w), w - 1, 0, w - k);
    } else {
      assert FixedDigits(n, w)[..w] == FixedDigits(n, w);
    }
  }

  lemma FixedInit(n: nat, w: nat)
    requires w > 0
    ensures FixedDigits(n, w)[..w - 1] == FixedDigits(n / 10, w - 1)
  {
  }

  lemma {:induction false} LeadingBelow(n: nat, w: nat, k: nat)
    requires k <= w && n < Pow10(w)
    ensures Leading(n, k) < Pow10(w - k)
    decreases k
  {
    if k > 0 {
      LeadingBelow(n / 10, w - 1, k - 1);
    }
  }

  /** Dropping k digits divides by the k-th power of ten. */
  lemma {:induction false} LeadingDivides(n: nat, k: nat)
    ensures Leading(n, k) * Pow10(k) <= n < (Leading(n, k) + 1) * Pow10(k)
  {
    if k > 0 {
      LeadingDivides(n / 10, k - 1);
      TimesTen(Leading(n, k), Pow10(k - 1));
    }
  }

  lemma TimesTen(q: nat, p: nat)
    ensures q * (10 * p) == 10 * (q * p) && (q + 1) * (10 * p) == 10 * ((q + 1) * p)
  {
  }

  /** Fixed-width numbers of possibly different widths, in byte order. */
  lemma FixedLess(a: nat, v: nat, b: nat, w: nat)
    requires a < Pow10(v) && b < Pow10(w)
    ensures Less(FixedDigits(a, v), FixedDigits(b, w)) <==>
      if v < w then a <= Leading(b, w - v) else Leading(a, v - w) < b
  {
    hide Less;
    hide FixedDigits;
    hide Pow10;
    hide Leading;
    LessByLength(FixedDigits(a, v), FixedDigits(b, w));
    if v < w {
      FixedPrefix(b, w, w - v);
      LeadingBelow(b, w, w - v);
      FixedOrder(a, Leading(b, w - v), v);
    } else {
      FixedPrefix(a, v, v - w);
      LeadingBelow(a, v, v - w);
      FixedOrder(Leading(a, v - w), b, w);
      if v == w {
        assert FixedDigits(b, w)[..v] == FixedDigits(b, w) && FixedDigits(a, v)[..v] == FixedDigits(a, v);
      }
    }
  }

  function DigitCount(n: nat): (d: nat)
    ensures d >= 1
  {
    if n < 10 then 1 else 1 + DigitCount(n / 10)
  }

  /** The length of n printed with zeros up to a minimum. */
  function Width(n: nat, least: nat): (w: nat)
    ensures w >= least
  {
    if DigitCount(n) > least then DigitCount(n) else least
  }

  lemma {:induction false} DigitCountBounds(n: nat)
    ensures n < Pow10(DigitCount(n)) && (n > 0 ==> n >= Pow10(DigitCount(n) - 1))
  {
    if n >= 10 {
      DigitCountBounds(n / 10);
    } else {
      assert Pow10(1) == 10 * Pow10(0);
    }
  }

  lemma {:induction false} PowersGrow(v: nat, w: nat)
    requires v <= w
    ensures 0 < Pow10(v) <= Pow10(w)
  {
    if v < w {
      PowersGrow(v, w - 1);
    } else if v > 0 {
      PowersGrow(v - 1, v - 1);
    }
  }

  lemma DigitCountAtMost(n: nat, k: nat)
    requires n < Pow10(k) && k >= 1
    ensures DigitCount(n) <= k
  {
    DigitCountBounds(n);
    if DigitCount(n) > k {
      PowersGrow(k, DigitCount(n) - 1);
    }
  }

  lemma {:induction false} DigitCountGrows(a: nat, b: nat)
    requires a <= b
    ensures DigitCount(a) <= DigitCount(b)
  {
    if a >= 10 {
      DigitCountGrows(a / 10, b / 10);
    }
  }

  lemma {:induction false} PaddedTo(n: nat, least: nat, w: nat)
    requires least <= w && n < Pow10(w) && (w == least || n >= Pow10(w - 1))
    ensures PaddedDigits(n, least) == FixedDigits(n, w)
    decreases w
  {
    PowersGrow(0, if w > 0 then w - 1 else 0);
    if n > 0 {
      PaddedTo(n / 10, if least == 0 then 0 else least - 1, w - 1);
    }
  }

  lemma PaddedWidth(n: nat, least: nat)
    requires least >= 1
    ensures n < Pow10(Width(n, least)) && PaddedDigits(n, least) == FixedDigits(n, Width(n, least))
  {
    hide PaddedDigits;
    hide FixedDigits;
    DigitCountBounds(n);
    PowersGrow(DigitCount(n), Width(n, least));
    PaddedTo(n, least, Width(n, least));
  }

  /** Zero-padded numbers in byte order: the longer one counts with its leading digits only. */
  predicate PaddedLess(a: nat, b: nat, least: nat) {
    var v, w := Width(a, least), Width(b, least);
    if v < w then a <= Leading(b, w - v) else Leading(a, v - w) < b
  }

  lemma PaddedOrder(a: nat, b: nat, least: nat)
    requires least >= 1
    ensures Less(PaddedDigits(a, least), PaddedDigits(b, least)) <==> PaddedLess(a, b, least)
  {
    hide Less;
    hide PaddedDigits;
    hide FixedDigits;
    hide Pow10;
    hide Width;
    hide Leading;
    PaddedWidth(a, least);
    PaddedWidth(b, least);
    FixedLess(a, Width(a, least), b, Width(b, least));
  }

  /** The order of integer keys: a minus sign comes before every digit, and absolute values compare as text. */
  predicate KeyLess(a: int, b: int) {
    if a >= 0 then b >= 0 && PaddedLess(a, b, 10)
    else b >= 0 || PaddedLess(-a, -b, 9)
  }

  /** For all integers. */
  lemma FormatIntLess(a: int, b: int)
    ensures Less(FormatInt(a), FormatInt(b)) <==> KeyLess(a, b)
  {
    hide PaddedDigits;
    hide PaddedLess;
    if a >= 0 {
      PaddedFirst(a, 10);
      if b >= 0 {
        PaddedOrder(a, b, 10);
      }
    } else {
      if b >= 0 {
        PaddedFirst(b, 10);
      } else {
        PaddedOrder(-a, -b, 9);
        LessAfterPrefix([MINUS], PaddedDigits(-a, 9), PaddedDigits(-b, 9));
      }
    }
  }

  lemma PaddedFirst(n: nat, least: nat)
    requires least >= 1
    ensures PaddedDigits(n, least) != [] && PaddedDigits(n, least)[0] >= ZERO
  {
    PaddedValue(n, least);
    PaddedWidth(n, least);
  }

  /** When a < b, the keys are in the same order exactly if: the signs differ; or both are not negative and
      either of one width or a is at most the leading digits of b; or both are negative, a is wider, and its
      leading digits are below those of b. */
  predicate OrderKept(a: int, b: int)
    requires a < b
  {
    if a >= 0 then
      Width(a, 10) >= Width(b, 10) || a <= Leading(b, Width(b, 10) - Width(a, 10))
    else b >= 0 || (Width(-a, 9) > Width(-b, 9) && Leading(-a, Width(-a, 9) - Width(-b, 9)) < -b)
  }

  lemma FormatIntKeepsOrder(a: int, b: int)
    requires a < b
    ensures Less(FormatInt(a), FormatInt(b)) <==> OrderKept(a, b)
  {
    hide Less;
    hide FormatInt;
    hide DigitCount;
    FormatIntLess(a, b);
    if a >= 0 {
      DigitCountGrows(a, b);
    } else if b < 0 {
      DigitCountGrows(-b, -a);
    }
  }

  lemma TenDigits()
    ensures Pow10(9) == 1_000_000_000 && Pow10(10) == 10_000_000_000 && Pow10(11) == 100_000_000_000
  {
    assert Pow10(5) == 100_000;
    assert Pow10(8) == 1000 * Pow10(5);
    assert Pow10(10) == 100 * Pow10(8);
    assert Pow10(11) == 10 * Pow10(10);
  }

  /** Byte order is numeric order for the integers of at most ten digits. */
  lemma FormatIntOrder(a: nat, b: nat)
    requires a <= 9_999_999_999 && b <= 9_999_999_999
    ensures Less(FormatInt(a), FormatInt(b)) <==> a < b
  {
    hide Less;
    hide FormatInt;
    hide DigitCount;
    FormatIntLess(a, b);
    TenDigits();
    DigitCountAtMost(a, 10);
    DigitCountAtMost(b, 10);
  }

  /** Among negative integers of at most nine digits the order is reversed. */
  lemma FormatIntNegative(a: int, b: int)
    requires -999_999_999 <= a < 0 && -999_999_999 <= b < 0
    ensures Less(FormatInt(a), FormatInt(b)) <==> b < a
  {
    hide Less;
    hide FormatInt;
    hide DigitCount;
    FormatIntLess(a, b);
    TenDigits();
    DigitCountAtMost(-a, 9);
    DigitCountAtMost(-b, 9);
  }

  /** The first integer out of order among those not negative: eleven digits sort before ten nines. */
  lemma ElevenDigitsTooEarly()
    ensures Less(FormatInt(10_000_000_000), FormatInt(9_999_999_999))
  {
    hide Less;
    hide FormatInt;
    hide DigitCount;
    FormatIntLess(10_000_000_000, 9_999_999_999);
    TenDigits();
    DigitCountAtMost(9_999_999_999, 10);
    DigitCountBounds(10_000_000_000);
    DigitCountAtMost(10_000_000_000, 11);
    if DigitCount(10_000_000_000) <= 10 {
      PowersGrow(DigitCount(10_000_000_000), 10);
    }
    assert Leading(10_000_000_000, 1) == 1_000_000_000;
  }
}
