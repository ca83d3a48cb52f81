/** Integers as text: `std::to_string`, and the format "%010lld" of row keys (src/sql/executor.cpp), told by what
    the text is like instead of how it is made. */
module Decimals {
  import opened Bytes
  import opened Keys
  import opened Eval

  predicate AllDigits(d: Bytes) {
    forall i :: 0 <= i < |d| ==> 0x30 <= d[i] <= 0x39
  }

  /** n in decimal, with zeros up to a least width and no other leading zero. */
  predicate Denotes(d: Bytes, n: nat, least: nat) {
    AllDigits(d) && DigitsValue(d) == n && |d| >= least && (|d| > least && |d| > 0 ==> d[0] != 0x30)
  }

  /** The same with a minus sign, which counts for the width, before negative numbers. */
  predicate IsDecimal(t: Bytes, n: int, least: nat) {
    if n >= 0 then Denotes(t, n, least)
    else t != [] && t[0] == 0x2D && Denotes(t[1..], -n, if least > 1 then least - 1 else 1)
  }

  lemma {:induction false} DigitsBounds(d: Bytes)
    requires AllDigits(d)
    ensures 0 <= DigitsValue(d) < Pow10(|d|)
    ensures d != [] && d[0] != 0x30 ==> DigitsValue(d) >= Pow10(|d| - 1)
  {
    if d != [] {
      DigitsBounds(d[..|d| - 1]);
    }
  }

  /** A digit string is its own value, padded to its own length. */
  lemma {:induction false} FixedOfValue(d: Bytes)
    requires AllDigits(d)
    ensures DigitsValue(d) >= 0 && FixedDigits(DigitsValue(d), |d|) == d
  {
    DigitsBounds(d);
    if d != [] {
      var n := |d| - 1;
      FixedOfValue(d[..n]);
      DigitsBounds(d[..n]);
      assert d == d[..n] + [d[n]];
    }
  }

  lemma {:induction false} PaddedShape(n: nat, least: nat)
    ensures AllDigits(PaddedDigits(n, least)) && |PaddedDigits(n, least)| >= least
    ensures |PaddedDigits(n, least)| > least ==> PaddedDigits(n, least)[0] != 0x30
    decreases n, least
  {
    if n == 0 {
      FixedZero(least);
    } else {
      PaddedShape(n / 10, if least == 0 then 0 else least - 1);
      if n / 10 == 0 && least <= 1 {
        assert FixedDigits(0, 0) == [];
      }
    }
  }

  lemma PaddedIs(n: nat, least: nat, d: Bytes)
    requires least >= 1
    ensures Denotes(d, n, least) <==> d == PaddedDigits(n, least)
  {
    hide PaddedDigits;
    hide FixedDigits;
    hide DigitsValue;
    hide Pow10;
    PaddedShape(n, least);
    PaddedValue(n, least);
    if Denotes(d, n, least) {
      FixedOfValue(d);
      DigitsBounds(d);
      PaddedTo(n, least, |d|);
    }
  }

  /** `std::to_string` of an integer. */
  lemma ShowIntIs(n: int, t: Bytes)
    ensures IsDecimal(t, n, 1) <==> t == ShowInt(n)
  {
    hide PaddedDigits;
    hide Denotes;
    if n >= 0 {
      PaddedIs(n, 1, t);
    } else {
      NegativeIs(-n, 1, t);
    }
  }

  /** The key text of an integer: at least ten characters, padded with zeros behind the sign. */
  lemma FormatIntIs(n: int, t: Bytes)
    ensures IsDecimal(t, n, 10) <==> t == FormatInt(n)
  {
    hide PaddedDigits;
    hide Denotes;
    if n >= 0 {
      PaddedIs(n, 10, t);
    } else {
      NegativeIs(-n, 9, t);
    }
  }

  lemma NegativeIs(n: nat, least: nat, t: Bytes)
    requires least >= 1
    ensures t != [] && t[0] == 0x2D && Denotes(t[1..], n, least) <==> t == [MINUS] + PaddedDigits(n, least)
  {
    hide PaddedDigits;
    hide Denotes;
    if t != [] {
      PaddedIs(n, least, t[1..]);
      assert t == [t[0]] + t[1..];
      assert t == [MINUS] + PaddedDigits(n, least) ==> t[1..] == PaddedDigits(n, least);
    }
  }
}
