/** The table-driven CRC-32 of include/mosaicdb/common.h and the serial
    (bit-at-a-time) CRC-32 of section 8 of RFC 1952. */
module Crc32 {
  import opened Bytes

  // ---- Shift registers in general: the laws need no bit-level facts. ----

  function Iterate<T>(f: T -> T, x: T, n: nat): T
    decreases n
  {
    if n == 0 then x else Iterate(f, f(x), n - 1)
  }

  /** Enters the low digits of `w` into register `c` one at a time. */
  function Feed<T>(f: T -> T, add: (T, T) -> T, low: T -> T, half: T -> T, c: T, w: T, n: nat): T
    decreases n
  {
    if n == 0 then c else Feed(f, add, low, half, f(add(c, low(w))), half(w), n - 1)
  }

  lemma {:induction false} IterateInjective<T(!new)>(f: T -> T, x: T, y: T, n: nat)
    requires forall a, b :: f(a) == f(b) ==> a == b
    requires Iterate(f, x, n) == Iterate(f, y, n)
    ensures x == y
    decreases n
  {
    if n > 0 {
      IterateInjective(f, f(x), f(y), n - 1);
    }
  }

  lemma {:induction false} IterateLinear<T(!new)>(f: T -> T, add: (T, T) -> T, x: T, y: T, n: nat)
    requires forall a, b :: f(add(a, b)) == add(f(a), f(b))
    ensures Iterate(f, add(x, y), n) == add(Iterate(f, x, n), Iterate(f, y, n))
    decreases n
  {
    if n > 0 {
      IterateLinear(f, add, f(x), f(y), n - 1);
    }
  }

  lemma {:induction false} FeedIsIterate<T(!new)>(f: T -> T, add: (T, T) -> T, low: T -> T, half: T -> T, c: T, w: T,
      n: nat)
    requires forall a, b :: f(add(a, b)) == add(f(add(a, low(b))), half(b))
    ensures Iterate(f, add(c, w), n) == add(Feed(f, add, low, half, c, w, n), Iterate(half, w, n))
    decreases n
  {
    if n > 0 {
      FeedIsIterate(f, add, low, half, f(add(c, low(w))), half(w), n - 1);
    }
  }

  /** Runs a register over a byte string. */
  function Fold<T>(step: (T, Byte) -> T, init: T, data: Bytes): T {
    if data == [] then init
    else step(Fold(step, init, data[..|data| - 1]), data[|data| - 1])
  }

  /** A step that is injective in register and byte tells any two strings that differ in one byte apart. */
  lemma {:induction false} FoldDetects<T(!new)>(step: (T, Byte) -> T, init: T, data: Bytes, i: nat, b: Byte)
    requires forall c, x, y :: step(c, x) == step(c, y) ==> x == y
    requires forall c, d, x :: step(c, x) == step(d, x) ==> c == d
    requires i < |data| && data[i] != b
    ensures Fold(step, init, data[i := b]) != Fold(step, init, data)
    decreases |data|
  {
    var n := |data| - 1;
    if i < n {
      FoldDetects(step, init, data[..n], i, b);
      assert data[i := b][..n] == data[..n][i := b];
    } else {
      assert data[i := b][..n] == data[..n];
    }
  }

  lemma {:induction false} FoldSame<T(!new)>(f: (T, Byte) -> T, g: (T, Byte) -> T, init: T, data: Bytes)
    requires forall c, x :: f(c, x) == g(c, x)
    ensures Fold(f, init, data) == Fold(g, init, data)
  {
    if data != [] {
      FoldSame(f, g, init, data[..|data| - 1]);
    }
  }

  lemma EightTimes<T>(f: T -> T, x: T)
    ensures Iterate(f, x, 8) == f(f(f(f(f(f(f(f(x))))))))
  {
    var y := f(f(f(f(x))));
    assert Iterate(f, x, 8) == Iterate(f, f(f(x)), 6) == Iterate(f, y, 4);
    assert Iterate(f, y, 4) == Iterate(f, f(f(y)), 2);
  }

  // ---- The register of the code. ----

  const POLY: bv32 := 0xEDB88320
  const ONES: bv32 := 0xFFFFFFFF

  /** One division step of the reflected register. */
  function Shift(c: bv32): bv32 {
    if c & 1 == 1 then (c >> 1) ^ POLY else c >> 1
  }

  function Xor(a: bv32, b: bv32): bv32 { a ^ b }

  function LowBit(w: bv32): bv32 { w & 1 }

  function Half(w: bv32): bv32 { w >> 1 }

  function Widen(b: Byte): bv32 {
    (b as bv8) as bv32
  }

  function LowByte(x: bv32): Byte {
    ((x & 0xFF) as bv8) as int
  }

  /** The reference: the bits of a byte enter the register one at a time. */
  function SerialStep(c: bv32, b: Byte): bv32 {
    Feed(Shift, Xor, LowBit, Half, c, Widen(b), 8)
  }

  function SerialCrc(data: Bytes): bv32 {
    Xor(Fold(SerialStep, ONES, data), ONES)
  }

  /** A whole byte at once. */
  function ByteStep(c: bv32, b: Byte): bv32 {
    Iterate(Shift, Xor(c, Widen(b)), 8)
  }

  function Crc(data: Bytes): bv32 {
    Xor(Fold(ByteStep, ONES, data), ONES)
  }

  // ---- Bit-level facts. ----

  lemma ShiftInjective(x: bv32, y: bv32)
    requires Shift(x) == Shift(y)
    ensures x == y
  {
  }

  lemma XorShift(x: bv32, y: bv32)
    ensures (x ^ y) >> 1 == (x >> 1) ^ (y >> 1)
  {
  }

  lemma XorParity(x: bv32, y: bv32)
    ensures (x ^ y) & 1 == 1 <==> ((x & 1 == 1) != (y & 1 == 1))
  {
  }

  lemma XorCancel(a: bv32, b: bv32, p: bv32)
    ensures (a ^ p) ^ (b ^ p) == a ^ b
    ensures (a ^ p) ^ b == (a ^ b) ^ p
    ensures a ^ (b ^ p) == (a ^ b) ^ p
  {
  }

  lemma ShiftLinear(x: bv32, y: bv32)
    ensures Shift(x ^ y) == Shift(x) ^ Shift(y)
  {
    XorShift(x, y);
    XorParity(x, y);
    XorCancel(x >> 1, y >> 1, POLY);
  }

  lemma ShiftOfLowBit(w: bv32)
    ensures Shift(w) == Xor(Shift(LowBit(w)), Half(w))
  {
  }

  lemma XorAssociative(a: bv32, b: bv32, c: bv32)
    ensures Xor(Xor(a, b), c) == Xor(a, Xor(b, c))
  {
  }

  lemma ShiftTakesLowBit(c: bv32, w: bv32)
    ensures Shift(Xor(c, w)) == Xor(Shift(Xor(c, LowBit(w))), Half(w))
  {
    ShiftLinearLaw();
    ShiftOfLowBit(w);
    XorAssociative(Shift(c), Shift(LowBit(w)), Half(w));
  }

  lemma ShiftLinearLaw()
    ensures forall a, b :: Shift(Xor(a, b)) == Xor(Shift(a), Shift(b))
  {
    forall a, b ensures Shift(Xor(a, b)) == Xor(Shift(a), Shift(b)) { ShiftLinear(a, b); }
  }

  lemma FeedLaw()
    ensures forall a, w :: Shift(Xor(a, w)) == Xor(Shift(Xor(a, LowBit(w))), Half(w))
  {
    forall a, w ensures Shift(Xor(a, w)) == Xor(Shift(Xor(a, LowBit(w))), Half(w)) { ShiftTakesLowBit(a, w); }
  }

  lemma XorZero(x: bv32)
    ensures Xor(x, 0) == x
  {
  }

  lemma XorInjective(a: bv32, b: bv32, c: bv32)
    ensures Xor(c, a) == Xor(c, b) ==> a == b
    ensures Xor(a, c) == Xor(b, c) ==> a == b
  {
  }

  lemma EightHalvesOfByte(w: bv8)
    ensures Half(Half(Half(Half(Half(Half(Half(Half(w as bv32)))))))) == 0
  {
  }

  lemma EightShiftsOfZeros(z: bv32)
    requires z & 0xFF == 0
    ensures Shift(Shift(Shift(Shift(Shift(Shift(Shift(Shift(z)))))))) == z >> 8
  {
  }

  lemma HighBytes(x: bv32)
    ensures x == Xor(x & 0xFFFFFF00, x & 0xFF)
    ensures (x & 0xFFFFFF00) & 0xFF == 0
    ensures (x & 0xFFFFFF00) >> 8 == x >> 8
  {
  }

  lemma ByteBelowShift(c: bv32, b: bv8)
    ensures Xor(c, b as bv32) >> 8 == c >> 8
  {
  }

  lemma ByteOfBits(x: bv8)
    ensures (x as int) as bv8 == x
  {
  }

  lemma BitsOfByte(b: Byte)
    ensures (b as bv8) as int == b
  {
    if b < 128 {
      if b < 64 {} else {}
    } else {
      if b < 192 {} else {}
    }
  }

  lemma NarrowLowByte(x: bv32)
    ensures ((x & 0xFF) as bv8) as bv32 == x & 0xFF
  {
  }

  lemma WidenLowByte(x: bv32)
    ensures Widen(LowByte(x)) == x & 0xFF
  {
    NarrowLowByte(x);
    ByteOfBits((x & 0xFF) as bv8);
  }

  lemma WideInjective(a: bv8, b: bv8)
    requires a as bv32 == b as bv32
    ensures a == b
  {
  }

  lemma WidenInjective(a: Byte, b: Byte)
    requires Widen(a) == Widen(b)
    ensures a == b
  {
    WideInjective(a as bv8, b as bv8);
    BitsOfByte(a);
    BitsOfByte(b);
  }

  // ---- The table form equals the serial form. ----

  function TableEntry(i: Byte): bv32 {
    Iterate(Shift, Widen(i), 8)
  }

  /** `build_table`, for the given widening of an index to a register. */
  method BuildTable(widen: Byte -> bv32) returns (t: array<bv32>)
    ensures fresh(t) && t.Length == 256
    ensures forall i :: 0 <= i < 256 ==> t[i] == Iterate(Shift, widen(i), 8)
  {
    t := new bv32[256];
    for i := 0 to 256
      invariant forall j :: 0 <= j < i ==> t[j] == Iterate(Shift, widen(j), 8)
    {
      t[i] := ShiftEight(widen(i));
    }
  }

  /** The inner loop of `build_table`. */
  method ShiftEight(start: bv32) returns (c: bv32)
    ensures c == Iterate(Shift, start, 8)
  {
    c := start;
    for j := 0 to 8
      invariant Iterate(Shift, c, 8 - j) == Iterate(Shift, start, 8)
    {
      c := Shift(c);
    }
  }

  lemma ShiftsOfHighBytes(x: bv32)
    ensures Iterate(Shift, x & 0xFFFFFF00, 8) == x >> 8
  {
    HighBytes(x);
    EightTimes(Shift, x & 0xFFFFFF00);
    EightShiftsOfZeros(x & 0xFFFFFF00);
  }

  /** Eight shifts are one table look-up on the low byte. */
  lemma ShiftsByTable(x: bv32)
    ensures Iterate(Shift, x, 8) == Xor(x >> 8, TableEntry(LowByte(x)))
  {
    ShiftsOfHighBytes(x);
    HighBytes(x);
    WidenLowByte(x);
    ShiftLinearLaw();
    IterateLinear(Shift, Xor, x & 0xFFFFFF00, x & 0xFF, 8);
  }

  lemma TableStepOf(c: bv32, x: bv32)
    requires x >> 8 == c >> 8
    ensures Xor(c >> 8, TableEntry(LowByte(x))) == Iterate(Shift, x, 8)
  {
    ShiftsByTable(x);
  }

  lemma TableStepOfBits(c: bv32, w: bv8)
    ensures Xor(c >> 8, TableEntry(LowByte(Xor(c, w as bv32)))) == Iterate(Shift, Xor(c, w as bv32), 8)
  {
    ByteBelowShift(c, w);
    TableStepOf(c, Xor(c, w as bv32));
  }

  lemma TableStep(c: bv32, b: Byte)
    ensures Xor(c >> 8, TableEntry(LowByte(Xor(c, Widen(b))))) == ByteStep(c, b)
  {
    TableStepOfBits(c, b as bv8);
  }

  /** `CRC32::compute`: the table form equals the serial CRC-32 on every byte string. */
  method Compute(data: Bytes) returns (crc: bv32)
    ensures crc == Crc(data) == SerialCrc(data)
  {
    var tbl := BuildTable(Widen);
    crc := ONES;
    for i := 0 to |data|
      invariant forall j :: 0 <= j < 256 ==> tbl[j] == TableEntry(j)
      invariant crc == Fold(ByteStep, ONES, data[..i])
    {
      TableStep(crc, data[i]);
      assert data[..i + 1][..i] == data[..i];
      crc := Xor(crc >> 8, tbl[LowByte(Xor(crc, Widen(data[i])))]);
    }
    assert data[..|data|] == data;
    CrcIsSerial(data);
    crc := Xor(crc, ONES);
  }

  lemma SerialByte(c: bv32, b: Byte)
    ensures SerialStep(c, b) == ByteStep(c, b)
  {
    FeedLaw();
    FeedIsIterate(Shift, Xor, LowBit, Half, c, Widen(b), 8);
    EightTimes(Half, Widen(b));
    EightHalvesOfByte(b as bv8);
    XorZero(SerialStep(c, b));
  }

  lemma CrcIsSerial(data: Bytes)
    ensures Crc(data) == SerialCrc(data)
  {
    forall c, b ensures SerialStep(c, b) == ByteStep(c, b) { SerialByte(c, b); }
    FoldSame(SerialStep, ByteStep, ONES, data);
  }

  // ---- Which CRC this is. ----

  /** The coefficient of x^e in a reflected register. */
  function Term(e: nat): bv32
    requires e < 32
  {
    (1 as bv32) << (31 - e)
  }

  /** The generator is the one of section 8 of RFC 1952: a low bit shifted out feeds back the terms of
      x^32 + x^26 + x^23 + x^22 + x^16 + x^12 + x^11 + x^10 + x^8 + x^7 + x^5 + x^4 + x^2 + x + 1. */
  lemma GeneratorTerms(c: bv32)
    ensures c & 1 == 0 ==> Shift(c) == c >> 1
    ensures c & 1 == 1 ==> (Shift(c) ^ (c >> 1) ==
        Term(26) ^ Term(23) ^ Term(22) ^ Term(16) ^ Term(12) ^ Term(11) ^ Term(10) ^
        Term(8) ^ Term(7) ^ Term(5) ^ Term(4) ^ Term(2) ^ Term(1) ^ Term(0))
  {
  }

  /** One more byte of a message. */
  lemma FoldMore(data: Bytes, i: nat, w: bv32, c: bv32, next: bv32)
    requires i < |data| && Fold(ByteStep, ONES, data[..i]) == c && Widen(data[i]) == w
    requires Shift(Shift(Shift(Shift(Shift(Shift(Shift(Shift(c ^ w)))))))) == next
    ensures Fold(ByteStep, ONES, data[..i + 1]) == next
  {
    assert data[..i + 1][..i] == data[..i];
    EightTimes(Shift, c ^ w);
  }

  lemma FoldNone(data: Bytes)
    ensures Fold(ByteStep, ONES, data[..0]) == ONES
  {
  }

  /** The digits 1 to 9. */
  const DIGITS: Bytes := [0x31, 0x32, 0x33, 0x34, 0x35, 0x36, 0x37, 0x38, 0x39]

  lemma CheckThree()
    ensures Fold(ByteStep, ONES, DIGITS[..3]) == 0x77B79C2D
  {
    hide Fold;
    hide ByteStep;
    FoldNone(DIGITS);
    FoldMore(DIGITS, 0, 0x31, 0xFFFFFFFF, 0x7C231048);
    FoldMore(DIGITS, 1, 0x32, 0x7C231048, 0xB0ACBB32);
    FoldMore(DIGITS, 2, 0x33, 0xB0ACBB32, 0x77B79C2D);
  }

  lemma CheckSix()
    ensures Fold(ByteStep, ONES, DIGITS[..6]) == 0xF68D2C9E
  {
    hide Fold;
    hide ByteStep;
    CheckThree();
    FoldMore(DIGITS, 3, 0x34, 0x77B79C2D, 0x641C1F5C);
    FoldMore(DIGITS, 4, 0x35, 0x641C1F5C, 0x340AC5E3);
    FoldMore(DIGITS, 5, 0x36, 0x340AC5E3, 0xF68D2C9E);
  }

  lemma CheckNine()
    ensures Fold(ByteStep, ONES, DIGITS[..9]) == 0x340BC6D9
  {
    hide Fold;
    hide ByteStep;
    CheckSix();
    FoldMore(DIGITS, 6, 0x37, 0xF68D2C9E, 0xAFFC9660);
    FoldMore(DIGITS, 7, 0x38, 0xAFFC9660, 0x651F2550);
    FoldMore(DIGITS, 8, 0x39, 0x651F2550, 0x340BC6D9);
  }

  /** The check value of CRC-32: the checksum of the nine digits 123456789 is 0xCBF43926. */
  lemma CheckValue()
    ensures Crc([0x31, 0x32, 0x33, 0x34, 0x35, 0x36, 0x37, 0x38, 0x39]) == 0xCBF43926
  {
    hide Fold;
    CheckNine();
    assert DIGITS[..9] == DIGITS;
  }

  // ---- Error detection. ----

  /** The byte step is injective in the byte. */
  lemma ByteStepInjectiveInByte(c: bv32, a: Byte, b: Byte)
    requires ByteStep(c, a) == ByteStep(c, b)
    ensures a == b
  {
    forall x, y | Shift(x) == Shift(y) ensures x == y { ShiftInjective(x, y); }
    IterateInjective(Shift, Xor(c, Widen(a)), Xor(c, Widen(b)), 8);
    XorInjective(Widen(a), Widen(b), c);
    WidenInjective(a, b);
  }

  /** The byte step is injective in the register. */
  lemma ByteStepInjectiveInRegister(c: bv32, d: bv32, a: Byte)
    requires ByteStep(c, a) == ByteStep(d, a)
    ensures c == d
  {
    forall x, y | Shift(x) == Shift(y) ensures x == y { ShiftInjective(x, y); }
    IterateInjective(Shift, Xor(c, Widen(a)), Xor(d, Widen(a)), 8);
    XorInjective(c, d, Widen(a));
  }

  /** Changing any one byte of a message changes its CRC. */
  lemma SingleByteChangeDetected(data: Bytes, i: nat, b: Byte)
    requires i < |data| && data[i] != b
    ensures Crc(data[i := b]) != Crc(data)
  {
    forall c, x, y | ByteStep(c, x) == ByteStep(c, y) ensures x == y { ByteStepInjectiveInByte(c, x, y); }
    forall c, d, x | ByteStep(c, x) == ByteStep(d, x) ensures c == d { ByteStepInjectiveInRegister(c, d, x); }
    FoldDetects(ByteStep, ONES, data, i, b);
    XorInjective(Fold(ByteStep, ONES, data[i := b]), Fold(ByteStep, ONES, data), ONES);
  }

  // ---- The checksum as the four stored bytes. ----

  /** The little-endian bytes of a register. */
  function CrcBytes(c: bv32): (b: Bytes)
    ensures |b| == 4
  {
    [LowByte(c), LowByte(c >> 8), LowByte(c >> 16), LowByte(c >> 24)]
  }

  function Join(b: Bytes): bv32
    requires |b| == 4
  {
    Widen(b[0]) | (Widen(b[1]) << 8) | (Widen(b[2]) << 16) | (Widen(b[3]) << 24)
  }

  /** The register is recovered from its stored bytes. */
  lemma JoinCrcBytes(c: bv32)
    ensures Join(CrcBytes(c)) == c
  {
    forall x ensures Widen(LowByte(x)) == x & 0xFF { WidenLowByte(x); }
    FourParts(LowByte, Widen, c);
  }

  lemma FourParts(low: bv32 -> Byte, widen: Byte -> bv32, c: bv32)
    requires forall x :: widen(low(x)) == x & 0xFF
    ensures widen(low(c)) | (widen(low(c >> 8)) << 8) | (widen(low(c >> 16)) << 16) | (widen(low(c >> 24)) << 24) == c
  {
  }

  lemma CrcBytesInjective(c: bv32, d: bv32)
    requires CrcBytes(c) == CrcBytes(d)
    ensures c == d
  {
    JoinCrcBytes(c);
    JoinCrcBytes(d);
  }
}
