/** Fixed-width little-endian integers (include/mosaicdb/common.h). */
module Codec {
  import opened Bytes

  const U32_SIZE: nat := 0x1_0000_0000
  const U64_SIZE: nat := 0x1_0000_0000_0000_0000

  /** The low `width` base-256 digits of `n`, least significant first. */
  function Le(n: nat, width: nat): (b: Bytes)
    ensures |b| == width
  {
    if width == 0 then [] else [n % 256] + Le(n / 256, width - 1)
  }

  function FromLe(b: Bytes): nat {
    if b == [] then 0 else b[0] + 256 * FromLe(b[1..])
  }

  function Pow256(width: nat): nat {
    if width == 0 then 1 else 256 * Pow256(width - 1)
  }

  lemma {:induction false} LeRoundTrip(n: nat, width: nat)
    ensures n < Pow256(width) ==> FromLe(Le(n, width)) == n
  {
    if width > 0 {
      LeRoundTrip(n / 256, width - 1);
      assert Le(n, width)[1..] == Le(n / 256, width - 1);
    }
  }

  lemma DigitSplit(d: Byte, n: nat)
    ensures (d + 256 * n) % 256 == d && (d + 256 * n) / 256 == n
  {
  }

  lemma {:induction false} FromLeRoundTrip(b: Bytes)
    ensures FromLe(b) < Pow256(|b|)
    ensures Le(FromLe(b), |b|) == b
  {
    if b != [] {
      FromLeRoundTrip(b[1..]);
      DigitSplit(b[0], FromLe(b[1..]));
      assert b == [b[0]] + b[1..];
    }
  }

  lemma Pow256Values()
    ensures Pow256(4) == U32_SIZE && Pow256(8) == U64_SIZE
  {
    assert Pow256(2) == 65536;
    assert Pow256(4) == 65536 * 65536;
    assert Pow256(6) == 65536 * Pow256(4);
  }

  lemma U32RoundTrip(n: nat)
    requires n < U32_SIZE
    ensures FromLe(Le(n, 4)) == n
  {
    Pow256Values();
    LeRoundTrip(n, 4);
  }

  lemma U64RoundTrip(n: nat)
    requires n < U64_SIZE
    ensures FromLe(Le(n, 8)) == n
  {
    Pow256Values();
    LeRoundTrip(n, 8);
  }

  /** Distinct byte strings of one width decode to distinct numbers. */
  lemma FromLeInjective(a: Bytes, b: Bytes)
    requires |a| == |b| && FromLe(a) == FromLe(b)
    ensures a == b
  {
    FromLeRoundTrip(a);
    FromLeRoundTrip(b);
  }

  lemma {:induction false} FromLeAppend(a: Bytes, d: Byte)
    ensures FromLe(a + [d]) == FromLe(a) + d * Pow256(|a|)
  {
    if a != [] {
      assert (a + [d])[1..] == a[1..] + [d];
      FromLeAppend(a[1..], d);
      assert 256 * (d * Pow256(|a| - 1)) == d * (256 * Pow256(|a| - 1));
    }
  }

  /** `encode_u32_le`. */
  method EncodeU32(val: nat) returns (buf: Bytes)
    requires val < U32_SIZE
    ensures buf == Le(val, 4)
  {
    buf := [val % 256, val / 0x100 % 256, val / 0x1_0000 % 256, val / 0x100_0000 % 256];
    var n1, n2, n3 := val / 256, val / 256 / 256, val / 256 / 256 / 256;
    assert Le(n3, 1) == [n3 % 256];
    assert Le(n1, 3) == [n1 % 256, n2 % 256, n3 % 256];
  }

  /** `decode_u32_le`. */
  method DecodeU32(buf: Bytes) returns (val: nat)
    requires |buf| == 4
    ensures val == FromLe(buf) && val < U32_SIZE
  {
    var b0: int, b1: int, b2: int, b3: int := buf[0], buf[1], buf[2], buf[3];
    val := b0 + 0x100 * b1 + 0x1_0000 * b2 + 0x100_0000 * b3;
    assert FromLe(buf[3..]) == buf[3];
    assert buf[2..][1..] == buf[3..] && buf[1..][1..] == buf[2..];
    assert FromLe(buf[1..]) == buf[1] + 256 * FromLe(buf[2..]);
  }

  lemma MoveDigit(buf: Bytes, rest: nat, width: nat)
    requires width > 0
    ensures buf + Le(rest, width) == buf + [rest % 256] + Le(rest / 256, width - 1)
  {
    var d, tail := rest % 256, Le(rest / 256, width - 1);
    assert Le(rest, width) == [d] + tail;
  }

  /** `encode_u64_le`: one byte a step, shifting the value right by eight bits. */
  method EncodeU64(val: nat) returns (buf: Bytes)
    requires val < U64_SIZE
    ensures buf == Le(val, 8)
  {
    buf := [];
    var rest := val;
    for i := 0 to 8
      invariant |buf| == i
      invariant Le(val, 8) == buf + Le(rest, 8 - i)
    {
      MoveDigit(buf, rest, 8 - i);
      buf, rest := buf + [rest % 256], rest / 256;
    }
  }

  /** `decode_u64_le`: each byte is added at its place value. */
  method DecodeU64(buf: Bytes) returns (val: nat)
    requires |buf| == 8
    ensures val == FromLe(buf) && val < U64_SIZE
  {
    val := 0;
    var place: nat := 1;
    for i := 0 to 8
      invariant val == FromLe(buf[..i]) && place == Pow256(i)
    {
      FromLeAppend(buf[..i], buf[i]);
      assert buf[..i + 1] == buf[..i] + [buf[i]];
      val, place := val + buf[i] * place, 256 * place;
    }
    assert buf[..8] == buf;
    FromLeRoundTrip(buf);
    Pow256Values();
  }
}
