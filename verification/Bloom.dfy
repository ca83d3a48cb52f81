/** The Bloom filter (src/index/bloom_filter.cpp). */
module Bloom {
  import opened Bytes
  import opened Codec
  import Crc32

  // ---- The two hashes, on 32-bit words that wrap. ----

  function FnvStep(h: bv32, b: Byte): bv32 {
    (h ^ Crc32.Widen(b)) * 16777619
  }

  function Fnv1a(key: Bytes): bv32 {
    Crc32.Fold(FnvStep, 2166136261, key)
  }

  const MIX: bv32 := 0x5bd1e995

  function MixStep(h: bv32, b: Byte): bv32 {
    var k := Crc32.Widen(b) * MIX;
    (h * MIX) ^ ((k ^ (k >> 24)) * MIX)
  }

  function Finish(h: bv32): bv32 {
    var g := (h ^ (h >> 13)) * MIX;
    g ^ (g >> 15)
  }

  function MurmurMix(key: Bytes): bv32 {
    Finish(Crc32.Fold(MixStep, MIX, key))
  }

  method ComputeFnv1a(key: Bytes) returns (hash: bv32)
    ensures hash == Fnv1a(key)
  {
    hide FnvStep;
    hash := 2166136261;
    for i := 0 to |key|
      invariant hash == Crc32.Fold(FnvStep, 2166136261, key[..i])
    {
      assert key[..i + 1][..i] == key[..i];
      hash := FnvStep(hash, key[i]);
    }
    assert key[..|key|] == key;
  }

  method ComputeMurmurMix(key: Bytes) returns (hash: bv32)
    ensures hash == MurmurMix(key)
  {
    hide MixStep;
    hide Finish;
    hash := MIX;
    for i := 0 to |key|
      invariant hash == Crc32.Fold(MixStep, MIX, key[..i])
    {
      assert key[..i + 1][..i] == key[..i];
      hash := MixStep(hash, key[i]);
    }
    assert key[..|key|] == key;
    hash := Finish(hash);
  }

  /** A 32-bit word as a number. */
  function Number(w: bv32): nat {
    FromLe(Crc32.CrcBytes(w))
  }

  /** The i-th bit position for two hashes: (h1 + i * h2) mod 2^32 mod numBits. */
  function Spread(h1: bv32, h2: bv32, i: nat, numBits: nat): (p: nat)
    requires numBits > 0
    ensures p < numBits
  {
    (Number(h1) + i * Number(h2)) % U32_SIZE % numBits
  }

  /** The i-th bit position of a key. */
  function Position(key: Bytes, i: nat, numBits: nat): (p: nat)
    requires numBits > 0
    ensures p < numBits
  {
    Spread(Fnv1a(key), MurmurMix(key), i, numBits)
  }

  // ---- Bits. ----

  function Mask(i: nat): bv8
    requires i < 8
  {
    match i
    case 0 => 0x01 case 1 => 0x02 case 2 => 0x04 case 3 => 0x08
    case 4 => 0x10 case 5 => 0x20 case 6 => 0x40 case 7 => 0x80
  }

  predicate BitOn(b: bv8, i: nat)
    requires i < 8
  {
    b & Mask(i) != 0
  }

  function TurnOn(b: bv8, i: nat): bv8
    requires i < 8
  {
    b | Mask(i)
  }

  predicate GetBit(bits: seq<bv8>, pos: nat)
    requires pos / 8 < |bits|
  {
    BitOn(bits[pos / 8], pos % 8)
  }

  function SetBit(bits: seq<bv8>, pos: nat): (r: seq<bv8>)
    requires pos / 8 < |bits|
    ensures |r| == |bits|
  {
    bits[pos / 8 := TurnOn(bits[pos / 8], pos % 8)]
  }

  lemma TurnOnExact(b: bv8, i: nat, j: nat)
    requires i < 8 && j < 8
    ensures BitOn(TurnOn(b, i), j) <==> BitOn(b, j) || i == j
  {
    MasksDisjoint(i, j);
    OrAnd(b, Mask(i), Mask(j));
  }

  lemma MasksDisjoint(i: nat, j: nat)
    requires i < 8 && j < 8
    ensures Mask(i) & Mask(j) != 0 <==> i == j
  {
  }

  lemma OrAnd(b: bv8, m: bv8, n: bv8)
    ensures (b | m) & n != 0 <==> b & n != 0 || m & n != 0
  {
  }

  /** Setting a bit sets that bit and no other. */
  lemma SetBitExact(bits: seq<bv8>, pos: nat, q: nat)
    requires pos / 8 < |bits| && q / 8 < |bits|
    ensures GetBit(SetBit(bits, pos), q) <==> GetBit(bits, q) || q == pos
  {
    hide BitOn;
    hide TurnOn;
    TurnOnExact(bits[q / 8], pos % 8, q % 8);
    SamePosition(pos, q);
  }

  lemma SamePosition(p: nat, q: nat)
    ensures p / 8 == q / 8 && p % 8 == q % 8 <==> p == q
  {
  }

  // ---- Sizes. ----

  /** The largest entry count whose filter size does not wrap in 32 bits. */
  const MAX_ENTRIES: nat := 429_496_728
  const NUM_HASHES: nat := 7

  function NumBitsFor(entries: nat): nat {
    var b := entries * 10 % U32_SIZE;
    if b < 64 then 64 else b
  }

  /** `(num_bits + 7) / 8` in 32-bit arithmetic. */
  function ByteLength(numBits: nat): nat {
    (numBits + 7) % U32_SIZE / 8
  }

  /** Every position of a filter fits its byte vector exactly when the size sum does not wrap. */
  lemma PositionsInBounds(numBits: nat)
    requires 0 < numBits < U32_SIZE
    ensures (forall p :: 0 <= p < numBits ==> p / 8 < ByteLength(numBits)) <==> numBits + 7 < U32_SIZE
  {
    if numBits + 7 >= U32_SIZE {
      assert (numBits - 1) / 8 >= ByteLength(numBits);
    }
  }

  /** For every entry count: the positions fit exactly when ten bits a key, in 32 bits, stay seven below the wrap. */
  lemma FilterFits(entries: nat)
    ensures (forall p :: 0 <= p < NumBitsFor(entries) ==> p / 8 < ByteLength(NumBitsFor(entries))) <==>
      entries * 10 % U32_SIZE + 7 < U32_SIZE
  {
    hide ByteLength;
    PositionsInBounds(NumBitsFor(entries));
  }

  lemma SizesFit(entries: nat)
    requires entries <= MAX_ENTRIES
    ensures NumBitsFor(entries) + 7 < U32_SIZE
    ensures NumBitsFor(entries) == if entries < 7 then 64 else 10 * entries
    ensures 8 * ByteLength(NumBitsFor(entries)) >= NumBitsFor(entries)
  {
  }

  /** One entry more and the sum wraps: the vector is empty while positions remain. */
  lemma FirstWrap()
    ensures NumBitsFor(MAX_ENTRIES + 1) + 7 >= U32_SIZE
    ensures ByteLength(NumBitsFor(MAX_ENTRIES + 1)) == 0
  {
  }

  // ---- Filters as values. ----

  datatype Filter = Filter(bits: seq<bv8>, numBits: nat, numHashes: nat) {
    ghost predicate Valid() {
      0 < numBits <= 8 * |bits|
    }

    /** The set bit positions. */
    ghost function View(): set<nat>
      requires Valid()
    {
      set p | 0 <= p < numBits && GetBit(bits, p)
    }

    /** `possibly_contains`. */
    method PossiblyContains(key: Bytes) returns (r: bool)
      requires Valid()
      ensures r <==> Admits(this, key)
    {
      hide Spread;
      hide GetBit;
      hide Fnv1a;
      hide MurmurMix;
      var h1 := ComputeFnv1a(key);
      var h2 := ComputeMurmurMix(key);
      for i := 0 to numHashes
        invariant Positions(key, i, numBits) <= View()
      {
        var pos := Spread(h1, h2, i, numBits);
        if !GetBit(bits, pos) {
          assert pos in Positions(key, i + 1, numBits);
          PositionsGrow(key, i + 1, numHashes, numBits);
          return false;
        }
      }
      return true;
    }
  }

  /** The first n positions of a key. */
  ghost function Positions(key: Bytes, n: nat, numBits: nat): set<nat>
    requires numBits > 0
  {
    if n == 0 then {} else Positions(key, n - 1, numBits) + {Position(key, n - 1, numBits)}
  }

  lemma {:induction false} PositionsGrow(key: Bytes, m: nat, n: nat, numBits: nat)
    requires m <= n && numBits > 0
    ensures Positions(key, m, numBits) <= Positions(key, n, numBits)
    decreases n
  {
    hide Position;
    if m < n {
      PositionsGrow(key, m, n - 1, numBits);
    }
  }

  function SetPositions(f: Filter, key: Bytes, n: nat): (g: Filter)
    requires f.Valid()
    ensures g.Valid() && g.numBits == f.numBits && g.numHashes == f.numHashes && |g.bits| == |f.bits|
  {
    if n == 0 then f
    else
      var g := SetPositions(f, key, n - 1);
      g.(bits := SetBit(g.bits, Position(key, n - 1, g.numBits)))
  }

  /** `add` as a function of the filter. */
  function WithKey(f: Filter, key: Bytes): (g: Filter)
    requires f.Valid()
    ensures g.Valid() && g.numBits == f.numBits && g.numHashes == f.numHashes && |g.bits| == |f.bits|
  {
    SetPositions(f, key, f.numHashes)
  }

  lemma SetBitView(f: Filter, pos: nat)
    requires f.Valid() && pos < f.numBits
    ensures f.(bits := SetBit(f.bits, pos)).View() == f.View() + {pos}
  {
    hide GetBit;
    hide SetBit;
    var g := f.(bits := SetBit(f.bits, pos));
    forall q | 0 <= q < f.numBits ensures q in g.View() <==> q in f.View() + {pos} {
      SetBitExact(f.bits, pos, q);
    }
  }

  lemma {:induction false} SetPositionsView(f: Filter, key: Bytes, n: nat)
    requires f.Valid()
    ensures SetPositions(f, key, n).View() == f.View() + Positions(key, n, f.numBits)
  {
    hide Position;
    hide SetBit;
    if n > 0 {
      SetPositionsView(f, key, n - 1);
      SetBitView(SetPositions(f, key, n - 1), Position(key, n - 1, f.numBits));
    }
  }

  /** Adding a key sets its positions and nothing else. */
  lemma WithKeyView(f: Filter, key: Bytes)
    requires f.Valid()
    ensures WithKey(f, key).View() == f.View() + Positions(key, f.numHashes, f.numBits)
  {
    SetPositionsView(f, key, f.numHashes);
  }

  function Empty(entries: nat): (f: Filter)
    requires entries <= MAX_ENTRIES
    ensures f.Valid() && f.numHashes == NUM_HASHES && f.numBits == NumBitsFor(entries)
  {
    SizesFit(entries);
    var n := NumBitsFor(entries);
    Filter(seq(ByteLength(n), _ => 0), n, NUM_HASHES)
  }

  function WithKeys(f: Filter, keys: seq<Bytes>): (g: Filter)
    requires f.Valid()
    ensures g.Valid() && g.numBits == f.numBits && g.numHashes == f.numHashes && |g.bits| == |f.bits|
  {
    if keys == [] then f else WithKey(WithKeys(f, keys[..|keys| - 1]), keys[|keys| - 1])
  }

  ghost predicate Admits(f: Filter, key: Bytes)
    requires f.Valid()
  {
    Positions(key, f.numHashes, f.numBits) <= f.View()
  }

  /** After any sequence of adds the filter admits every added key. */
  lemma {:induction false} NoFalseNegatives(f: Filter, keys: seq<Bytes>, i: nat)
    requires f.Valid() && i < |keys|
    ensures Admits(WithKeys(f, keys), keys[i])
  {
    hide Positions;
    hide WithKey;
    var init := keys[..|keys| - 1];
    WithKeyView(WithKeys(f, init), keys[|keys| - 1]);
    if i < |init| {
      NoFalseNegatives(f, init, i);
    }
  }

  // ---- Bytes on disk. ----

  function ToByte(b: bv8): Byte { b as int }

  function FromByte(b: Byte): bv8 { b as bv8 }

  function BitsToBytes(bits: seq<bv8>): (b: Bytes)
    ensures |b| == |bits|
  {
    seq(|bits|, i requires 0 <= i < |bits| => ToByte(bits[i]))
  }

  function BytesToBits(b: Bytes): (bits: seq<bv8>)
    ensures |bits| == |b|
  {
    seq(|b|, i requires 0 <= i < |b| => FromByte(b[i]))
  }

  lemma ByteRoundTrip(b: bv8)
    ensures FromByte(ToByte(b)) == b
  {
    Crc32.ByteOfBits(b);
  }

  /** A filter's bits survive being written to a file and read back. */
  lemma BitsRoundTrip(bits: seq<bv8>)
    ensures BytesToBits(BitsToBytes(bits)) == bits
  {
    hide ToByte;
    hide FromByte;
    forall i | 0 <= i < |bits| ensures BytesToBits(BitsToBytes(bits))[i] == bits[i] {
      ByteRoundTrip(bits[i]);
    }
  }

  // ---- The mutable filter. ----

  class BloomFilter {
    var bits: seq<bv8>
    const numBits: nat
    const numHashes: nat

    ghost predicate Valid()
      reads this
    {
      Value().Valid()
    }

    function Value(): Filter
      reads this
    {
      Filter(bits, numBits, numHashes)
    }

    /** `create_for_entries`. */
    constructor ForEntries(entries: nat)
      requires entries <= MAX_ENTRIES
      ensures Valid() && Value() == Empty(entries)
    {
      var b := entries * 10 % U32_SIZE;
      var n := if b < 64 then 64 else b;
      bits, numBits, numHashes := seq(ByteLength(n), _ => 0), n, NUM_HASHES;
    }

    /** `add`. */
    method Add(key: Bytes)
      requires Valid()
      modifies this
      ensures Valid() && Value() == WithKey(old(Value()), key)
    {
      hide Spread;
      hide SetBit;
      hide Fnv1a;
      hide MurmurMix;
      var h1 := ComputeFnv1a(key);
      var h2 := ComputeMurmurMix(key);
      for i := 0 to numHashes
        invariant Valid() && Value() == SetPositions(old(Value()), key, i)
      {
        var pos := Spread(h1, h2, i, numBits);
        bits := SetBit(bits, pos);
      }
    }
  }
}
