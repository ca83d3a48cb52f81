/** Worked values of the file formats (include/mosaicdb/common.h, src/index/bloom_filter.cpp, src/storage/sstable.cpp):
    the bytes that small inputs must have, whatever the constants are called. */
module KnownAnswers {
  import opened Bytes
  import opened Entries
  import opened Codec
  import opened Bloom
  import opened SSTableFormat
  import opened Wal
  import opened Machine
  import opened Layers
  import opened Compaction
  import Crc32
  import Keyspace = Keys

  // ---- Hashes. ----

  lemma FoldOne<T>(step: (T, Byte) -> T, init: T, a: Byte, b: Byte)
    ensures Crc32.Fold(step, init, [a]) == step(init, a)
    ensures Crc32.Fold(step, init, [a, b]) == step(step(init, a), b)
  {
    assert [a, b][..1] == [a] && [a][..0] == [];
  }

  /** FNV-1a of "", "a" and "ab". */
  lemma Fnv1aValues()
    ensures Fnv1a([]) == 0x811C9DC5
    ensures Fnv1a([0x61]) == 0xE40C292C
    ensures Fnv1a([0x61, 0x62]) == 0x4D2505CA
  {
    FoldOne(FnvStep, 2166136261, 0x61, 0x62);
    assert Crc32.Widen(0x61) == 0x61 && Crc32.Widen(0x62) == 0x62;
  }

  /** The second hash of "a" and "ab". */
  lemma MurmurMixValues()
    ensures MurmurMix([0x61]) == 0xEC3414AF
    ensures MurmurMix([0x61, 0x62]) == 0x42E07372
  {
    FoldOne(MixStep, MIX, 0x61, 0x62);
    assert Crc32.Widen(0x61) == 0x61 && Crc32.Widen(0x62) == 0x62;
  }

  // ---- A filter. ----

  lemma Numbers()
    ensures Number(0xE40C292C) == 3826002220 && Number(0xEC3414AF) == 3962836143
  {
    assert Crc32.CrcBytes(0xE40C292C) == [0x2C, 0x29, 0x0C, 0xE4];
    assert Crc32.CrcBytes(0xEC3414AF) == [0xAF, 0x14, 0x34, 0xEC];
    FromLeFour(0x2C, 0x29, 0x0C, 0xE4);
    FromLeFour(0xAF, 0x14, 0x34, 0xEC);
  }

  lemma FromLeFour(a: Byte, b: Byte, c: Byte, d: Byte)
    ensures FromLe([a, b, c, d]) == a + 0x100 * b + 0x1_0000 * c + 0x100_0000 * d
  {
    assert [a, b, c, d][1..] == [b, c, d] && [b, c, d][1..] == [c, d] && [c, d][1..] == [d] && [d][1..] == [];
    assert FromLe([d]) == d && FromLe([c, d]) == c + 256 * FromLe([d]);
    assert FromLe([b, c, d]) == b + 256 * FromLe([c, d]);
  }

  /** The seven bits that "a" sets in a filter of 64. */
  lemma PositionsOfA()
    ensures Position([0x61], 0, 64) == 44 && Position([0x61], 1, 64) == 27
    ensures Position([0x61], 2, 64) == 10 && Position([0x61], 3, 64) == 57
    ensures Position([0x61], 4, 64) == 40 && Position([0x61], 5, 64) == 23 && Position([0x61], 6, 64) == 6
  {
    hide Fnv1a;
    hide MurmurMix;
    hide Number;
    Fnv1aValues();
    MurmurMixValues();
    Numbers();
  }

  /** Setting the next position of "a" in a filter of 64 bits. */
  lemma NextBit(f: Filter, n: nat, pos: nat, before: seq<bv8>, after: seq<bv8>)
    requires f.Valid() && f.numBits == 64 && Position([0x61], n, 64) == pos
    requires SetPositions(f, [0x61], n).bits == before && |before| == 8 && after == SetBit(before, pos)
    ensures SetPositions(f, [0x61], n + 1).bits == after
  {
    hide Position;
    hide SetBit;
  }

  lemma EmptyFilter()
    ensures var f := Bloom.Empty(1);
      f.bits == [0, 0, 0, 0, 0, 0, 0, 0] && f.numBits == 64 && f.numHashes == 7 && SetPositions(f, [0x61], 0) == f
  {
    hide Position;
  }

  lemma TwoBits()
    ensures SetPositions(Bloom.Empty(1), [0x61], 2).bits == [0x00, 0x00, 0x00, 0x08, 0x00, 0x10, 0x00, 0x00]
  {
    hide Position;
    hide SetPositions;
    hide Bloom.Empty;
    PositionsOfA();
    EmptyFilter();
    NextBit(Bloom.Empty(1), 0, 44, [0x00, 0x00, 0x00, 0x00, 0x00, 0x00, 0x00, 0x00],
      [0x00, 0x00, 0x00, 0x00, 0x00, 0x10, 0x00, 0x00]);
    NextBit(Bloom.Empty(1), 1, 27, [0x00, 0x00, 0x00, 0x00, 0x00, 0x10, 0x00, 0x00],
      [0x00, 0x00, 0x00, 0x08, 0x00, 0x10, 0x00, 0x00]);
  }

  lemma FourBits()
    ensures SetPositions(Bloom.Empty(1), [0x61], 4).bits == [0x00, 0x04, 0x00, 0x08, 0x00, 0x10, 0x00, 0x02]
  {
    hide Position;
    hide SetPositions;
    hide Bloom.Empty;
    PositionsOfA();
    EmptyFilter();
    TwoBits();
    NextBit(Bloom.Empty(1), 2, 10, [0x00, 0x00, 0x00, 0x08, 0x00, 0x10, 0x00, 0x00],
      [0x00, 0x04, 0x00, 0x08, 0x00, 0x10, 0x00, 0x00]);
    NextBit(Bloom.Empty(1), 3, 57, [0x00, 0x04, 0x00, 0x08, 0x00, 0x10, 0x00, 0x00],
      [0x00, 0x04, 0x00, 0x08, 0x00, 0x10, 0x00, 0x02]);
  }

  lemma SevenBits()
    ensures SetPositions(Bloom.Empty(1), [0x61], 7).bits == [0x40, 0x04, 0x80, 0x08, 0x00, 0x11, 0x00, 0x02]
  {
    hide Position;
    hide SetPositions;
    hide Bloom.Empty;
    PositionsOfA();
    EmptyFilter();
    FourBits();
    NextBit(Bloom.Empty(1), 4, 40, [0x00, 0x04, 0x00, 0x08, 0x00, 0x10, 0x00, 0x02],
      [0x00, 0x04, 0x00, 0x08, 0x00, 0x11, 0x00, 0x02]);
    NextBit(Bloom.Empty(1), 5, 23, [0x00, 0x04, 0x00, 0x08, 0x00, 0x11, 0x00, 0x02],
      [0x00, 0x04, 0x80, 0x08, 0x00, 0x11, 0x00, 0x02]);
    NextBit(Bloom.Empty(1), 6, 6, [0x00, 0x04, 0x80, 0x08, 0x00, 0x11, 0x00, 0x02],
      [0x40, 0x04, 0x80, 0x08, 0x00, 0x11, 0x00, 0x02]);
  }

  /** The eight bytes of the filter that holds just "a". */
  lemma FilterOfA()
    ensures BitsToBytes(WithKey(Bloom.Empty(1), [0x61]).bits) == [0x40, 0x04, 0x80, 0x08, 0x00, 0x11, 0x00, 0x02]
  {
    hide SetPositions;
    hide Bloom.Empty;
    EmptyFilter();
    SevenBits();
  }

  // ---- A table file. ----

  /** Small numbers in four and eight bytes. */
  lemma SmallLe(n: nat)
    requires n < 256
    ensures Le(n, 4) == [n, 0, 0, 0] && Le(n, 8) == [n, 0, 0, 0, 0, 0, 0, 0]
  {
    assert Le(0, 3) == [0, 0, 0] && Le(0, 7) == [0] + Le(0, 6) == [0, 0, 0] + Le(0, 4);
  }

  lemma MarkBytes()
    ensures Le(TOMBSTONE_SIZE, 4) == [0xFF, 0xFF, 0xFF, 0xFF]
    ensures Le(MAGIC, 4) == [0x54, 0x44, 0x53, 0x4D]
  {
    assert Le(0xFF_FFFF, 3) == [0xFF] + Le(0xFFFF, 2) && Le(0x4D5344, 3) == [0x44] + Le(0x4D53, 2);
  }

  /** A put and a removal of "a" as table entries. */
  lemma EntryBytes()
    ensures EncodeEntry(Entry([0x61], Some([0x62]))) == [0x01, 0x00, 0x00, 0x00, 0x01, 0x00, 0x00, 0x00, 0x61, 0x62]
    ensures EncodeEntry(Entry([0x61], None)) == [0x01, 0x00, 0x00, 0x00, 0xFF, 0xFF, 0xFF, 0xFF, 0x61]
  {
    hide Le;
    SmallLe(1);
    MarkBytes();
  }

  const ONE_PUT: seq<Entry> := [Entry([0x61], Some([0x62]))]

  lemma FilterBytes()
    ensures EncodeFilter(FilterOf(ONE_PUT)) ==
      [0x40, 0x00, 0x00, 0x00, 0x07, 0x00, 0x00, 0x00, 0x40, 0x04, 0x80, 0x08, 0x00, 0x11, 0x00, 0x02]
  {
    hide Le;
    hide Bloom.WithKey;
    hide Bloom.Empty;
    hide BitsToBytes;
    SmallLe(7);
    SmallLe(64);
    FilterOfA();
    assert Keys(ONE_PUT) == [[0x61]] && [[0x61]][..0] == [];
    var f := Bloom.Empty(1);
    assert Bloom.WithKeys(f, Keys(ONE_PUT)) == Bloom.WithKey(f, [0x61]);
  }

  lemma IndexBytes()
    ensures |SparseIndex(ONE_PUT)| == 1
    ensures EncodeIndex(SparseIndex(ONE_PUT)) ==
      [0x01, 0x00, 0x00, 0x00, 0x00, 0x00, 0x00, 0x00, 0x00, 0x00, 0x00, 0x00, 0x61]
  {
    hide Le;
    SmallLe(0);
    SmallLe(1);
    assert ONE_PUT[..0] == [];
    assert SparseIndex(ONE_PUT) == [IndexEntry([0x61], 0)];
    assert [IndexEntry([0x61], 0)][..0] == [];
  }

  lemma FooterBytes()
    ensures EncodeFooter(Footer(10, 16, 26, 1, 1)) ==
      [0x0A, 0x00, 0x00, 0x00, 0x00, 0x00, 0x00, 0x00, 0x10, 0x00, 0x00, 0x00] +
      [0x1A, 0x00, 0x00, 0x00, 0x00, 0x00, 0x00, 0x00, 0x01, 0x00, 0x00, 0x00] +
      [0x01, 0x00, 0x00, 0x00, 0x54, 0x44, 0x53, 0x4D]
  {
    hide Le;
    SmallLe(1);
    SmallLe(10);
    SmallLe(16);
    SmallLe(26);
    MarkBytes();
  }

  /** The whole file of the table that holds "a" with the value "b": entry, filter, index entry and footer. */
  lemma FileBytes()
    ensures FileOf(ONE_PUT) ==
      [0x01, 0x00, 0x00, 0x00, 0x01, 0x00, 0x00, 0x00, 0x61, 0x62] +
      [0x40, 0x00, 0x00, 0x00, 0x07, 0x00, 0x00, 0x00, 0x40, 0x04, 0x80, 0x08, 0x00, 0x11, 0x00, 0x02] +
      [0x01, 0x00, 0x00, 0x00, 0x00, 0x00, 0x00, 0x00, 0x00, 0x00, 0x00, 0x00, 0x61] +
      ([0x0A, 0x00, 0x00, 0x00, 0x00, 0x00, 0x00, 0x00, 0x10, 0x00, 0x00, 0x00] +
      [0x1A, 0x00, 0x00, 0x00, 0x00, 0x00, 0x00, 0x00, 0x01, 0x00, 0x00, 0x00] +
      [0x01, 0x00, 0x00, 0x00, 0x54, 0x44, 0x53, 0x4D])
  {
    hide Le;
    hide FilterOf;
    hide SparseIndex;
    hide EncodeFilter;
    hide EncodeIndex;
    hide EncodeEntry;
    hide EncodeFooter;
    EntryBytes();
    FilterBytes();
    IndexBytes();
    FooterBytes();
    assert ONE_PUT[..0] == [];
    assert EncodeEntries(ONE_PUT) == EncodeEntry(ONE_PUT[0]);
  }

  // ---- A log record. ----

  /** The op, the two lengths, key and value of a put of "k" with the value "v". */
  const PAYLOAD: Bytes := [0x01, 0x01, 0x00, 0x00, 0x00, 0x01, 0x00, 0x00, 0x00, 0x6B, 0x76]

  lemma CrcOfFour()
    ensures Crc32.Fold(Crc32.ByteStep, Crc32.ONES, PAYLOAD[..4]) == 0x67C52DB1
  {
    hide Crc32.Fold;
    hide Crc32.ByteStep;
    Crc32.FoldNone(PAYLOAD);
    Crc32.FoldMore(PAYLOAD, 0, 0x01, 0xFFFFFFFF, 0x5AFA20E4);
    Crc32.FoldMore(PAYLOAD, 1, 0x01, 0x5AFA20E4, 0xD03AECD7);
    Crc32.FoldMore(PAYLOAD, 2, 0x00, 0xD03AECD7, 0x18677D9B);
    Crc32.FoldMore(PAYLOAD, 3, 0x00, 0x18677D9B, 0x67C52DB1);
  }

  lemma CrcOfEight()
    ensures Crc32.Fold(Crc32.ByteStep, Crc32.ONES, PAYLOAD[..8]) == 0xF1C2418B
  {
    hide Crc32.Fold;
    hide Crc32.ByteStep;
    CrcOfFour();
    Crc32.FoldMore(PAYLOAD, 4, 0x00, 0x67C52DB1, 0xBC014637);
    Crc32.FoldMore(PAYLOAD, 5, 0x01, 0xBC014637, 0xCF0694DF);
    Crc32.FoldMore(PAYLOAD, 6, 0x00, 0xCF0694DF, 0x16A3C9D1);
    Crc32.FoldMore(PAYLOAD, 7, 0x00, 0x16A3C9D1, 0xF1C2418B);
  }

  lemma CrcOfPayload()
    ensures Crc32.Fold(Crc32.ByteStep, Crc32.ONES, PAYLOAD[..11]) == 0x4E074F2D
  {
    hide Crc32.Fold;
    hide Crc32.ByteStep;
    CrcOfEight();
    Crc32.FoldMore(PAYLOAD, 8, 0x00, 0xF1C2418B, 0x7A9B98E9);
    Crc32.FoldMore(PAYLOAD, 9, 0x6B, 0x7A9B98E9, 0x03CC7994);
    Crc32.FoldMore(PAYLOAD, 10, 0x76, 0x03CC7994, 0x4E074F2D);
  }

  /** The whole log record of a put of "k" with the value "v": checksum, op, the two lengths, key and value. */
  lemma RecordBytes()
    ensures Encode(RecordOf(Put([0x6B], [0x76]))) ==
      [0xD2, 0xB0, 0xF8, 0xB1, 0x01, 0x01, 0x00, 0x00, 0x00, 0x01, 0x00, 0x00, 0x00, 0x6B, 0x76]
  {
    hide Le;
    hide Crc32.Fold;
    hide Crc32.ByteStep;
    SmallLe(1);
    CrcOfPayload();
    assert PAYLOAD[..11] == PAYLOAD;
    assert Payload(RecordOf(Put([0x6B], [0x76]))) == PAYLOAD;
    assert Crc32.CrcBytes(0xB1F8B0D2) == [0xD2, 0xB0, 0xF8, 0xB1];
  }

  /** A removal is marked by the op byte 2 and has no value. */
  lemma RemovalRecord(k: Bytes)
    ensures RecordOf(Remove(k)) == Record(0x02, k, [])
  {
  }

  // ---- The marker of an empty compaction. ----

  /** Tables without a live key compact to the one key `__empty__`, with an empty value. */
  lemma EmptyCompaction(ls: seq<seq<Entry>>)
    requires View(Maps(ls)) == map[]
    ensures ToMap(Compacted(ls)) == map[Keyspace.Text("__empty__") := Some([])]
  {
    hide View;
    hide Compacted;
    hide ToMap;
    CompactedMap(ls);
    assert Keyspace.Text("__empty__") == EMPTY_KEY;
  }
}
