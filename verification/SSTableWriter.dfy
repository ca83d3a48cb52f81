/** `SSTableWriter::build` (src/storage/sstable.cpp). */
module SSTableWriter {
  import opened Bytes
  import opened Entries
  import opened Codec
  import Bloom
  import opened SSTableFormat

  /** One entry's header, key and value. */
  method WriteEntry(e: Entry) returns (b: Bytes)
    requires |e.key| < U32_SIZE && ValSize(e.val) < U32_SIZE
    ensures b == EncodeEntry(e)
  {
    hide Le;
    var keySize := EncodeU32(|e.key|);
    var valSize := EncodeU32(if e.val.Some? then |e.val.value| else TOMBSTONE_SIZE);
    b := keySize + valSize + e.key;
    if e.val.Some? && e.val.value != [] {
      b := b + e.val.value;
    }
  }

  method WriteIndex(index: seq<IndexEntry>) returns (b: Bytes)
    requires forall x :: x in index ==> |x.key| < U32_SIZE && x.offset < U64_SIZE
    ensures b == EncodeIndex(index)
  {
    hide Le;
    b := [];
    for i := 0 to |index|
      invariant b == EncodeIndex(index[..i])
    {
      IndexPrefix(index, i);
      var keySize := EncodeU32(|index[i].key|);
      var offset := EncodeU64(index[i].offset);
      b := b + (keySize + offset + index[i].key);
    }
    assert index[..|index|] == index;
  }

  method WriteFooter(f: Footer) returns (b: Bytes)
    requires f.bloomOffset < U64_SIZE && f.bloomSize < U32_SIZE && f.indexOffset < U64_SIZE
    requires f.numIndex < U32_SIZE && f.numEntries < U32_SIZE
    ensures b == EncodeFooter(f)
  {
    hide Le;
    var bloomOffset := EncodeU64(f.bloomOffset);
    var bloomSize := EncodeU32(f.bloomSize);
    var indexOffset := EncodeU64(f.indexOffset);
    var numIndex := EncodeU32(f.numIndex);
    var numEntries := EncodeU32(f.numEntries);
    var magic := EncodeU32(MAGIC);
    b := bloomOffset + bloomSize + indexOffset + numIndex + numEntries + magic;
  }

  method WriteFilter(f: Bloom.Filter) returns (b: Bytes)
    requires f.numBits < U32_SIZE && f.numHashes < U32_SIZE
    ensures b == EncodeFilter(f)
  {
    hide Le;
    hide Bloom.BitsToBytes;
    var numBits := EncodeU32(f.numBits);
    var numHashes := EncodeU32(f.numHashes);
    b := numBits + numHashes + Bloom.BitsToBytes(f.bits);
  }

  lemma KeysPrefix(es: seq<Entry>, i: nat)
    requires i < |es|
    ensures Keys(es[..i + 1]) == Keys(es[..i]) + [es[i].key]
  {
  }

  lemma FilterPrefix(f: Bloom.Filter, es: seq<Entry>, i: nat)
    requires f.Valid() && i < |es|
    ensures Bloom.WithKeys(f, Keys(es[..i + 1])) == Bloom.WithKey(Bloom.WithKeys(f, Keys(es[..i])), es[i].key)
  {
    hide Bloom.WithKey;
    KeysPrefix(es, i);
    var ks := Keys(es[..i + 1]);
    assert ks[..|ks| - 1] == Keys(es[..i]);
  }

  lemma IndexPrefixStep(es: seq<Entry>, i: nat)
    requires i < |es|
    ensures SparseIndex(es[..i + 1]) ==
        SparseIndex(es[..i]) + if i % INTERVAL == 0 then [IndexEntry(es[i].key, Offset(es, i))] else []
  {
    hide Offset;
    var p := es[..i + 1];
    assert p[..i] == es[..i];
    OffsetOfPrefix(es, i + 1, i);
  }

  /** The entry loop: data bytes, index and filter grow together. */
  method WriteEntries(es: seq<Entry>) returns (data: Bytes, index: seq<IndexEntry>, filter: Bloom.Filter)
    requires |es| <= Bloom.MAX_ENTRIES
    requires forall e :: e in es ==> |e.key| < U32_SIZE && ValSize(e.val) < U32_SIZE
    ensures data == EncodeEntries(es) && index == SparseIndex(es) && filter == FilterOf(es)
  {
    hide EncodeEntry;
    hide EncodeEntries;
    hide Bloom.WithKeys;
    hide Bloom.WithKey;
    hide Bloom.Empty;
    hide SparseIndex;
    hide Keys;
    StartOfLoop(es);
    var bloom := new Bloom.BloomFilter.ForEntries(|es|);
    data, index := [], [];
    var offset := 0;
    for i := 0 to |es|
      invariant data == EncodeEntries(es[..i]) && offset == |data|
      invariant index == SparseIndex(es[..i])
      invariant bloom.Valid() && bloom.Value() == Bloom.WithKeys(Bloom.Empty(|es|), Keys(es[..i]))
    {
      IndexPrefixStep(es, i);
      if i % INTERVAL == 0 {
        index := index + [IndexEntry(es[i].key, offset)];
      }
      FilterPrefix(Bloom.Empty(|es|), es, i);
      bloom.Add(es[i].key);
      EncodePrefix(es, i);
      var b := WriteEntry(es[i]);
      data := data + b;
      offset := offset + 8 + |es[i].key| + if es[i].val.Some? then |es[i].val.value| else 0;
    }
    assert es[..|es|] == es;
    filter := bloom.Value();
  }

  lemma StartOfLoop(es: seq<Entry>)
    requires |es| <= Bloom.MAX_ENTRIES
    ensures EncodeEntries(es[..0]) == [] && SparseIndex(es[..0]) == []
    ensures Bloom.WithKeys(Bloom.Empty(|es|), Keys(es[..0])) == Bloom.Empty(|es|)
  {
  }

  /** `build`: an empty list is refused; otherwise the file is exactly `FileOf`. */
  method Build(es: seq<Entry>) returns (s: Status, file: Bytes)
    requires es != [] ==> Writable(es)
    ensures es == [] ==> s == InvalidArgument
    ensures es != [] ==> s == OK && file == FileOf(es)
  {
    hide EncodeEntries;
    hide EncodeIndex;
    hide FilterOf;
    hide SparseIndex;
    hide EncodeFooter;
    hide EncodeFilter;
    if es == [] {
      return InvalidArgument, [];
    }
    var data, index, filter := WriteEntries(es);
    FooterInRange(es);
    IndexInRange(es);
    Bloom.SizesFit(|es|);
    var bloom := WriteFilter(filter);
    var indexBytes := WriteIndex(index);
    var footer := WriteFooter(Footer(|data|, |bloom|, |data| + |bloom|, |index|, |es|));
    s, file := OK, data + bloom + indexBytes + footer;
  }

  lemma IndexInRange(es: seq<Entry>)
    requires Writable(es)
    ensures forall x :: x in SparseIndex(es) ==> |x.key| < U32_SIZE && x.offset < U64_SIZE
  {
    hide EncodeEntries;
    hide SparseIndex;
    hide EncodeIndex;
    hide EncodeFooter;
    hide EncodeFilter;
    SparseIndexAt(es);
    forall x | x in SparseIndex(es) ensures |x.key| < U32_SIZE && x.offset < U64_SIZE {
      var j :| 0 <= j < |SparseIndex(es)| && SparseIndex(es)[j] == x;
      assert es[16 * j] in es;
      OffsetMonotone(es, 16 * j, |es|);
      assert es[..|es|] == es;
    }
  }
}
