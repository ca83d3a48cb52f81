/** The bytes of an SSTable file (src/storage/sstable.cpp): sorted entries, a
    Bloom filter, a sparse index and a fixed-size footer. */
module SSTableFormat {
  import opened Bytes
  import opened Entries
  import opened Codec
  import opened Bloom

  const MAGIC: nat := 0x4D534454
  const TOMBSTONE_SIZE: nat := 0xFFFF_FFFF
  const INTERVAL: nat := 16
  const FOOTER_SIZE: nat := 32

  datatype IndexEntry = IndexEntry(key: Bytes, offset: nat)

  // ---- Entries. ----

  function ValSize(v: Version): nat {
    if v.Some? then |v.value| else TOMBSTONE_SIZE
  }

  function ValBytes(v: Version): Bytes {
    if v.Some? then v.value else []
  }

  function EncodeEntry(e: Entry): (b: Bytes)
    ensures |b| == 8 + |e.key| + |ValBytes(e.val)|
  {
    Le(|e.key|, 4) + Le(ValSize(e.val), 4) + e.key + ValBytes(e.val)
  }

  function EncodeEntries(es: seq<Entry>): Bytes {
    if es == [] then [] else EncodeEntries(es[..|es| - 1]) + EncodeEntry(es[|es| - 1])
  }

  /** Where entry i starts. */
  function Offset(es: seq<Entry>, i: nat): nat
    requires i <= |es|
  {
    |EncodeEntries(es[..i])|
  }

  lemma {:induction false} EncodeEntriesAppend(a: seq<Entry>, b: seq<Entry>)
    ensures EncodeEntries(a + b) == EncodeEntries(a) + EncodeEntries(b)
    decreases |b|
  {
    hide EncodeEntry;
    if b == [] {
      assert a + b == a;
    } else {
      var c := b[..|b| - 1];
      assert (a + b)[..|a + b| - 1] == a + c;
      EncodeEntriesAppend(a, c);
    }
  }

  lemma OffsetStep(es: seq<Entry>, i: nat)
    requires i < |es|
    ensures Offset(es, i + 1) == Offset(es, i) + 8 + |es[i].key| + |ValBytes(es[i].val)|
  {
    hide EncodeEntry;
    assert es[..i + 1][..i] == es[..i];
  }

  lemma {:induction false} OffsetMonotone(es: seq<Entry>, i: nat, j: nat)
    requires i < j <= |es|
    ensures Offset(es, i) < Offset(es, j)
    decreases j
  {
    OffsetStep(es, j - 1);
    if i < j - 1 {
      OffsetMonotone(es, i, j - 1);
    }
  }

  lemma EncodePrefix(es: seq<Entry>, i: nat)
    requires i < |es|
    ensures EncodeEntries(es[..i + 1]) == EncodeEntries(es[..i]) + EncodeEntry(es[i])
  {
    hide EncodeEntry;
    assert es[..i + 1][..i] == es[..i];
  }

  /** The encoding around entry i. */
  lemma EntrySplit(es: seq<Entry>, i: nat)
    requires i < |es|
    ensures EncodeEntries(es) == EncodeEntries(es[..i]) + EncodeEntry(es[i]) + EncodeEntries(es[i + 1..])
  {
    hide EncodeEntry;
    hide EncodeEntries;
    EncodePrefix(es, i);
    EncodeEntriesAppend(es[..i + 1], es[i + 1..]);
    assert es == es[..i + 1] + es[i + 1..];
  }

  // ---- The sparse index. ----

  /** Every 16th entry, starting with the first. */
  function SparseIndex(es: seq<Entry>): seq<IndexEntry> {
    if es == [] then []
    else
      var n := |es| - 1;
      SparseIndex(es[..n]) + if n % INTERVAL == 0 then [IndexEntry(es[n].key, Offset(es, n))] else []
  }

  lemma OffsetOfPrefix(es: seq<Entry>, n: nat, i: nat)
    requires i <= n <= |es|
    ensures Offset(es[..n], i) == Offset(es, i)
  {
    hide EncodeEntries;
    assert es[..n][..i] == es[..i];
  }

  lemma {:induction false} SparseIndexAt(es: seq<Entry>)
    ensures |SparseIndex(es)| == (|es| + 15) / 16
    ensures forall j :: 0 <= j < |SparseIndex(es)| ==> 16 * j < |es|
    ensures forall j {:trigger SparseIndex(es)[j]} :: 0 <= j < |SparseIndex(es)| ==>
        SparseIndex(es)[j] == IndexEntry(es[16 * j].key, Offset(es, 16 * j))
  {
    hide Offset;
    if es != [] {
      var t := es[..|es| - 1];
      SparseIndexAt(t);
      forall j | 0 <= j < |SparseIndex(t)| ensures Offset(t, 16 * j) == Offset(es, 16 * j) {
        OffsetOfPrefix(es, |t|, 16 * j);
      }
    }
  }

  function EncodeIndexEntry(x: IndexEntry): (b: Bytes)
    ensures |b| == 12 + |x.key|
  {
    Le(|x.key|, 4) + Le(x.offset, 8) + x.key
  }

  function EncodeIndex(ix: seq<IndexEntry>): Bytes {
    if ix == [] then [] else EncodeIndex(ix[..|ix| - 1]) + EncodeIndexEntry(ix[|ix| - 1])
  }

  lemma {:induction false} EncodeIndexAppend(a: seq<IndexEntry>, b: seq<IndexEntry>)
    ensures EncodeIndex(a + b) == EncodeIndex(a) + EncodeIndex(b)
    decreases |b|
  {
    hide EncodeIndexEntry;
    if b == [] {
      assert a + b == a;
    } else {
      var c := b[..|b| - 1];
      assert (a + b)[..|a + b| - 1] == a + c;
      EncodeIndexAppend(a, c);
    }
  }

  lemma IndexSplit(ix: seq<IndexEntry>, i: nat)
    requires i < |ix|
    ensures EncodeIndex(ix) == EncodeIndex(ix[..i]) + EncodeIndexEntry(ix[i]) + EncodeIndex(ix[i + 1..])
    ensures EncodeIndex(ix[..i + 1]) == EncodeIndex(ix[..i]) + EncodeIndexEntry(ix[i])
  {
    hide EncodeIndexEntry;
    hide EncodeIndex;
    IndexPrefix(ix, i);
    EncodeIndexAppend(ix[..i + 1], ix[i + 1..]);
    assert ix == ix[..i + 1] + ix[i + 1..];
  }

  lemma IndexPrefix(ix: seq<IndexEntry>, i: nat)
    requires i < |ix|
    ensures EncodeIndex(ix[..i + 1]) == EncodeIndex(ix[..i]) + EncodeIndexEntry(ix[i])
  {
    hide EncodeIndexEntry;
    assert ix[..i + 1][..i] == ix[..i];
  }

  // ---- The filter section and the footer. ----

  function Keys(es: seq<Entry>): (ks: seq<Bytes>)
    ensures |ks| == |es|
  {
    seq(|es|, i requires 0 <= i < |es| => es[i].key)
  }

  function FilterOf(es: seq<Entry>): (f: Filter)
    requires |es| <= MAX_ENTRIES
    ensures f.Valid() && f.numHashes == NUM_HASHES && f.numBits == NumBitsFor(|es|)
    ensures |f.bits| == ByteLength(NumBitsFor(|es|))
  {
    WithKeys(Bloom.Empty(|es|), Keys(es))
  }

  function EncodeFilter(f: Filter): (b: Bytes)
    ensures |b| == 8 + |f.bits|
  {
    Le(f.numBits, 4) + Le(f.numHashes, 4) + BitsToBytes(f.bits)
  }

  datatype Footer = Footer(bloomOffset: nat, bloomSize: nat, indexOffset: nat, numIndex: nat, numEntries: nat)

  function EncodeFooter(f: Footer): (b: Bytes)
    ensures |b| == FOOTER_SIZE
  {
    Le(f.bloomOffset, 8) + Le(f.bloomSize, 4) + Le(f.indexOffset, 8) + Le(f.numIndex, 4) + Le(f.numEntries,
      4) + Le(MAGIC, 4)
  }

  function FooterOf(es: seq<Entry>): Footer
    requires |es| <= MAX_ENTRIES
  {
    var d, b := |EncodeEntries(es)|, |EncodeFilter(FilterOf(es))|;
    Footer(d, b, d + b, |SparseIndex(es)|, |es|)
  }

  /** The file `build` writes. */
  function FileOf(es: seq<Entry>): Bytes
    requires |es| <= MAX_ENTRIES
  {
    EncodeEntries(es) + EncodeFilter(FilterOf(es)) + EncodeIndex(SparseIndex(es)) + EncodeFooter(FooterOf(es))
  }

  /** Every field of the file fits its width. */
  ghost predicate Writable(es: seq<Entry>) {
    && |es| <= MAX_ENTRIES
    && (forall e :: e in es ==> |e.key| < U32_SIZE && ValSize(e.val) < U32_SIZE)
    && |FileOf(es)| < U64_SIZE
  }

  /** A list `build` stores without loss: sorted, not empty, and no value as long as the tombstone marker. */
  ghost predicate Storable(es: seq<Entry>) {
    && es != []
    && StrictlySorted(es)
    && Writable(es)
    && forall e :: e in es && e.val.Some? ==> |e.val.value| < TOMBSTONE_SIZE
  }

  lemma StorableIsWritable(es: seq<Entry>)
    requires Storable(es)
    ensures Writable(es)
  {
    hide Writable;
  }

  lemma FooterInRange(es: seq<Entry>)
    requires Writable(es)
    ensures var f := FooterOf(es);
      f.bloomOffset < U64_SIZE && f.bloomSize < U32_SIZE && f.indexOffset < U64_SIZE
      && f.numIndex < U32_SIZE && f.numEntries < U32_SIZE && f.bloomSize >= 8
  {
    hide FilterOf;
    hide EncodeEntries;
    hide EncodeIndex;
    SizesFit(|es|);
    SparseIndexAt(es);
  }
}
