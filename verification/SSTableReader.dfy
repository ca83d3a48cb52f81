/** `SSTableReader` (src/storage/sstable.cpp): opening a file, and the three read
    paths over its bytes. */
module SSTableReader {
  import opened Bytes
  import opened Entries
  import opened Codec
  import opened Bloom
  import opened SSTableFormat
  import opened MemTable
  import SSTableWriter

  // ---- One entry at a byte position. ----

  /** An entry's header and key, without its value. */
  datatype Head = Head(key: Bytes, isTomb: bool, valSize: nat)

  /** None stands for a short read. */
  function HeadAt(file: Bytes, pos: nat): Option<Head> {
    if |file| < pos + 8 then None
    else
      var ks, vs := FromLe(file[pos..pos + 4]), FromLe(file[pos + 4..pos + 8]);
      if |file| < pos + 8 + ks then None
      else Some(Head(file[pos + 8..pos + 8 + ks], vs == TOMBSTONE_SIZE, if vs == TOMBSTONE_SIZE then 0 else vs))
  }

  function HeadOf(e: Entry): Head {
    Head(e.key, e.val.None?, |ValBytes(e.val)|)
  }

  ghost predicate FieldsFit(e: Entry) {
    |e.key| < U32_SIZE && (e.val.Some? ==> |e.val.value| < TOMBSTONE_SIZE)
  }

  method ReadHead(file: Bytes, pos: nat) returns (h: Option<Head>)
    ensures h == HeadAt(file, pos)
  {
    hide FromLe;
    if |file| < pos + 8 {
      return None;
    }
    var ks := DecodeU32(file[pos..pos + 4]);
    var vs := DecodeU32(file[pos + 4..pos + 8]);
    if |file| < pos + 8 + ks {
      return None;
    }
    return Some(Head(file[pos + 8..pos + 8 + ks], vs == TOMBSTONE_SIZE, if vs == TOMBSTONE_SIZE then 0 else vs));
  }

  lemma EntryLayout(e: Entry)
    ensures var m := EncodeEntry(e);
      && m[..4] == Le(|e.key|, 4)
      && m[4..8] == Le(ValSize(e.val), 4)
      && m[8..8 + |e.key|] == e.key
      && m[8 + |e.key|..|m|] == ValBytes(e.val)
  {
    hide Le;
  }

  /** An encoded entry reads back, wherever it stands. */
  lemma HeadOfEntry(a: Bytes, e: Entry, b: Bytes)
    requires FieldsFit(e)
    ensures var file := a + EncodeEntry(e) + b;
      && HeadAt(file, |a|) == Some(HeadOf(e))
      && file[|a| + 8 + |e.key|..|a| + |EncodeEntry(e)|] == ValBytes(e.val)
  {
    hide Le;
    hide FromLe;
    hide EncodeEntry;
    var m := EncodeEntry(e);
    EntryLayout(e);
    SliceMiddle(a, m, b, 0, 4);
    SliceMiddle(a, m, b, 4, 8);
    SliceMiddle(a, m, b, 8, 8 + |e.key|);
    SliceMiddle(a, m, b, 8 + |e.key|, |m|);
    U32RoundTrip(|e.key|);
    U32RoundTrip(ValSize(e.val));
  }

  /** The file holds the encoding of `es` at its front. */
  ghost predicate StartsWithEntries(file: Bytes, es: seq<Entry>) {
    && |EncodeEntries(es)| <= |file|
    && file[..|EncodeEntries(es)|] == EncodeEntries(es)
    && forall e :: e in es ==> FieldsFit(e)
  }

  /** Entry i of the file, at its offset. */
  lemma EntryAt(file: Bytes, es: seq<Entry>, i: nat)
    requires StartsWithEntries(file, es) && i < |es|
    ensures var pos := Offset(es, i); var next := Offset(es, i + 1);
      && HeadAt(file, pos) == Some(HeadOf(es[i]))
      && next == pos + 8 + |es[i].key| + |ValBytes(es[i].val)| <= |file|
      && file[pos + 8 + |es[i].key|..next] == ValBytes(es[i].val)
  {
    hide EncodeEntry;
    hide EncodeEntries;
    hide HeadAt;
    var n := |EncodeEntries(es)|;
    var a, m, b := EncodeEntries(es[..i]), EncodeEntry(es[i]), EncodeEntries(es[i + 1..]) + file[n..];
    EntrySplit(es, i);
    assert file == file[..n] + file[n..];
    assert file == a + m + b;
    assert es[i] in es;
    HeadOfEntry(a, es[i], b);
    OffsetStep(es, i);
  }

  // ---- The whole data section. ----

  /** `read_all_entries` from a position: entries until the end of the data or a short read. */
  function ReadFrom(file: Bytes, pos: nat, end: nat): seq<Entry>
    decreases if pos <= |file| then |file| - pos else 0
  {
    if pos >= end then []
    else
      match HeadAt(file, pos)
      case None => []
      case Some(h) =>
        var v := pos + 8 + |h.key|;
        if |file| < v + h.valSize then []
        else [Entry(h.key, if h.isTomb then None else Some(file[v..v + h.valSize]))] + ReadFrom(file, v + h.valSize,
          end)
  }

  lemma ReadOne(file: Bytes, es: seq<Entry>, i: nat, end: nat)
    requires StartsWithEntries(file, es) && i < |es| && Offset(es, i) < end
    ensures ReadFrom(file, Offset(es, i), end) == [es[i]] + ReadFrom(file, Offset(es, i + 1), end)
  {
    hide Offset;
    hide HeadAt;
    hide StartsWithEntries;
    EntryAt(file, es, i);
  }

  lemma {:induction false} ReadFromEntry(file: Bytes, es: seq<Entry>, i: nat)
    requires StartsWithEntries(file, es) && i <= |es|
    ensures ReadFrom(file, Offset(es, i), Offset(es, |es|)) == es[i..]
    decreases |es| - i
  {
    hide Offset;
    hide HeadAt;
    if i < |es| {
      OffsetMonotone(es, i, |es|);
      ReadOne(file, es, i, Offset(es, |es|));
      ReadFromEntry(file, es, i + 1);
    }
  }

  // ---- The footer. ----

  /** `read_footer` and `validate`: a file too short or without the magic number is refused. */
  predicate HasMagic(file: Bytes) {
    |file| >= FOOTER_SIZE && FromLe(file[|file| - 4..]) == MAGIC
  }

  function ParseFooter(file: Bytes): Option<Footer> {
    if !HasMagic(file) then None
    else
      var t := file[|file| - FOOTER_SIZE..];
      Some(Footer(FromLe(t[..8]), FromLe(t[8..12]), FromLe(t[12..20]), FromLe(t[20..24]), FromLe(t[24..28])))
  }

  method Validate(file: Bytes) returns (b: bool)
    ensures b == HasMagic(file)
  {
    hide FromLe;
    if |file| < FOOTER_SIZE {
      return false;
    }
    var footer := file[|file| - FOOTER_SIZE..];
    assert footer[28..32] == file[|file| - 4..];
    var magic := DecodeU32(footer[28..32]);
    return magic == MAGIC;
  }

  method ReadFooter(file: Bytes) returns (f: Option<Footer>)
    ensures f == ParseFooter(file)
    ensures f.Some? ==> f.value.bloomSize < U32_SIZE && f.value.numIndex < U32_SIZE
  {
    hide FromLe;
    var ok := Validate(file);
    if !ok {
      return None;
    }
    var t := file[|file| - FOOTER_SIZE..];
    var bloomOffset := DecodeU64(t[..8]);
    var bloomSize := DecodeU32(t[8..12]);
    var indexOffset := DecodeU64(t[12..20]);
    var numIndex := DecodeU32(t[20..24]);
    var numEntries := DecodeU32(t[24..28]);
    return Some(Footer(bloomOffset, bloomSize, indexOffset, numIndex, numEntries));
  }

  lemma FooterLayout(f: Footer)
    ensures var t := EncodeFooter(f);
      && t[..8] == Le(f.bloomOffset, 8) && t[8..12] == Le(f.bloomSize, 4) && t[12..20] == Le(f.indexOffset, 8)
      && t[20..24] == Le(f.numIndex, 4) && t[24..28] == Le(f.numEntries, 4) && t[28..32] == Le(MAGIC, 4)
  {
    hide Le;
  }

  lemma FooterOfBuilt(es: seq<Entry>)
    requires Storable(es)
    ensures HasMagic(FileOf(es)) && ParseFooter(FileOf(es)) == Some(FooterOf(es))
  {
    hide Le;
    hide FromLe;
    hide FooterOf;
    hide EncodeFooter;
    var f, t := FooterOf(es), EncodeFooter(FooterOf(es));
    FileEndsWithFooter(es);
    FooterLayout(f);
    FooterInRange(es);
    U64RoundTrip(f.bloomOffset);
    U32RoundTrip(f.bloomSize);
    U64RoundTrip(f.indexOffset);
    U32RoundTrip(f.numIndex);
    U32RoundTrip(f.numEntries);
    U32RoundTrip(MAGIC);
  }

  lemma FileEndsWithFooter(es: seq<Entry>)
    requires |es| <= MAX_ENTRIES
    ensures var file := FileOf(es); var t := EncodeFooter(FooterOf(es));
      |file| >= FOOTER_SIZE && file[|file| - FOOTER_SIZE..] == t && file[|file| - 4..] == t[28..32]
  {
    hide EncodeEntries;
    hide EncodeIndex;
    hide SparseIndex;
    hide FilterOf;
    hide EncodeFilter;
    hide EncodeFooter;
  }

  // ---- What a file holds. ----

  /** The entries a reader finds in a file. */
  function Contents(file: Bytes): seq<Entry> {
    match ParseFooter(file)
    case None => []
    case Some(f) => ReadFrom(file, 0, f.bloomOffset)
  }

  lemma BuiltStartsWithEntries(es: seq<Entry>)
    requires Storable(es)
    ensures StartsWithEntries(FileOf(es), es)
  {
    hide EncodeEntries;
    hide EncodeIndex;
    hide SparseIndex;
    hide FilterOf;
    hide EncodeFilter;
    hide EncodeFooter;
  }

  /** Writing a list and reading the file back gives the same list. */
  lemma ContentsOfBuilt(es: seq<Entry>)
    requires Storable(es)
    ensures Contents(FileOf(es)) == es
  {
    hide FileOf;
    hide ReadFrom;
    hide ParseFooter;
    FooterOfBuilt(es);
    BuiltStartsWithEntries(es);
    ReadFromEntry(FileOf(es), es, 0);
    assert es[..0] == [] && es[..|es|] == es && es[0..] == es;
  }

  /** Different lists give different files. */
  lemma FileOfInjective(a: seq<Entry>, b: seq<Entry>)
    requires Storable(a) && Storable(b) && FileOf(a) == FileOf(b)
    ensures a == b
  {
    ContentsOfBuilt(a);
    ContentsOfBuilt(b);
  }

  // ---- The open table. ----

  /** The reader's fields; the file is immutable once written. */
  datatype Reader = Reader(
    file: Bytes,
    index: seq<IndexEntry>,
    bloom: Option<Filter>,
    numEntries: nat,
    bloomOffset: nat,
    minKey: Bytes,
    maxKey: Bytes)
  {
    ghost function Listed(): seq<Entry> {
      Contents(file)
    }

    /** The reader was opened on a file that `build` wrote. */
    ghost predicate Valid() {
      Storable(Listed()) && this == ReaderOf(Listed())
    }
  }

  ghost function ReaderOf(es: seq<Entry>): Reader
    requires Storable(es)
  {
    Reader(FileOf(es), SparseIndex(es), Some(FilterOf(es)), |es|, Offset(es, |es|), es[0].key, es[|es| - 1].key)
  }

  lemma ReaderOfValid(es: seq<Entry>)
    requires Storable(es)
    ensures ReaderOf(es).Valid() && ReaderOf(es).Listed() == es
  {
    ContentsOfBuilt(es);
  }

  // ---- Opening. ----

  /** `read_bloom`. The size field counts the eight header bytes, so the data length wraps below eight. */
  method ReadBloom(file: Bytes, f: Footer) returns (r: Option<Option<Filter>>)
    requires f.bloomSize < U32_SIZE
    ensures f.bloomSize >= 8 && f.bloomOffset + f.bloomSize <= |file| ==>
      r == Some(Some(DecodeFilter(file[f.bloomOffset..f.bloomOffset + f.bloomSize])))
  {
    hide FromLe;
    hide BytesToBits;
    if f.bloomSize == 0 {
      return Some(None);
    }
    var o := f.bloomOffset;
    if |file| < o + 8 {
      return None;
    }
    var numBits := DecodeU32(file[o..o + 4]);
    var numHashes := DecodeU32(file[o + 4..o + 8]);
    var dataSize := (f.bloomSize - 8) % U32_SIZE;
    if |file| < o + 8 + dataSize {
      return None;
    }
    r := Some(Some(Filter(BytesToBits(file[o + 8..o + 8 + dataSize]), numBits, numHashes)));
    if f.bloomSize >= 8 {
      SectionSlices(file, o, f.bloomSize);
    }
  }

  function DecodeFilter(s: Bytes): Filter
    requires |s| >= 8
  {
    Filter(BytesToBits(s[8..]), FromLe(s[..4]), FromLe(s[4..8]))
  }

  lemma SectionSlices(file: Bytes, o: nat, n: nat)
    requires 8 <= n && o + n <= |file|
    ensures var s := file[o..o + n];
      s[8..] == file[o + 8..o + n] && s[..4] == file[o..o + 4] && s[4..8] == file[o + 4..o + 8]
  {
    SliceOfSlice(file, o, o + n, 0, 4);
    SliceOfSlice(file, o, o + n, 4, 8);
    SliceOfSlice(file, o, o + n, 8, n);
  }

  lemma FilterRoundTrip(f: Filter)
    requires f.numBits < U32_SIZE && f.numHashes < U32_SIZE
    ensures DecodeFilter(EncodeFilter(f)) == f
  {
    hide Le;
    hide FromLe;
    hide BitsToBytes;
    hide BytesToBits;
    var s := EncodeFilter(f);
    assert s[..4] == Le(f.numBits, 4) && s[4..8] == Le(f.numHashes, 4) && s[8..] == BitsToBytes(f.bits);
    U32RoundTrip(f.numBits);
    U32RoundTrip(f.numHashes);
    BitsRoundTrip(f.bits);
  }

  /** The file holds the encoding of `ix` at `offset`. */
  ghost predicate HoldsIndex(file: Bytes, offset: nat, ix: seq<IndexEntry>) {
    && offset + |EncodeIndex(ix)| <= |file|
    && file[offset..offset + |EncodeIndex(ix)|] == EncodeIndex(ix)
    && forall x :: x in ix ==> |x.key| < U32_SIZE && x.offset < U64_SIZE
  }

  /** None stands for a short read. */
  function IndexEntryAt(file: Bytes, pos: nat): Option<IndexEntry> {
    if |file| < pos + 12 then None
    else
      var ks := FromLe(file[pos..pos + 4]);
      if |file| < pos + 12 + ks then None
      else Some(IndexEntry(file[pos + 12..pos + 12 + ks], FromLe(file[pos + 4..pos + 12])))
  }

  lemma IndexEntryLayout(x: IndexEntry)
    ensures var m := EncodeIndexEntry(x);
      m[..4] == Le(|x.key|, 4) && m[4..12] == Le(x.offset, 8) && m[12..|m|] == x.key
  {
    hide Le;
  }

  lemma IndexEntryReads(a: Bytes, x: IndexEntry, b: Bytes)
    requires |x.key| < U32_SIZE && x.offset < U64_SIZE
    ensures IndexEntryAt(a + EncodeIndexEntry(x) + b, |a|) == Some(x)
  {
    hide Le;
    hide FromLe;
    hide EncodeIndexEntry;
    var m := EncodeIndexEntry(x);
    IndexEntryLayout(x);
    SliceMiddle(a, m, b, 0, 4);
    SliceMiddle(a, m, b, 4, 12);
    SliceMiddle(a, m, b, 12, |m|);
    U32RoundTrip(|x.key|);
    U64RoundTrip(x.offset);
  }

  lemma IndexReads(file: Bytes, offset: nat, ix: seq<IndexEntry>, i: nat)
    requires HoldsIndex(file, offset, ix) && i < |ix|
    ensures var pos := offset + |EncodeIndex(ix[..i])|;
      && IndexEntryAt(file, pos) == Some(ix[i])
      && pos + 12 + |ix[i].key| == offset + |EncodeIndex(ix[..i + 1])|
  {
    hide EncodeIndexEntry;
    hide EncodeIndex;
    hide IndexEntryAt;
    var n := offset + |EncodeIndex(ix)|;
    var p, m, q := EncodeIndex(ix[..i]), EncodeIndexEntry(ix[i]), EncodeIndex(ix[i + 1..]);
    IndexSplit(ix, i);
    assert file == file[..offset] + file[offset..n] + file[n..];
    assert file == (file[..offset] + p) + m + (q + file[n..]);
    assert ix[i] in ix;
    IndexEntryReads(file[..offset] + p, ix[i], q + file[n..]);
  }

  /** `read_index`: as many entries as the footer counts (`capacity()` taken to be the reserved count). */
  method ReadIndex(file: Bytes, offset: nat, count: nat, ghost ix: seq<IndexEntry>) returns (r: Option<seq<IndexEntry>>)
    ensures HoldsIndex(file, offset, ix) && count == |ix| ==> r == Some(ix)
  {
    hide FromLe;
    hide HoldsIndex;
    hide EncodeIndex;
    ghost var sound := HoldsIndex(file, offset, ix) && count == |ix|;
    var index: seq<IndexEntry>, pos: nat := [], offset;
    IndexStart(ix);
    for i := 0 to count
      invariant sound ==> index == ix[..i] && pos == offset + |EncodeIndex(ix[..i])|
    {
      if sound {
        IndexReads(file, offset, ix, i);
      }
      if |file| < pos + 12 {
        return None;
      }
      var ks := DecodeU32(file[pos..pos + 4]);
      var off := DecodeU64(file[pos + 4..pos + 12]);
      if |file| < pos + 12 + ks {
        return None;
      }
      index := index + [IndexEntry(file[pos + 12..pos + 12 + ks], off)];
      pos := pos + 12 + ks;
    }
    assert ix[..|ix|] == ix;
    return Some(index);
  }

  lemma IndexStart(ix: seq<IndexEntry>)
    ensures EncodeIndex(ix[..0]) == []
  {
  }

  /** The constructor's walk over the data for the last key. */
  method LastKey(file: Bytes, end: nat, ghost es: seq<Entry>) returns (last: Bytes)
    ensures StartsWithEntries(file, es) && end == Offset(es, |es|) && es != [] ==> last == es[|es| - 1].key
  {
    hide StartsWithEntries;
    hide HeadAt;
    hide Offset;
    ghost var sound := StartsWithEntries(file, es) && end == Offset(es, |es|);
    OffsetStart(es);
    last := [];
    var pos := 0;
    ghost var i := 0;
    while pos < end
      invariant sound ==> i <= |es| && pos == Offset(es, i) && (i > 0 ==> last == es[i - 1].key)
      decreases if pos < end then end - pos else 0
    {
      if sound {
        EntryAt(file, es, i);
      }
      var h := ReadHead(file, pos);
      if h.None? {
        break;
      }
      last := h.value.key;
      pos := pos + 8 + |h.value.key| + h.value.valSize;
      i := i + 1;
    }
    if sound && i < |es| {
      OffsetMonotone(es, i, |es|);
    }
  }

  lemma OffsetStart(es: seq<Entry>)
    ensures Offset(es, 0) == 0
  {
  }

  /** The sections of a built file. */
  lemma Sections(es: seq<Entry>)
    requires Storable(es)
    ensures var f := FooterOf(es); var file := FileOf(es);
      && f.bloomOffset + f.bloomSize <= |file|
      && file[f.bloomOffset..f.bloomOffset + f.bloomSize] == EncodeFilter(FilterOf(es))
      && f.indexOffset + |EncodeIndex(SparseIndex(es))| <= |file|
      && file[f.indexOffset..f.indexOffset + |EncodeIndex(SparseIndex(es))|] == EncodeIndex(SparseIndex(es))
      && f.bloomOffset == Offset(es, |es|)
  {
    hide EncodeEntries;
    hide EncodeFilter;
    hide EncodeIndex;
    hide EncodeFooter;
    hide FilterOf;
    hide SparseIndex;
    var d, b, x, t :=
      EncodeEntries(es), EncodeFilter(FilterOf(es)), EncodeIndex(SparseIndex(es)), EncodeFooter(FooterOf(es));
    assert d + b + x + t == d + b + (x + t);
    SliceMiddle(d, b, x + t, 0, |b|);
    SliceMiddle(d + b, x, t, 0, |x|);
    assert es[..|es|] == es;
  }

  lemma BuiltHoldsIndex(es: seq<Entry>)
    requires Storable(es)
    ensures HoldsIndex(FileOf(es), FooterOf(es).indexOffset, SparseIndex(es))
  {
    hide EncodeEntries;
    hide SparseIndex;
    hide EncodeIndex;
    hide FileOf;
    Sections(es);
    SSTableWriter.IndexInRange(es);
  }

  lemma BuiltFilterReads(es: seq<Entry>)
    requires Storable(es)
    ensures DecodeFilter(EncodeFilter(FilterOf(es))) == FilterOf(es)
  {
    hide FilterOf;
    hide EncodeFilter;
    hide DecodeFilter;
    SizesFit(|es|);
    FilterRoundTrip(FilterOf(es));
  }

  lemma IndexFront(es: seq<Entry>)
    requires Storable(es)
    ensures SparseIndex(es) != [] && SparseIndex(es)[0].key == es[0].key
  {
    SparseIndexAt(es);
  }

  /** The constructor: on a file that `build` wrote for `es`, every field is exactly that of `es`;
      a file without the magic number is refused. */
  method Open(file: Bytes, ghost es: seq<Entry>) returns (r: Option<Reader>)
    ensures IsBuilt(file, es) ==> r == Some(ReaderOf(es))
    ensures !HasMagic(file) ==> r == None
  {
    hide *;
    ghost var built := IsBuilt(file, es);
    var f := ReadFooter(file);
    OpenFacts(file, es);
    if f.None? {
      return None;
    }
    var bloom := ReadBloom(file, f.value);
    if bloom.None? {
      return None;
    }
    var index := ReadIndex(file, f.value.indexOffset, f.value.numIndex, SparseIndex(es));
    if index.None? {
      return None;
    }
    var minKey, maxKey := [], [];
    if index.value != [] {
      minKey := index.value[0].key;
      maxKey := LastKey(file, f.value.bloomOffset, es);
    }
    r := Some(Reader(file, index.value, bloom.value, f.value.numEntries, f.value.bloomOffset, minKey, maxKey));
    if built {
      ReaderFields(es, r.value);
    }
  }

  /** `file` is what `build` writes for `es`. */
  ghost predicate IsBuilt(file: Bytes, es: seq<Entry>) {
    Storable(es) && file == FileOf(es)
  }

  lemma ReaderFields(es: seq<Entry>, r: Reader)
    requires Storable(es)
    requires r.file == FileOf(es) && r.index == SparseIndex(es) && r.bloom == Some(FilterOf(es))
    requires r.numEntries == |es| && r.bloomOffset == Offset(es, |es|)
    requires r.minKey == es[0].key && r.maxKey == es[|es| - 1].key
    ensures r == ReaderOf(es)
  {
    hide FileOf;
    hide FilterOf;
    hide SparseIndex;
    hide Offset;
  }

  /** Everything opening a built file meets. */
  lemma OpenFacts(file: Bytes, es: seq<Entry>)
    ensures ParseFooter(file).Some? <==> HasMagic(file)
    ensures IsBuilt(file, es) ==>
      && Storable(es) && es != [] && |es| <= MAX_ENTRIES && ParseFooter(file).Some? && file == FileOf(es)
      && var f := ParseFooter(file).value;
      && f.bloomSize >= 8 && f.bloomOffset + f.bloomSize <= |file|
      && DecodeFilter(file[f.bloomOffset..f.bloomOffset + f.bloomSize]) == FilterOf(es)
      && HoldsIndex(file, f.indexOffset, SparseIndex(es)) && f.numIndex == |SparseIndex(es)|
      && SparseIndex(es) != [] && SparseIndex(es)[0].key == es[0].key
      && StartsWithEntries(file, es) && f.bloomOffset == Offset(es, |es|)
      && f.numEntries == |es|
  {
    hide FileOf;
    hide EncodeFilter;
    hide HoldsIndex;
    hide SparseIndex;
    hide StartsWithEntries;
    hide DecodeFilter;
    hide EncodeEntries;
    hide FromLe;
    hide FilterOf;
    if IsBuilt(file, es) {
      FooterOfBuilt(es);
      FooterInRange(es);
      Sections(es);
      BuiltFilterReads(es);
      BuiltHoldsIndex(es);
      IndexFront(es);
      BuiltStartsWithEntries(es);
    }
  }

  // ---- Facts the read paths use. ----

  /** What a valid reader's fields say about its entries. */
  lemma ReaderFacts(r: Reader)
    requires r.Valid()
    ensures var es := r.Listed();
      && es != [] && StrictlySorted(es)
      && StartsWithEntries(r.file, es) && r.bloomOffset == Offset(es, |es|)
      && r.minKey == es[0].key && r.maxKey == es[|es| - 1].key
      && r.index == SparseIndex(es) && r.index != []
      && r.bloom.Some? && |es| <= MAX_ENTRIES && r.bloom.value == FilterOf(es) && r.bloom.value.Valid()
  {
    hide SparseIndex;
    hide FileOf;
    hide FilterOf;
    hide Contents;
    hide StartsWithEntries;
    hide Offset;
    BuiltStartsWithEntries(r.Listed());
    IndexFront(r.Listed());
  }

  /** Index entry j stands for entry 16j and knows its offset. */
  lemma IndexKeys(es: seq<Entry>, j: nat)
    requires j < |SparseIndex(es)|
    ensures 16 * j < |es| && SparseIndex(es)[j] == IndexEntry(es[16 * j].key, Offset(es, 16 * j))
    ensures (|es| - 1) / 16 == |SparseIndex(es)| - 1
  {
    hide Offset;
    SparseIndexAt(es);
  }

  lemma IndexSorted(es: seq<Entry>, i: nat, j: nat)
    requires StrictlySorted(es) && i < j < |SparseIndex(es)|
    ensures Less(SparseIndex(es)[i].key, SparseIndex(es)[j].key)
  {
    hide Offset;
    hide Less;
    IndexKeys(es, i);
    IndexKeys(es, j);
  }

  /** The filter never denies a key of the table. */
  lemma FilterAdmits(es: seq<Entry>, i: nat)
    requires |es| <= MAX_ENTRIES && i < |es|
    ensures Admits(FilterOf(es), es[i].key)
  {
    hide Admits;
    hide WithKeys;
    NoFalseNegatives(Bloom.Empty(|es|), Keys(es), i);
  }

  lemma DeniedIsAbsent(r: Reader, key: Bytes)
    requires r.Valid() && !Admits(FilterOf(r.Listed()), key)
    ensures Find(r.Listed(), key) == None
  {
    hide FilterOf;
    hide Admits;
    hide Contents;
    hide FileOf;
    var es := r.Listed();
    if Find(es, key).Some? {
      var i := IndexOf(es, key);
      FilterAdmits(es, i);
    }
  }

  lemma OutsideIsAbsent(es: seq<Entry>, key: Bytes)
    requires es != [] && StrictlySorted(es)
    requires Less(key, es[0].key) || Less(es[|es| - 1].key, key)
    ensures Find(es, key) == None
  {
    hide Less;
    if Less(key, es[0].key) {
      FindNone(es, 0, key);
    } else {
      FindNone(es, |es|, key);
    }
  }

  // ---- The binary search. ----

  /** The last index entry not above the key, or the first entry when all are above. */
  ghost predicate Located(index: seq<IndexEntry>, key: Bytes, idx: nat) {
    && idx < |index|
    && (idx == 0 || !Less(key, index[idx].key))
    && forall j :: idx < j < |index| ==> Less(key, index[j].key)
  }

  /** The search loop of `get` and `scan`; `hi` never drops below zero. */
  method Locate(index: seq<IndexEntry>, key: Bytes) returns (idx: nat)
    requires index != []
    requires forall i, j :: 0 <= i < j < |index| ==> Less(index[i].key, index[j].key)
    ensures Located(index, key, idx)
  {
    hide Less;
    var lo: nat, hi: nat := 0, |index| - 1;
    idx := 0;
    while lo <= hi
      invariant hi < |index| && (idx == lo == 0 || idx == lo - 1) && idx <= hi
      invariant idx == 0 || !Less(key, index[idx].key)
      invariant forall j :: hi < j < |index| ==> Less(key, index[j].key)
      decreases hi + 1 - lo
    {
      var mid := lo + (hi - lo) / 2;
      if !Less(key, index[mid].key) {
        idx := mid;
        if mid == hi {
          break;
        }
        lo := mid + 1;
      } else {
        forall j | mid < j < |index| ensures Less(key, index[j].key) {
          LessTransitive(key, index[mid].key, index[j].key);
        }
        if mid == 0 {
          break;
        }
        hi := mid - 1;
      }
    }
  }

  // ---- The read paths. ----

  lemma NextEntry(file: Bytes, es: seq<Entry>, i: nat, end: nat, lim: nat)
    requires StartsWithEntries(file, es) && i <= lim <= |es| && end == Offset(es, lim)
    ensures Offset(es, i) < end <==> i < lim
    ensures i < lim ==> HeadAt(file, Offset(es, i)) == Some(HeadOf(es[i]))
    ensures i < lim ==> Offset(es, i + 1) == Offset(es, i) + 8 + |es[i].key| + |ValBytes(es[i].val)| <= |file|
    ensures i < lim ==> file[Offset(es, i) + 8 + |es[i].key|..Offset(es, i + 1)] == ValBytes(es[i].val)
  {
    hide *;
    if i < lim {
      OffsetMonotone(es, i, lim);
      EntryAt(file, es, i);
    }
  }

  /** `scan_from`: walk entries lo..lim of the file looking for the key. */
  method ScanFrom(file: Bytes, start: nat, end: nat, key: Bytes, ghost es: seq<Entry>, ghost lo: nat, ghost lim: nat)
    returns (r: LookupResult)
    requires StrictlySorted(es) && StartsWithEntries(file, es)
    requires lo <= lim <= |es| && start == Offset(es, lo) && end == Offset(es, lim)
    requires lo > 0 ==> Less(es[lo - 1].key, key)
    requires lim < |es| ==> Less(key, es[lim].key)
    ensures r == Reported(Find(es, key))
  {
    hide StartsWithEntries;
    hide Offset;
    hide HeadAt;
    hide Less;
    hide Find;
    var pos := start;
    ghost var i := lo;
    while pos < end
      invariant lo <= i <= lim && pos == Offset(es, i)
      invariant i > 0 ==> Less(es[i - 1].key, key)
      decreases lim - i
    {
      NextEntry(file, es, i, end, lim);
      var h := ReadHead(file, pos);
      if h.None? {
        break;
      }
      var v := pos + 8 + |h.value.key|;
      if h.value.key == key {
        FindAt(es, i);
        if h.value.isTomb {
          return LookupResult(true, true, []);
        }
        if |file| < v + h.value.valSize {
          break;
        }
        return LookupResult(true, false, file[v..v + h.value.valSize]);
      }
      if Less(key, h.value.key) {
        FindNone(es, i, key);
        return LookupResult(false, false, []);
      }
      LessTotal(h.value.key, key);
      pos := v + h.value.valSize;
      i := i + 1;
    }
    NextEntry(file, es, i, end, lim);
    FindNone(es, i, key);
    return LookupResult(false, false, []);
  }

  /** The block the search picks brackets the key. */
  lemma BlockBrackets(es: seq<Entry>, key: Bytes, idx: nat)
    requires es != [] && StrictlySorted(es) && !Less(key, es[0].key)
    requires Located(SparseIndex(es), key, idx)
    ensures 16 * idx < |es|
    ensures 16 * idx > 0 ==> Less(es[16 * idx - 1].key, key)
    ensures idx + 1 < |SparseIndex(es)| ==> 16 * (idx + 1) < |es| && Less(key, es[16 * (idx + 1)].key)
  {
    hide Less;
    hide SparseIndex;
    IndexKeys(es, idx);
    if idx + 1 < |SparseIndex(es)| {
      IndexKeys(es, idx + 1);
    }
    if idx > 0 {
      BelowAtMost(es[16 * idx - 1].key, es[16 * idx].key, key);
    }
  }

  lemma BelowAtMost(a: Bytes, b: Bytes, k: Bytes)
    requires Less(a, b) && !Less(k, b)
    ensures Less(a, k)
  {
    LessIsStrictTotalOrder();
  }

  lemma IndexIsSorted(es: seq<Entry>)
    requires StrictlySorted(es)
    ensures forall i, j :: 0 <= i < j < |SparseIndex(es)| ==> Less(SparseIndex(es)[i].key, SparseIndex(es)[j].key)
  {
    hide *;
    forall i, j | 0 <= i < j < |SparseIndex(es)| ensures Less(SparseIndex(es)[i].key, SparseIndex(es)[j].key) {
      IndexSorted(es, i, j);
    }
  }

  lemma NotFoundIsNone()
    ensures Reported(None) == LookupResult(false, false, [])
  {
  }

  /** `get`: range check, Bloom filter, binary search and block scan give exactly the plain look-up
      in the list the file was built from. */
  method Get(r: Reader, key: Bytes) returns (res: LookupResult)
    requires r.Valid()
    ensures res == Reported(Find(r.Listed(), key))
  {
    hide *;
    ghost var es := r.Listed();
    ReaderFacts(r);
    NotFoundIsNone();
    if Less(key, r.minKey) || Less(r.maxKey, key) {
      OutsideIsAbsent(es, key);
      return LookupResult(false, false, []);
    }
    var admitted := r.bloom.value.PossiblyContains(key);
    if !admitted {
      DeniedIsAbsent(r, key);
      return LookupResult(false, false, []);
    }
    res := GetFromBlock(r, key, es);
  }

  /** The part of `get` behind the filter. */
  method GetFromBlock(r: Reader, key: Bytes, ghost es: seq<Entry>) returns (res: LookupResult)
    requires es != [] && StrictlySorted(es) && !Less(key, es[0].key)
    requires StartsWithEntries(r.file, es) && r.index == SparseIndex(es) != [] && r.bloomOffset == Offset(es, |es|)
    ensures res == Reported(Find(es, key))
  {
    hide *;
    IndexIsSorted(es);
    var idx := Locate(r.index, key);
    BlockBrackets(es, key, idx);
    assert idx < |r.index| by { LocatedInRange(r.index, key, idx); }
    IndexKeys(es, idx);
    if idx + 1 < |r.index| {
      IndexKeys(es, idx + 1);
      res := ScanFrom(r.file, r.index[idx].offset, r.index[idx + 1].offset, key, es, 16 * idx, 16 * (idx + 1));
    } else {
      res := ScanFrom(r.file, r.index[idx].offset, r.bloomOffset, key, es, 16 * idx, |es|);
    }
  }

  lemma LocatedInRange(index: seq<IndexEntry>, key: Bytes, idx: nat)
    requires Located(index, key, idx)
    ensures idx < |index|
  {
  }

  lemma ScanStart(es: seq<Entry>, lo: Bytes, hi: Bytes, idx: nat)
    requires es != [] && StrictlySorted(es) && Located(SparseIndex(es), lo, idx)
    ensures 16 * idx < |es| && SparseIndex(es)[idx].offset == Offset(es, 16 * idx)
    ensures Range(es[..16 * idx], lo, hi) == []
  {
    hide SparseIndex;
    hide Offset;
    hide Range;
    hide Less;
    hide InRange;
    IndexKeys(es, idx);
    forall i | 0 <= i < 16 * idx ensures Less(es[i].key, lo) {
      BelowAtMost(es[i].key, es[16 * idx].key, lo);
    }
    BelowRange(es[..16 * idx], lo, hi);
    RangeNone(es[..16 * idx], lo, hi);
  }

  lemma RangeStep(es: seq<Entry>, i: nat, lo: Bytes, hi: Bytes)
    requires i < |es|
    ensures Range(es[..i + 1], lo, hi) == Range(es[..i], lo, hi) + if InRange(es[i].key, lo, hi) then [es[i]] else []
  {
    hide InRange;
    assert es[..i + 1][..i] == es[..i];
  }

  lemma RangeEnds(es: seq<Entry>, i: nat, lo: Bytes, hi: Bytes)
    requires StrictlySorted(es) && i <= |es| && (i < |es| ==> Less(hi, es[i].key))
    ensures Range(es, lo, hi) == Range(es[..i], lo, hi)
  {
    hide *;
    assert es == es[..i] + es[i..];
    assert StrictlySorted(es[i..]) by { SuffixSorted(es, i); }
    AboveRange(es[i..], lo, hi);
    RangeNone(es[i..], lo, hi);
    RangeAppend(es[..i], es[i..], lo, hi);
  }

  lemma SuffixSorted(es: seq<Entry>, i: nat)
    requires StrictlySorted(es) && i <= |es|
    ensures StrictlySorted(es[i..])
  {
    hide Less;
  }

  lemma RangeOutside(es: seq<Entry>, lo: Bytes, hi: Bytes)
    requires es != [] && StrictlySorted(es)
    requires Less(hi, es[0].key) || Less(es[|es| - 1].key, lo)
    ensures Range(es, lo, hi) == []
  {
    hide Range;
    hide InRange;
    if Less(hi, es[0].key) {
      AboveRange(es, lo, hi);
    } else {
      LessIsStrictTotalOrder();
      BelowRange(es, lo, hi);
    }
    RangeNone(es, lo, hi);
  }

  lemma InRangeMeans(k: Bytes, lo: Bytes, hi: Bytes)
    ensures InRange(k, lo, hi) <==> !Less(k, lo) && !Less(hi, k)
  {
    LessIsStrictTotalOrder();
  }

  /** `scan`: from the sparse-index offset on, exactly the entries with start <= key <= end, tombstones included. */
  method Scan(r: Reader, start: Bytes, end: Bytes) returns (result: seq<Entry>)
    requires r.Valid()
    ensures result == Range(r.Listed(), start, end)
  {
    hide *;
    ghost var es := r.Listed();
    ReaderFacts(r);
    if Less(end, r.minKey) || Less(r.maxKey, start) {
      RangeOutside(es, start, end);
      return [];
    }
    IndexIsSorted(es);
    var idx := Locate(r.index, start);
    LocatedInRange(r.index, start, idx);
    ScanStart(es, start, end, idx);
    result := ScanEntries(r.file, r.index[idx].offset, r.bloomOffset, start, end, es, 16 * idx);
  }

  method ScanEntries(file: Bytes, offset: nat, stop: nat, start: Bytes, end: Bytes, ghost es: seq<Entry>,
      ghost from: nat)
    returns (result: seq<Entry>)
    requires StrictlySorted(es) && StartsWithEntries(file, es)
    requires from <= |es| && offset == Offset(es, from) && stop == Offset(es, |es|)
    requires Range(es[..from], start, end) == []
    ensures result == Range(es, start, end)
  {
    hide Less;
    hide Range;
    hide InRange;
    hide Offset;
    hide HeadAt;
    hide StartsWithEntries;
    hide StrictlySorted;
    result := [];
    var pos := offset;
    ghost var i := from;
    while pos < stop
      invariant from <= i <= |es| && pos == Offset(es, i)
      invariant result == Range(es[..i], start, end)
      decreases |es| - i
    {
      NextEntry(file, es, i, stop, |es|);
      var h := ReadHead(file, pos);
      if h.None? {
        break;
      }
      var v := pos + 8 + |h.value.key|;
      if Less(end, h.value.key) {
        RangeEnds(es, i, start, end);
        return;
      }
      RangeStep(es, i, start, end);
      InRangeMeans(es[i].key, start, end);
      if !Less(h.value.key, start) {
        if |file| < v + h.value.valSize {
          break;
        }
        var val := if h.value.isTomb then None else Some(file[v..v + h.value.valSize]);
        result := result + [Entry(h.value.key, val)];
      }
      pos := v + h.value.valSize;
      i := i + 1;
    }
    NextEntry(file, es, i, stop, |es|);
    assert es[..|es|] == es;
  }

  /** `read_all_entries`: the list the file was built from. */
  method ReadAllEntries(r: Reader) returns (result: seq<Entry>)
    requires r.Valid()
    ensures result == r.Listed()
  {
    hide *;
    ghost var es := r.Listed();
    ReaderFacts(r);
    result := ReadEntries(r.file, r.bloomOffset, es);
  }

  method ReadEntries(file: Bytes, stop: nat, ghost es: seq<Entry>) returns (result: seq<Entry>)
    requires StartsWithEntries(file, es) && stop == Offset(es, |es|)
    ensures result == es
  {
    hide Offset;
    hide HeadAt;
    hide StartsWithEntries;
    OffsetStart(es);
    result := [];
    var pos := 0;
    while pos < stop
      invariant |result| <= |es| && result == es[..|result|] && pos == Offset(es, |result|)
      decreases |es| - |result|
    {
      ghost var i := |result|;
      NextEntry(file, es, i, stop, |es|);
      var h := ReadHead(file, pos);
      if h.None? {
        break;
      }
      var v := pos + 8 + |h.value.key|;
      if !h.value.isTomb && |file| < v + h.value.valSize {
        break;
      }
      var val := if h.value.isTomb then None else Some(file[v..v + h.value.valSize]);
      result := result + [Entry(h.value.key, val)];
      pos := v + h.value.valSize;
    }
    NextEntry(file, es, |result|, stop, |es|);
  }

  // ---- Half-written files. ----

  /** `validate` looks at the last four bytes only. */
  lemma MagicBytes(file: Bytes)
    ensures HasMagic(file) <==> |file| >= FOOTER_SIZE && file[|file| - 4..] == Le(MAGIC, 4)
  {
    hide Le;
    hide FromLe;
    U32RoundTrip(MAGIC);
    if |file| >= FOOTER_SIZE && FromLe(file[|file| - 4..]) == MAGIC {
      FromLeInjective(file[|file| - 4..], Le(MAGIC, 4));
    }
  }

  /** The magic bytes end at offset n, where a cut file would be long enough. */
  predicate MagicInside(file: Bytes, n: nat)
    requires n <= |file|
  {
    n >= FOOTER_SIZE && file[n - 4..n] == Le(MAGIC, 4)
  }

  lemma CutValidates(file: Bytes, n: nat)
    requires n <= |file|
    ensures HasMagic(file[..n]) <==> MagicInside(file, n)
  {
    hide Le;
    hide HasMagic;
    MagicBytes(file[..n]);
    if n >= FOOTER_SIZE {
      assert file[..n][n - 4..] == file[n - 4..n];
    }
  }

  /** Some half-written form of a table passes `validate` if and only if the magic bytes also occur
      before the end of its file, at byte 32 or later. */
  lemma HalfWrittenValidates(es: seq<Entry>)
    requires |es| <= MAX_ENTRIES
    ensures (exists n :: 0 <= n < |FileOf(es)| && HasMagic(FileOf(es)[..n])) <==>
      (exists n :: FOOTER_SIZE <= n < |FileOf(es)| && MagicInside(FileOf(es), n))
  {
    hide FileOf;
    hide HasMagic;
    var file := FileOf(es);
    forall n | 0 <= n < |file| ensures HasMagic(file[..n]) <==> MagicInside(file, n) { CutValidates(file, n); }
    if n :| FOOTER_SIZE <= n < |file| && MagicInside(file, n) {
      assert HasMagic(file[..n]);
    }
  }

  /** And that does happen: cut any table right behind the magic bytes inside its first value. */
  lemma HalfWrittenCanPass(k: Bytes, before: Bytes, behind: Bytes, es: seq<Entry>)
    requires |before| >= 24 && behind != []
    requires es == [Entry(k, Some(before + Le(MAGIC, 4) + behind))] && Storable(es)
    ensures var n := 8 + |k| + |before| + 4; n < |FileOf(es)| && HasMagic(FileOf(es)[..n])
  {
    hide Le;
    hide HasMagic;
    hide EncodeFilter;
    hide FilterOf;
    hide EncodeIndex;
    hide SparseIndex;
    hide EncodeFooter;
    hide Storable;
    var e, n := es[0], 8 + |k| + |before| + 4;
    var file := FileOf(es);
    assert EncodeEntries(es) == EncodeEntry(e) by { assert es[..0] == [] && [] + EncodeEntry(e) == EncodeEntry(e); }
    var tail := EncodeFilter(FilterOf(es)) + EncodeIndex(SparseIndex(es)) + EncodeFooter(FooterOf(es));
    assert file == EncodeEntry(e) + tail;
    var head := Le(|k|, 4) + Le(ValSize(e.val), 4) + k + before;
    assert file == head + Le(MAGIC, 4) + (behind + tail);
    SliceMiddle(head, Le(MAGIC, 4), behind + tail, 0, 4);
    assert Le(MAGIC, 4)[0..4] == Le(MAGIC, 4);
    assert file[n - 4..n] == Le(MAGIC, 4);
    CutValidates(file, n);
  }
}
