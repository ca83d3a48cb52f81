/** `CompactionEngine::compact` (src/compaction/compaction.cpp). */
module Compaction {
  import opened Bytes
  import opened Entries
  import opened Layers
  import opened SSTableFormat
  import opened SSTableReader
  import SSTableWriter

  /** The bytes of "__empty__". */
  const EMPTY_KEY: Bytes := [0x5F, 0x5F, 0x65, 0x6D, 0x70, 0x74, 0x79, 0x5F, 0x5F]

  /** What compaction writes for the given listings, newest first. */
  function Compacted(ls: seq<seq<Entry>>): seq<Entry> {
    var r := LiveEntries(MergeLists(ls));
    if r == [] then [Entry(EMPTY_KEY, Some([]))] else r
  }

  ghost function Listings(rs: seq<Reader>): (ls: seq<seq<Entry>>)
    ensures |ls| == |rs|
  {
    seq(|rs|, i requires 0 <= i < |rs| => rs[i].Listed())
  }

  lemma CompactedSorted(ls: seq<seq<Entry>>)
    ensures Compacted(ls) != [] && StrictlySorted(Compacted(ls))
  {
    hide MergeLists;
    LiveEntriesSorted(MergeLists(ls));
  }

  lemma LiveListing(ls: seq<seq<Entry>>)
    ensures ToMap(LiveEntries(MergeLists(ls))) == AsLayer(View(Maps(ls)))
  {
    hide *;
    LiveEntriesMap(MergeLists(ls));
    MergeListsMap(ls);
    ViewDef(Maps(ls));
  }

  lemma ViewDef(ts: seq<Layer>)
    ensures View(ts) == Live(Merge(ts))
  {
  }

  /** The compacted table holds exactly the visible map of its inputs; when that map is
      empty, the key `__empty__` appears instead. */
  lemma CompactedMap(ls: seq<seq<Entry>>)
    ensures View(Maps(ls)) != map[] ==> ToMap(Compacted(ls)) == AsLayer(View(Maps(ls)))
    ensures View(Maps(ls)) == map[] ==> ToMap(Compacted(ls)) == map[EMPTY_KEY := Some([])]
  {
    hide View;
    hide MergeLists;
    hide Maps;
    LiveListing(ls);
    var r := LiveEntries(MergeLists(ls));
    if r != [] {
      LiveEntriesSorted(MergeLists(ls));
      MapHolds(r, 0);
    } else {
      assert AsLayer(View(Maps(ls))).Keys == View(Maps(ls)).Keys;
    }
  }

  /** So a reader of the compacted table sees the inputs' view, unless that view was empty. */
  lemma CompactionKeepsView(ls: seq<seq<Entry>>)
    ensures View([ToMap(Compacted(ls))]) == View(Maps(ls)) <==> View(Maps(ls)) != map[]
    ensures View(Maps(ls)) == map[] ==> View([ToMap(Compacted(ls))]) == map[EMPTY_KEY := []]
  {
    hide View;
    hide Compacted;
    hide Maps;
    CompactedMap(ls);
    ViewOfLive(View(Maps(ls)));
    var only: map<Bytes, Bytes> := map[EMPTY_KEY := []];
    ViewOfLive(only);
    assert AsLayer(only) == map[EMPTY_KEY := Some([])];
    assert EMPTY_KEY in only;
  }

  /** The inner loop: one table's entries overwrite the merged map. */
  method MergeInto(merged: seq<Entry>, entries: seq<Entry>) returns (r: seq<Entry>)
    requires StrictlySorted(merged)
    ensures r == Overwrite(merged, entries)
  {
    hide Upsert;
    hide StrictlySorted;
    r := merged;
    for i := 0 to |entries|
      invariant r == Overwrite(merged, entries[..i])
    {
      assert entries[..i + 1][..i] == entries[..i];
      r := Upsert(r, entries[i].key, entries[i].val);
    }
    assert entries[..|entries|] == entries;
  }

  /** The loop that keeps live entries. */
  method KeepLive(merged: seq<Entry>) returns (result: seq<Entry>)
    ensures result == LiveEntries(merged)
  {
    result := [];
    for i := 0 to |merged|
      invariant result == LiveEntries(merged[..i])
    {
      assert merged[..i + 1][..i] == merged[..i];
      if merged[i].val.Some? {
        result := result + [merged[i]];
      }
    }
    assert merged[..|merged|] == merged;
  }

  /** Reads every table, oldest first, into one ordered map. */
  method MergeTables(inputs: seq<Reader>) returns (merged: seq<Entry>)
    requires forall i :: 0 <= i < |inputs| ==> inputs[i].Valid()
    ensures merged == MergeLists(Listings(inputs))
  {
    hide Reader.Valid;
    hide Overwrite;
    merged := [];
    var i := |inputs|;
    assert Listings(inputs)[i..] == [];
    while i > 0
      invariant i <= |inputs| && merged == MergeLists(Listings(inputs)[i..])
    {
      i := i - 1;
      var entries := ReadAllEntries(inputs[i]);
      assert Listings(inputs)[i..][1..] == Listings(inputs)[i + 1..];
      assert Listings(inputs)[i..][0] == entries;
      merged := MergeInto(merged, entries);
    }
    assert Listings(inputs)[0..] == Listings(inputs);
  }

  /** `compact`. */
  method Compact(inputs: seq<Reader>) returns (s: Status, file: Bytes)
    requires forall i :: 0 <= i < |inputs| ==> inputs[i].Valid()
    requires inputs != [] ==> Storable(Compacted(Listings(inputs)))
    ensures inputs == [] ==> s == InvalidArgument
    ensures inputs != [] ==> s == OK && file == FileOf(Compacted(Listings(inputs)))
  {
    hide Reader.Valid;
    hide MergeLists;
    hide LiveEntries;
    hide FileOf;
    hide Listings;
    hide Storable;
    if inputs == [] {
      return InvalidArgument, [];
    }
    var merged := MergeTables(inputs);
    var result := KeepLive(merged);
    if result == [] {
      result := [Entry(EMPTY_KEY, Some([]))];
    }
    assert result == Compacted(Listings(inputs));
    CompactedSorted(Listings(inputs));
    StorableIsWritable(result);
    s, file := SSTableWriter.Build(result);
  }
}
