/** The engine answers as the ordered store does that the relational layer is modelled on. */
module Refinement {
  import opened Bytes
  import opened Entries
  import opened Layers
  import opened KeyValue

  lemma LiveListing(s: seq<Entry>)
    requires StrictlySorted(s) && AllLive(s)
    ensures ToMap(s) == AsLayer(PlainMap(s))
  {
    hide StrictlySorted;
    forall k | k in ToMap(s) ensures ToMap(s)[k].Some? {
      var i := IndexOf(s, k);
    }
  }

  /** The contract of `StorageEngine.Scan` leaves one answer, and it is what `Store.Scan` returns on any
      store that holds the same map. */
  lemma ScanRefines(data: seq<Entry>, lo: Bytes, hi: Bytes, answer: seq<Entry>)
    requires StrictlySorted(data) && AllLive(data)
    requires StrictlySorted(answer) && ToMap(answer) == AsLayer(Within(PlainMap(data), lo, hi))
    ensures answer == Range(data, lo, hi) && AllLive(answer)
  {
    hide ToMap;
    hide StrictlySorted;
    hide Range;
    hide Within;
    RangeOfLive(data, lo, hi);
    LiveListing(Range(data, lo, hi));
    SortedListingUnique(answer, Range(data, lo, hi));
  }

  /** Two stores that hold the same map hold the same list, so a map determines every answer. */
  lemma StoreIsItsMap(a: seq<Entry>, b: seq<Entry>)
    requires StrictlySorted(a) && AllLive(a) && StrictlySorted(b) && AllLive(b) && PlainMap(a) == PlainMap(b)
    ensures a == b
  {
    hide ToMap;
    hide StrictlySorted;
    hide PlainMap;
    LiveListing(a);
    LiveListing(b);
    SortedListingUnique(a, b);
  }
}
