/** The storage engine as the relational layer uses it: the contract proved of
    `Engine.StorageEngine`, held by an ordered map of live entries. */
module KeyValue {
  import opened Bytes
  import opened Entries
  import opened Layers

  predicate AllLive(s: seq<Entry>) {
    forall i :: 0 <= i < |s| ==> s[i].val.Some?
  }

  /** The plain map a list of live entries denotes. */
  function PlainMap(s: seq<Entry>): map<Bytes, Bytes> {
    Live(ToMap(s))
  }

  function Without(s: seq<Entry>, k: Bytes): seq<Entry> {
    if s == [] then []
    else Without(s[..|s| - 1], k) + if s[|s| - 1].key == k then [] else [s[|s| - 1]]
  }

  lemma {:induction false} WithoutKeeps(s: seq<Entry>, k: Bytes, i: nat) returns (j: nat)
    requires i < |Without(s, k)|
    ensures j < |s| && s[j] == Without(s, k)[i]
  {
    var t := s[..|s| - 1];
    if i < |Without(t, k)| {
      j := WithoutKeeps(t, k, i);
    } else {
      j := |s| - 1;
    }
  }

  lemma {:induction false} WithoutSorted(s: seq<Entry>, k: Bytes)
    requires StrictlySorted(s) && AllLive(s)
    ensures StrictlySorted(Without(s, k)) && AllLive(Without(s, k))
  {
    hide Less;
    if s != [] {
      var t, last := s[..|s| - 1], s[|s| - 1];
      WithoutSorted(t, k);
      forall i | 0 <= i < |Without(t, k)| ensures Less(Without(t, k)[i].key, last.key) {
        var j := WithoutKeeps(t, k, i);
      }
    }
  }

  lemma ToMapSnoc(s: seq<Entry>, e: Entry)
    ensures ToMap(s + [e]) == ToMap(s)[e.key := e.val]
  {
    assert (s + [e])[..|s|] == s;
  }

  lemma {:induction false} WithoutMap(s: seq<Entry>, k: Bytes)
    ensures ToMap(Without(s, k)) == ToMap(s) - {k}
  {
    hide ToMap;
    if s == [] {
      EmptyMap();
    } else {
      var t, last := s[..|s| - 1], s[|s| - 1];
      WithoutMap(t, k);
      assert s == t + [last];
      ToMapSnoc(t, last);
      ToMapSnoc(Without(t, k), last);
      assert Without(t, k) + [] == Without(t, k);
    }
  }

  /** What a list of live entries shows inside a key range, in order. */
  lemma RangeOfLive(s: seq<Entry>, lo: Bytes, hi: Bytes)
    requires StrictlySorted(s) && AllLive(s)
    ensures StrictlySorted(Range(s, lo, hi)) && AllLive(Range(s, lo, hi))
    ensures PlainMap(Range(s, lo, hi)) == Within(PlainMap(s), lo, hi)
  {
    hide ToMap;
    hide Less;
    hide Range;
    hide InRange;
    RangeSorted(s, lo, hi);
    RangeMap(s, lo, hi);
    forall i | 0 <= i < |Range(s, lo, hi)| ensures Range(s, lo, hi)[i].val.Some? {
      var j := RangeSublist(s, lo, hi, i);
    }
  }

  /** Each entry of a live listing is what its map holds. */
  lemma EntryOfMap(s: seq<Entry>, i: nat)
    requires StrictlySorted(s) && AllLive(s) && i < |s|
    ensures s[i].key in PlainMap(s) && PlainMap(s)[s[i].key] == s[i].val.value
  {
    hide ToMap;
    hide Less;
    MapHolds(s, i);
  }

  lemma EntryOfKey(s: seq<Entry>, k: Bytes) returns (i: nat)
    requires StrictlySorted(s) && k in PlainMap(s)
    ensures i < |s| && s[i].key == k && s[i].val == Some(PlainMap(s)[k])
  {
    hide Less;
    i := IndexOf(s, k);
  }

  class Store {
    var data: seq<Entry>

    /** The map after each write, oldest first: what a crash between two writes may leave. */
    ghost var states: seq<map<Bytes, Bytes>>

    ghost predicate Valid()
      reads this
    {
      StrictlySorted(data) && AllLive(data)
    }

    function Map(): map<Bytes, Bytes>
      reads this
    {
      PlainMap(data)
    }

    constructor ()
      ensures Valid() && Map() == map[] && states == []
    {
      data := [];
      states := [];
    }

    method Put(key: Bytes, value: Bytes) returns (s: Status)
      requires Valid()
      modifies this
      ensures Valid()
      ensures key == [] ==> s == InvalidArgument && data == old(data) && states == old(states)
      ensures key != [] ==> s == OK && Map() == old(Map())[key := value] && states == old(states) + [Map()]
    {
      hide ToMap;
      hide Less;
      if key == [] {
        return InvalidArgument;
      }
      UpsertSorted(data, key, Some(value));
      UpsertMap(data, key, Some(value));
      data := Upsert(data, key, Some(value));
      states := states + [Map()];
      s := OK;
    }

    method Remove(key: Bytes) returns (s: Status)
      requires Valid()
      modifies this
      ensures Valid()
      ensures key == [] ==> s == InvalidArgument && data == old(data) && states == old(states)
      ensures key != [] ==> s == OK && Map() == old(Map()) - {key} && states == old(states) + [Map()]
    {
      hide ToMap;
      hide Less;
      if key == [] {
        return InvalidArgument;
      }
      WithoutSorted(data, key);
      WithoutMap(data, key);
      data := Without(data, key);
      states := states + [Map()];
      s := OK;
    }

    method Get(key: Bytes) returns (r: Option<Bytes>)
      ensures r == if key == [] then None else Layers.Get(Map(), key)
    {
      if key == [] || key !in Map() {
        return None;
      }
      return Some(Map()[key]);
    }

    method Scan(start: Bytes, end: Bytes) returns (result: seq<Entry>)
      requires Valid()
      ensures StrictlySorted(result) && AllLive(result) && result == Range(data, start, end)
      ensures PlainMap(result) == Within(Map(), start, end)
    {
      RangeOfLive(data, start, end);
      result := Range(data, start, end);
    }
  }
}
