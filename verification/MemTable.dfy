/** The in-memory table (src/storage/memtable.cpp): an ordered map with a
    running count of its bytes. */
module MemTable {
  import opened Bytes
  import opened Entries

  /** What a look-up reports: absent, deleted, or a value (possibly empty). */
  datatype LookupResult = LookupResult(found: bool, isTombstone: bool, value: Bytes)

  function Reported(o: Option<Version>): LookupResult {
    match o
    case None => LookupResult(false, false, [])
    case Some(None) => LookupResult(true, true, [])
    case Some(Some(v)) => LookupResult(true, false, v)
  }

  /** The three kinds of answer are never confused. */
  lemma ReportedInjective(a: Option<Version>, b: Option<Version>)
    ensures Reported(a) == Reported(b) <==> a == b
  {
  }

  /** Bytes an entry counts for: its key, and its value when live. */
  function Cost(k: Bytes, v: Version): nat {
    |k| + if v.Some? then |v.value| else 0
  }

  function SizeOf(s: seq<Entry>): nat {
    if s == [] then 0 else SizeOf(s[..|s| - 1]) + Cost(s[|s| - 1].key, s[|s| - 1].val)
  }

  lemma {:induction false} SizeAppend(a: seq<Entry>, b: seq<Entry>)
    ensures SizeOf(a + b) == SizeOf(a) + SizeOf(b)
    decreases |b|
  {
    if b == [] {
      assert a + b == a;
    } else {
      assert (a + b)[..|a + b| - 1] == a + b[..|b| - 1];
      SizeAppend(a, b[..|b| - 1]);
    }
  }

  lemma SizeSplit(a: seq<Entry>, e: Entry, b: seq<Entry>)
    ensures SizeOf(a + [e] + b) == SizeOf(a) + Cost(e.key, e.val) + SizeOf(b)
  {
    SizeAppend(a + [e], b);
    assert (a + [e])[..|a|] == a;
  }

  /** All keys and live values, one after the other. */
  function Flat(s: seq<Entry>): Bytes {
    if s == [] then []
    else
      var e := s[0];
      e.key + (if e.val.Some? then e.val.value else []) + Flat(s[1..])
  }

  /** The size counts the bytes of the keys and live values held, and nothing else. */
  lemma {:induction false} SizeIsBytes(s: seq<Entry>)
    ensures SizeOf(s) == |Flat(s)|
  {
    if s != [] {
      SizeIsBytes(s[1..]);
      SizeSplit([], s[0], s[1..]);
      assert [] + [s[0]] + s[1..] == s;
    }
  }

  /** Writing a key replaces what it counted for before. */
  lemma SizeUpsert(s: seq<Entry>, k: Bytes, v: Version)
    requires StrictlySorted(s)
    ensures k in ToMap(s) ==> SizeOf(Upsert(s, k, v)) + Cost(k, ToMap(s)[k]) == SizeOf(s) + Cost(k, v)
    ensures k !in ToMap(s) ==> SizeOf(Upsert(s, k, v)) == SizeOf(s) + Cost(k, v)
  {
    hide ToMap;
    hide SizeOf;
    hide Less;
    hide LowerBound;
    var p := LowerBound(s, k);
    if p < |s| && s[p].key == k {
      MapHolds(s, p);
      SizeOverwrite(s, p, v);
    } else {
      KeyAbsent(s, p, k);
      SizeSplit(s[..p], Entry(k, v), s[p..]);
      assert s == s[..p] + s[p..];
      SizeAppend(s[..p], s[p..]);
    }
  }

  lemma SizeOverwrite(s: seq<Entry>, p: nat, v: Version)
    requires p < |s|
    ensures SizeOf(s[p := Entry(s[p].key, v)]) + Cost(s[p].key, s[p].val) == SizeOf(s) + Cost(s[p].key, v)
  {
    var e := Entry(s[p].key, v);
    SizeSplit(s[..p], s[p], s[p + 1..]);
    SizeSplit(s[..p], e, s[p + 1..]);
    assert s == s[..p] + [s[p]] + s[p + 1..];
    assert s[p := e] == s[..p] + [e] + s[p + 1..];
  }

  lemma KeyAbsent(s: seq<Entry>, p: nat, k: Bytes)
    requires StrictlySorted(s) && p == LowerBound(s, k)
    requires p < |s| ==> s[p].key != k
    ensures k !in ToMap(s)
  {
    LessIsStrictTotalOrder();
    NotInMap(s, k);
  }

  class Table {
    var data: seq<Entry>
    var currentSize: nat
    const flushThreshold: nat

    /** The byte counter is exact: the sum of key and live value lengths. */
    ghost predicate Valid()
      reads this
    {
      StrictlySorted(data) && currentSize == SizeOf(data)
    }

    ghost function Contents(): map<Bytes, Version>
      reads this
    {
      ToMap(data)
    }

    constructor (threshold: nat)
      ensures Valid() && data == [] && flushThreshold == threshold
    {
      data, currentSize, flushThreshold := [], 0, threshold;
    }

    method Put(key: Bytes, value: Bytes)
      requires Valid()
      modifies this
      ensures Valid()
      ensures data == Upsert(old(data), key, Some(value))
      ensures Contents() == old(Contents())[key := Some(value)]
    {
      hide Upsert;
      SizeUpsert(data, key, Some(value));
      UpsertSorted(data, key, Some(value));
      UpsertMap(data, key, Some(value));
      CostWithin(data, key);
      var it := Find(data, key);
      data := Upsert(data, key, Some(value));
      if it.Some? {
        currentSize := currentSize - |key|;
        if it.value.Some? {
          currentSize := currentSize - |it.value.value|;
        }
      }
      currentSize := currentSize + |key| + |value|;
    }

    method Remove(key: Bytes)
      requires Valid()
      modifies this
      ensures Valid()
      ensures data == Upsert(old(data), key, None)
      ensures Contents() == old(Contents())[key := None]
    {
      hide Upsert;
      SizeUpsert(data, key, None);
      UpsertSorted(data, key, None);
      UpsertMap(data, key, None);
      CostWithin(data, key);
      var it := Find(data, key);
      data := Upsert(data, key, None);
      if it.Some? {
        currentSize := currentSize - |key|;
        if it.value.Some? {
          currentSize := currentSize - |it.value.value|;
        }
        currentSize := currentSize + |key|;
      } else {
        currentSize := currentSize + |key|;
      }
    }

    /** The three answers, told apart: nothing is known of the key, it is deleted, or it has this value. */
    method Get(key: Bytes) returns (r: LookupResult)
      ensures key !in Contents() <==> !r.found
      ensures key in Contents() && Contents()[key] == None <==> r.found && r.isTombstone
      ensures r.found && !r.isTombstone ==> key in Contents() && Contents()[key] == Some(r.value)
      ensures r == Reported(Find(data, key))
    {
      var it := Find(data, key);
      if it.None? {
        return LookupResult(false, false, []);
      }
      if it.value.None? {
        return LookupResult(true, true, []);
      }
      return LookupResult(true, false, it.value.value);
    }

    /** The entries with start <= key <= end; the caller has checked start <= end. */
    method Scan(start: Bytes, end: Bytes) returns (result: seq<Entry>)
      requires Valid()
      requires !Less(end, start)
      ensures result == Range(data, start, end)
    {
      var p := LowerBound(data, start);
      result := [];
      var it := p;
      while it < |data| && !Less(end, data[it].key)
        invariant p <= it <= |data|
        invariant result == data[p..it]
        invariant forall i :: p <= i < it ==> !Less(end, data[i].key)
      {
        result := result + [data[it]];
        it := it + 1;
      }
      RangeOfBounds(data, start, end, p, it);
    }

    /** Whether the key and live value bytes held have reached the threshold. */
    method ShouldFlush() returns (b: bool)
      requires Valid()
      ensures b <==> SizeOf(data) >= flushThreshold
    {
      b := currentSize >= flushThreshold;
    }

    method DumpSorted() returns (entries: seq<Entry>)
      ensures entries == data
    {
      entries := data;
    }

    method Clear()
      modifies this
      ensures Valid() && data == []
    {
      data, currentSize := [], 0;
    }
  }

  /** What is subtracted for an overwritten key never exceeds the counter. */
  lemma CostWithin(s: seq<Entry>, k: Bytes)
    requires StrictlySorted(s)
    ensures k in ToMap(s) ==> Cost(k, ToMap(s)[k]) <= SizeOf(s)
  {
    if k in ToMap(s) {
      var i := IndexOf(s, k);
      assert s == s[..i] + [s[i]] + s[i + 1..];
      SizeSplit(s[..i], s[i], s[i + 1..]);
    }
  }

  lemma RangeOfBounds(s: seq<Entry>, lo: Bytes, hi: Bytes, p: nat, q: nat)
    requires StrictlySorted(s) && p == LowerBound(s, lo) && p <= q <= |s|
    requires forall i :: p <= i < q ==> !Less(hi, s[i].key)
    requires q < |s| ==> Less(hi, s[q].key)
    ensures Range(s, lo, hi) == s[p..q]
  {
    hide Less;
    hide LowerBound;
    hide Range;
    hide InRange;
    BelowRange(s[..p], lo, hi);
    InsideRange(s[p..q], lo, hi);
    AboveRange(s[q..], lo, hi);
    RangeOfParts(s[..p], s[p..q], s[q..], lo, hi);
    assert s == s[..p] + s[p..q] + s[q..];
  }
}
