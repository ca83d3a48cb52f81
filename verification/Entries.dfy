/** Key/value entries and the ordered map (`std::map`) they live in: a list
    sorted strictly by key, read as a finite map from key to version. A version
    is a live value or a tombstone (`None`). */
module Entries {
  import opened Bytes

  type Version = Option<Bytes>
  datatype Entry = Entry(key: Bytes, val: Version)

  predicate StrictlySorted(s: seq<Entry>) {
    forall i, j :: 0 <= i < j < |s| ==> Less(s[i].key, s[j].key)
  }

  /** The map a list of entries denotes when later entries overwrite earlier ones. */
  function ToMap(s: seq<Entry>): map<Bytes, Version> {
    if s == [] then map[]
    else
      var last := s[|s| - 1];
      ToMap(s[..|s| - 1])[last.key := last.val]
  }

  /** Every key of the map comes from an entry with the map's value. */
  lemma {:induction false} IndexOf(s: seq<Entry>, k: Bytes) returns (i: nat)
    requires k in ToMap(s)
    ensures i < |s| && s[i] == Entry(k, ToMap(s)[k])
  {
    i := |s| - 1;
    if s[i].key != k {
      i := IndexOf(s[..|s| - 1], k);
    }
  }

  lemma SortedIsDistinct(s: seq<Entry>)
    requires StrictlySorted(s)
    ensures forall i, j :: 0 <= i < |s| && 0 <= j < |s| && s[i].key == s[j].key ==> i == j
  {
    LessIsStrictTotalOrder();
  }

  /** In a sorted list every entry is the one the map holds for its key. */
  lemma {:induction false} MapHolds(s: seq<Entry>, i: nat)
    requires StrictlySorted(s) && i < |s|
    ensures s[i].key in ToMap(s) && ToMap(s)[s[i].key] == s[i].val
  {
    if i < |s| - 1 {
      LessIrreflexive(s[i].key);
      MapHolds(s[..|s| - 1], i);
    }
  }

  lemma {:induction false} ToMapAppend(a: seq<Entry>, b: seq<Entry>)
    ensures ToMap(a + b) == ToMap(a) + ToMap(b)
    decreases |b|
  {
    if b == [] {
      assert a + b == a;
    } else {
      var c := b[..|b| - 1];
      assert (a + b)[..|a + b| - 1] == a + c;
      ToMapAppend(a, c);
    }
  }

  lemma {:induction false} NotInMap(s: seq<Entry>, k: Bytes)
    requires forall i :: 0 <= i < |s| ==> s[i].key != k
    ensures k !in ToMap(s)
  {
    if s != [] {
      NotInMap(s[..|s| - 1], k);
    }
  }

  lemma TailMap(s: seq<Entry>)
    requires StrictlySorted(s) && s != []
    ensures StrictlySorted(s[1..])
    ensures ToMap(s[1..]) == ToMap(s) - {s[0].key}
  {
    hide Less;
    var t := s[1..];
    assert s == s[..1] + t && s[..1][..0] == [];
    ToMapAppend(s[..1], t);
    HeadIsNew(s);
  }

  lemma HeadIsNew(s: seq<Entry>)
    requires StrictlySorted(s) && s != []
    ensures s[0].key !in ToMap(s[1..])
  {
    hide ToMap;
    SortedIsDistinct(s);
    NotInMap(s[1..], s[0].key);
  }

  /** A map has only one sorted listing. */
  lemma {:induction false} SortedListingUnique(a: seq<Entry>, b: seq<Entry>)
    requires StrictlySorted(a) && StrictlySorted(b)
    requires ToMap(a) == ToMap(b)
    ensures a == b
    decreases |a|
  {
    if a != [] && b != [] {
      SameHead(a, b);
      TailMap(a);
      TailMap(b);
      SortedListingUnique(a[1..], b[1..]);
      assert a == [a[0]] + a[1..] && b == [b[0]] + b[1..];
    } else if a != [] {
      MapHolds(a, 0);
    } else if b != [] {
      MapHolds(b, 0);
    }
  }

  lemma SameHead(a: seq<Entry>, b: seq<Entry>)
    requires StrictlySorted(a) && StrictlySorted(b) && a != [] && b != []
    requires ToMap(a) == ToMap(b)
    ensures a[0] == b[0]
  {
    MapHolds(a, 0);
    MapHolds(b, 0);
    var i := IndexOf(b, a[0].key);
    var j := IndexOf(a, b[0].key);
    LessIsStrictTotalOrder();
  }

  /** Position of the first entry whose key is not below `k` (`lower_bound`). */
  function LowerBound(s: seq<Entry>, k: Bytes): (p: nat)
    requires StrictlySorted(s)
    ensures p <= |s|
    ensures forall i :: 0 <= i < p ==> Less(s[i].key, k)
    ensures forall i :: p <= i < |s| ==> !Less(s[i].key, k)
  {
    if s == [] then 0
    else if Less(s[|s| - 1].key, k) then
      assert forall i :: 0 <= i < |s| - 1 ==> Less(s[i].key, k) by { LessIsStrictTotalOrder(); }
      |s|
    else
      LowerBound(s[..|s| - 1], k)
  }

  /** `m[k] = v` on the ordered map. */
  function Upsert(s: seq<Entry>, k: Bytes, v: Version): (r: seq<Entry>)
    requires StrictlySorted(s)
  {
    var p := LowerBound(s, k);
    if p < |s| && s[p].key == k then s[p := Entry(k, v)] else s[..p] + [Entry(k, v)] + s[p..]
  }

  lemma UpsertSorted(s: seq<Entry>, k: Bytes, v: Version)
    requires StrictlySorted(s)
    ensures StrictlySorted(Upsert(s, k, v))
  {
    LessIsStrictTotalOrder();
  }

  lemma UpsertMap(s: seq<Entry>, k: Bytes, v: Version)
    requires StrictlySorted(s)
    ensures ToMap(Upsert(s, k, v)) == ToMap(s)[k := v]
  {
    var p := LowerBound(s, k);
    if p < |s| && s[p].key == k {
      OverwriteMap(s, p, v);
    } else {
      assert s == s[..p] + s[p..];
      AbsentAbove(s, p, k);
      InsertMap(s[..p], Entry(k, v), s[p..]);
    }
  }

  lemma AbsentAbove(s: seq<Entry>, p: nat, k: Bytes)
    requires StrictlySorted(s) && p <= |s|
    requires p < |s| ==> !Less(s[p].key, k) && s[p].key != k
    ensures k !in ToMap(s[p..])
  {
    LessIsStrictTotalOrder();
    NotInMap(s[p..], k);
  }

  lemma InsertMap(a: seq<Entry>, e: Entry, b: seq<Entry>)
    requires e.key !in ToMap(b)
    ensures ToMap(a + [e] + b) == ToMap(a + b)[e.key := e.val]
  {
    SplitMap(a, e, b);
    ToMapAppend(a, b);
  }

  lemma {:induction false} OverwriteMap(s: seq<Entry>, p: nat, v: Version)
    requires StrictlySorted(s) && p < |s|
    ensures ToMap(s[p := Entry(s[p].key, v)]) == ToMap(s)[s[p].key := v]
  {
    var t, r := s[..|s| - 1], s[p := Entry(s[p].key, v)];
    if p < |t| {
      LessIrreflexive(s[p].key);
      OverwriteMap(t, p, v);
      assert r[..|t|] == t[p := Entry(s[p].key, v)];
    } else {
      assert r[..|t|] == t;
    }
  }

  lemma SplitMap(a: seq<Entry>, e: Entry, b: seq<Entry>)
    ensures ToMap(a + [e] + b) == ToMap(a)[e.key := e.val] + ToMap(b)
  {
    ToMapAppend(a + [e], b);
    assert (a + [e])[..|a|] == a;
  }

  /** The plain lookup: what a list holds for a key, if anything. */
  function Find(s: seq<Entry>, k: Bytes): Option<Version> {
    var m := ToMap(s);
    if k in m then Some(m[k]) else None
  }

  lemma FindAt(s: seq<Entry>, i: nat)
    requires StrictlySorted(s) && i < |s|
    ensures Find(s, s[i].key) == Some(s[i].val)
  {
    MapHolds(s, i);
  }

  /** A key strictly between two neighbours (or beyond an end) is absent. */
  lemma FindNone(s: seq<Entry>, i: nat, k: Bytes)
    requires StrictlySorted(s) && i <= |s|
    requires i > 0 ==> Less(s[i - 1].key, k)
    requires i < |s| ==> Less(k, s[i].key)
    ensures Find(s, k) == None
  {
    LessIsStrictTotalOrder();
    NotInMap(s, k);
  }

  predicate InRange(k: Bytes, lo: Bytes, hi: Bytes) {
    AtMost(lo, k) && AtMost(k, hi)
  }

  /** The entries with lo <= key <= hi, in order. */
  function Range(s: seq<Entry>, lo: Bytes, hi: Bytes): seq<Entry> {
    if s == [] then []
    else
      var last := s[|s| - 1];
      var r := Range(s[..|s| - 1], lo, hi);
      if InRange(last.key, lo, hi) then r + [last] else r
  }

  lemma {:induction false} RangeAppend(a: seq<Entry>, b: seq<Entry>, lo: Bytes, hi: Bytes)
    ensures Range(a + b, lo, hi) == Range(a, lo, hi) + Range(b, lo, hi)
    decreases |b|
  {
    if b == [] {
      assert a + b == a;
    } else {
      var c := b[..|b| - 1];
      assert (a + b)[..|a + b| - 1] == a + c;
      RangeAppend(a, c, lo, hi);
    }
  }

  lemma {:induction false} RangeNone(s: seq<Entry>, lo: Bytes, hi: Bytes)
    requires forall i :: 0 <= i < |s| ==> !InRange(s[i].key, lo, hi)
    ensures Range(s, lo, hi) == []
  {
    if s != [] {
      RangeNone(s[..|s| - 1], lo, hi);
    }
  }

  lemma {:induction false} RangeAll(s: seq<Entry>, lo: Bytes, hi: Bytes)
    requires forall i :: 0 <= i < |s| ==> InRange(s[i].key, lo, hi)
    ensures Range(s, lo, hi) == s
  {
    if s != [] {
      RangeAll(s[..|s| - 1], lo, hi);
    }
  }

  /** The range is the middle of a list whose ends fall outside. */
  lemma RangeOfParts(a: seq<Entry>, b: seq<Entry>, c: seq<Entry>, lo: Bytes, hi: Bytes)
    requires forall i :: 0 <= i < |a| ==> !InRange(a[i].key, lo, hi)
    requires forall i :: 0 <= i < |b| ==> InRange(b[i].key, lo, hi)
    requires forall i :: 0 <= i < |c| ==> !InRange(c[i].key, lo, hi)
    ensures Range(a + b + c, lo, hi) == b
  {
    hide InRange;
    RangeAppend(a + b, c, lo, hi);
    RangeAppend(a, b, lo, hi);
    RangeNone(a, lo, hi);
    RangeAll(b, lo, hi);
    RangeNone(c, lo, hi);
  }

  lemma BelowRange(s: seq<Entry>, lo: Bytes, hi: Bytes)
    requires forall i :: 0 <= i < |s| ==> Less(s[i].key, lo)
    ensures forall i :: 0 <= i < |s| ==> !InRange(s[i].key, lo, hi)
  {
    LessIsStrictTotalOrder();
  }

  lemma AboveRange(s: seq<Entry>, lo: Bytes, hi: Bytes)
    requires StrictlySorted(s) && (s != [] ==> Less(hi, s[0].key))
    ensures forall i :: 0 <= i < |s| ==> !InRange(s[i].key, lo, hi)
  {
    LessIsStrictTotalOrder();
  }

  lemma InsideRange(s: seq<Entry>, lo: Bytes, hi: Bytes)
    requires forall i :: 0 <= i < |s| ==> !Less(s[i].key, lo) && !Less(hi, s[i].key)
    ensures forall i :: 0 <= i < |s| ==> InRange(s[i].key, lo, hi)
  {
    forall i | 0 <= i < |s| ensures InRange(s[i].key, lo, hi) {
      LessTotal(s[i].key, lo);
      LessTotal(s[i].key, hi);
    }
  }

  lemma {:induction false} RangeSublist(s: seq<Entry>, lo: Bytes, hi: Bytes, i: nat) returns (j: nat)
    requires i < |Range(s, lo, hi)|
    ensures j < |s| && s[j] == Range(s, lo, hi)[i] && InRange(s[j].key, lo, hi)
  {
    var t := s[..|s| - 1];
    if i < |Range(t, lo, hi)| {
      j := RangeSublist(t, lo, hi, i);
    } else {
      j := |s| - 1;
    }
  }

  lemma {:induction false} RangeSorted(s: seq<Entry>, lo: Bytes, hi: Bytes)
    requires StrictlySorted(s)
    ensures StrictlySorted(Range(s, lo, hi))
  {
    if s != [] {
      var t, last := s[..|s| - 1], s[|s| - 1];
      var r := Range(t, lo, hi);
      RangeSorted(t, lo, hi);
      forall i | 0 <= i < |r| ensures Less(r[i].key, last.key) {
        var j := RangeSublist(t, lo, hi, i);
      }
    }
  }

  /** A map restricted to a key range. */
  function Within<V>(m: map<Bytes, V>, lo: Bytes, hi: Bytes): map<Bytes, V> {
    map k | k in m && InRange(k, lo, hi) :: m[k]
  }

  lemma WithinUpdate<V>(m: map<Bytes, V>, lo: Bytes, hi: Bytes, k: Bytes, v: V)
    requires k !in m
    ensures Within(m[k := v], lo, hi) == if InRange(k, lo, hi) then Within(m, lo, hi)[k := v] else Within(m, lo, hi)
  {
  }

  /** A range of a sorted list reads as the map restricted to the range. */
  lemma {:induction false} RangeMap(s: seq<Entry>, lo: Bytes, hi: Bytes)
    requires StrictlySorted(s)
    ensures ToMap(Range(s, lo, hi)) == Within(ToMap(s), lo, hi)
  {
    if s != [] {
      var t, last := s[..|s| - 1], s[|s| - 1];
      RangeMap(t, lo, hi);
      LastIsNew(s);
      WithinUpdate(ToMap(t), lo, hi, last.key, last.val);
      var r := Range(t, lo, hi);
      assert (r + [last])[..|r|] == r;
    }
  }

  lemma LastIsNew(s: seq<Entry>)
    requires StrictlySorted(s) && s != []
    ensures s[|s| - 1].key !in ToMap(s[..|s| - 1])
  {
    SortedIsDistinct(s);
    NotInMap(s[..|s| - 1], s[|s| - 1].key);
  }
}
