/** Looking through layers of versions, newest first, and merging them. */
module Layers {
  import opened Bytes
  import opened Entries

  /** One table's contents: what it says about each key it mentions. */
  type Layer = map<Bytes, Version>

  /** The newest version of a key, layers given newest first. */
  function Newest(ts: seq<Layer>, k: Bytes): Option<Version> {
    if ts == [] then None
    else if k in ts[0] then Some(ts[0][k])
    else Newest(ts[1..], k)
  }

  /** All layers as one, newer versions overwriting older ones. */
  function Merge(ts: seq<Layer>): Layer {
    if ts == [] then map[] else Merge(ts[1..]) + ts[0]
  }

  function Live(m: Layer): map<Bytes, Bytes> {
    map k | k in m && m[k].Some? :: m[k].value
  }

  /** What a reader of the layers sees: a plain map without tombstones. */
  function View(ts: seq<Layer>): map<Bytes, Bytes> {
    Live(Merge(ts))
  }

  function Seen(v: Option<Version>): Option<Bytes> {
    match v
    case Some(Some(x)) => Some(x)
    case _ => None
  }

  function Get<V>(m: map<Bytes, V>, k: Bytes): Option<V> {
    if k in m then Some(m[k]) else None
  }

  /** Searching newest first finds what the merge holds. */
  lemma {:induction false} NewestIsMerge(ts: seq<Layer>, k: Bytes)
    ensures Newest(ts, k) == Get(Merge(ts), k)
  {
    if ts != [] {
      NewestIsMerge(ts[1..], k);
    }
  }

  lemma ViewIsNewest(ts: seq<Layer>, k: Bytes)
    ensures Get(View(ts), k) == Seen(Newest(ts, k))
  {
    NewestIsMerge(ts, k);
  }

  lemma MergeCons(m: Layer, ts: seq<Layer>)
    ensures Merge([m] + ts) == Merge(ts) + m
  {
    assert ([m] + ts)[1..] == ts;
  }

  /** Writing the newest layer writes the view. */
  lemma ViewPut(m: Layer, ts: seq<Layer>, k: Bytes, v: Bytes)
    ensures View([m[k := Some(v)]] + ts) == View([m] + ts)[k := v]
  {
    MergeCons(m, ts);
    MergeCons(m[k := Some(v)], ts);
  }

  lemma ViewRemove(m: Layer, ts: seq<Layer>, k: Bytes)
    ensures View([m[k := None]] + ts) == View([m] + ts) - {k}
  {
    MergeCons(m, ts);
    MergeCons(m[k := None], ts);
  }

  /** An empty layer on top changes nothing: a flush keeps the view. */
  lemma ViewFlush(ts: seq<Layer>)
    ensures View([map[]] + ts) == View(ts)
  {
    MergeCons(map[], ts);
  }

  /** A layer repeated on top of itself changes nothing: a flush whose log was not cleared keeps the view. */
  lemma ViewDuplicate(m: Layer, ts: seq<Layer>)
    ensures View([m] + ([m] + ts)) == View([m] + ts)
  {
    MergeCons(m, [m] + ts);
    MergeCons(m, ts);
    assert Merge(ts) + m + m == Merge(ts) + m;
  }

  /** A map of live values as a layer. */
  function AsLayer(m: map<Bytes, Bytes>): Layer {
    map k | k in m :: Some(m[k])
  }

  lemma ViewOfLive(m: map<Bytes, Bytes>)
    ensures View([AsLayer(m)]) == m
  {
    MergeCons(AsLayer(m), []);
    assert [AsLayer(m)] + [] == [AsLayer(m)];
  }

  // ---- Merging listings. ----

  /** Writes every entry of `es`, in order, into the ordered map `s`. */
  function Overwrite(s: seq<Entry>, es: seq<Entry>): (r: seq<Entry>)
    requires StrictlySorted(s)
    ensures StrictlySorted(r)
  {
    if es == [] then s
    else
      var t, last := Overwrite(s, es[..|es| - 1]), es[|es| - 1];
      UpsertSorted(t, last.key, last.val);
      Upsert(t, last.key, last.val)
  }

  lemma {:induction false} OverwriteMap(s: seq<Entry>, es: seq<Entry>)
    requires StrictlySorted(s)
    ensures ToMap(Overwrite(s, es)) == ToMap(s) + ToMap(es)
  {
    hide Upsert;
    hide StrictlySorted;
    if es != [] {
      var n := |es| - 1;
      OverwriteMap(s, es[..n]);
      UpsertMap(Overwrite(s, es[..n]), es[n].key, es[n].val);
    }
  }

  /** The ordered map of all listings, oldest written first. */
  function MergeLists(ls: seq<seq<Entry>>): (r: seq<Entry>)
    ensures StrictlySorted(r)
  {
    if ls == [] then [] else Overwrite(MergeLists(ls[1..]), ls[0])
  }

  function Maps(ls: seq<seq<Entry>>): (ts: seq<Layer>)
    ensures |ts| == |ls|
  {
    seq(|ls|, i requires 0 <= i < |ls| => ToMap(ls[i]))
  }

  lemma {:induction false} MergeListsMap(ls: seq<seq<Entry>>)
    ensures ToMap(MergeLists(ls)) == Merge(Maps(ls))
  {
    hide ToMap;
    hide StrictlySorted;
    if ls == [] {
      EmptyMap();
    } else {
      MergeListsMap(ls[1..]);
      OverwriteMap(MergeLists(ls[1..]), ls[0]);
      assert Maps(ls)[1..] == Maps(ls[1..]);
    }
  }

  lemma EmptyMap()
    ensures ToMap([]) == map[]
  {
  }

  /** The live entries of a listing. */
  function LiveEntries(s: seq<Entry>): seq<Entry> {
    if s == [] then []
    else
      var last := s[|s| - 1];
      LiveEntries(s[..|s| - 1]) + if last.val.Some? then [last] else []
  }

  lemma {:induction false} LiveEntriesSublist(s: seq<Entry>, i: nat) returns (j: nat)
    requires i < |LiveEntries(s)|
    ensures j < |s| && s[j] == LiveEntries(s)[i] && s[j].val.Some?
  {
    var t := s[..|s| - 1];
    if i < |LiveEntries(t)| {
      j := LiveEntriesSublist(t, i);
    } else {
      j := |s| - 1;
    }
  }

  lemma {:induction false} LiveEntriesSorted(s: seq<Entry>)
    requires StrictlySorted(s)
    ensures StrictlySorted(LiveEntries(s))
  {
    hide Less;
    if s != [] {
      var t, last := s[..|s| - 1], s[|s| - 1];
      LiveEntriesSorted(t);
      forall i | 0 <= i < |LiveEntries(t)| ensures Less(LiveEntries(t)[i].key, last.key) {
        var j := LiveEntriesSublist(t, i);
      }
    }
  }

  lemma LiveUpdate(m: Layer, k: Bytes, v: Version)
    requires k !in m
    ensures Live(m[k := v]) == if v.Some? then Live(m)[k := v.value] else Live(m)
  {
  }

  lemma {:induction false} LiveEntriesMap(s: seq<Entry>)
    requires StrictlySorted(s)
    ensures ToMap(LiveEntries(s)) == AsLayer(Live(ToMap(s)))
  {
    hide Less;
    if s != [] {
      var t, last := s[..|s| - 1], s[|s| - 1];
      LiveEntriesMap(t);
      LastIsNew(s);
      LiveUpdate(ToMap(t), last.key, last.val);
      var r := LiveEntries(t);
      if last.val.Some? {
        assert (r + [last])[..|r|] == r;
        assert AsLayer(Live(ToMap(t))[last.key := last.val.value]) == AsLayer(Live(ToMap(t)))[last.key := last.val];
      } else {
        assert r + [] == r;
      }
    }
  }
}
