/** Numbered tables: the newest-first order of `load_sstables`, and what a
    directory shows when compaction was interrupted. */
module Tables {
  import opened Bytes
  import opened Entries
  import opened Layers

  type Numbered = map<nat, Layer>

  /** The numbers below n, highest first: the order the engine keeps its tables in. */
  function Descending(keys: set<nat>, n: nat): seq<nat> {
    if n == 0 then []
    else (if n - 1 in keys then [n - 1] else []) + Descending(keys, n - 1)
  }

  function Pick(t: Numbered, order: seq<nat>): seq<Layer>
    requires forall i :: 0 <= i < |order| ==> order[i] in t
  {
    seq(|order|, i requires 0 <= i < |order| => t[order[i]])
  }

  /** One past the highest number: `next_seq_` after loading. */
  ghost function NextSeq(keys: set<nat>): (n: nat)
    ensures forall i :: i in keys ==> i < n
    ensures n == 0 || n - 1 in keys
  {
    if keys == {} then 0
    else
      var i :| i in keys;
      var n := NextSeq(keys - {i});
      assert forall j :: j in keys ==> j == i || j in keys - {i};
      if i + 1 > n then i + 1 else n
  }

  lemma {:induction false} DescendingRange(keys: set<nat>, n: nat)
    ensures forall i :: 0 <= i < |Descending(keys, n)| ==> Descending(keys, n)[i] in keys && Descending(keys, n)[i] < n
    ensures forall i, j :: 0 <= i < j < |Descending(keys, n)| ==> Descending(keys, n)[i] > Descending(keys, n)[j]
  {
    if n > 0 {
      DescendingRange(keys, n - 1);
    }
  }

  lemma {:induction false} DescendingComplete(keys: set<nat>, n: nat, k: nat)
    requires k in keys && k < n
    ensures k in Descending(keys, n)
  {
    if k < n - 1 {
      DescendingComplete(keys, n - 1, k);
    }
  }

  lemma {:induction false} DescendingAgree(a: set<nat>, b: set<nat>, n: nat)
    requires forall i :: 0 <= i < n ==> (i in a <==> i in b)
    ensures Descending(a, n) == Descending(b, n)
  {
    if n > 0 {
      DescendingAgree(a, b, n - 1);
    }
  }

  lemma {:induction false} DescendingBeyond(keys: set<nat>, m: nat, n: nat)
    requires m <= n && forall i :: i in keys ==> i < m
    ensures Descending(keys, n) == Descending(keys, m)
    decreases n
  {
    if m < n {
      DescendingBeyond(keys, m, n - 1);
    }
  }

  lemma {:induction false} DescendingTail(keys: set<nat>, n: nat)
    requires Descending(keys, n) != []
    ensures Descending(keys - {Descending(keys, n)[0]}, n) == Descending(keys, n)[1..]
  {
    if n - 1 in keys {
      DescendingAgree(keys - {n - 1}, keys, n - 1);
    } else {
      DescendingTail(keys, n - 1);
      DescendingRange(keys, n - 1);
    }
  }

  /** The tables' layers, newest first. */
  function InOrder(t: Numbered, n: nat): seq<Layer> {
    DescendingRange(t.Keys, n);
    Pick(t, Descending(t.Keys, n))
  }

  lemma InOrderNewest(t: Numbered, n: nat, m: Layer)
    ensures InOrder(t[n := m], n + 1) == [m] + InOrder(t, n)
  {
    var d := Descending(t.Keys, n);
    DescendingAgree(t[n := m].Keys, t.Keys, n);
    DescendingRange(t.Keys, n);
    assert Descending(t[n := m].Keys, n + 1) == [n] + d;
    PickNewest(t, n, m, d);
  }

  lemma PickNewest(t: Numbered, n: nat, m: Layer, d: seq<nat>)
    requires forall i :: 0 <= i < |d| ==> d[i] in t && d[i] < n
    ensures Pick(t[n := m], [n] + d) == [m] + Pick(t, d)
  {
  }

  lemma InOrderStep(t: Numbered, n: nat)
    ensures InOrder(t, n + 1) == (if n in t then [t[n]] else []) + InOrder(t, n)
  {
    var d := Descending(t.Keys, n);
    DescendingRange(t.Keys, n);
    if n in t {
      assert t[n := t[n]] == t;
      PickNewest(t, n, t[n], d);
    } else {
      assert [] + d == d;
      assert [] + InOrder(t, n) == InOrder(t, n);
    }
  }

  lemma InOrderAgree(t: Numbered, u: Numbered, n: nat)
    requires forall i :: 0 <= i < n ==> (i in t <==> i in u)
    requires forall i :: 0 <= i < n && i in t ==> t[i] == u[i]
    ensures InOrder(t, n) == InOrder(u, n)
  {
    DescendingAgree(t.Keys, u.Keys, n);
    DescendingRange(t.Keys, n);
  }

  // ---- Interrupted compaction. ----

  function Restrict(t: Numbered, kept: set<nat>): Numbered {
    map i | i in t && i in kept :: t[i]
  }

  /** The table that holds the newest version of a key, if any. */
  function Holder(t: Numbered, n: nat, k: Bytes): (r: Option<nat>)
    ensures r.Some? ==> r.value < n && r.value in t && k in t[r.value]
  {
    if n == 0 then None
    else if n - 1 in t && k in t[n - 1] then Some(n - 1)
    else Holder(t, n - 1, k)
  }

  lemma {:induction false} HolderIsNewest(t: Numbered, n: nat, k: Bytes)
    ensures match Holder(t, n, k)
      case None => Newest(InOrder(t, n), k) == None
      case Some(j) => j < n && j in t && k in t[j] && Newest(InOrder(t, n), k) == Some(t[j][k])
  {
    if n > 0 {
      HolderIsNewest(t, n - 1, k);
      InOrderStep(t, n - 1);
      var rest := InOrder(t, n - 1);
      if n - 1 in t {
        assert ([t[n - 1]] + rest)[1..] == rest;
      } else {
        assert [] + rest == rest;
      }
    }
  }

  /** If the newest version's table is kept, it stays the newest among the kept. */
  lemma {:induction false} HolderKept(t: Numbered, kept: set<nat>, n: nat, k: Bytes)
    ensures Holder(t, n, k) == None ==> Holder(Restrict(t, kept), n, k) == None
    ensures Holder(t, n, k).Some? && Holder(t, n, k).value in kept ==>
      Holder(Restrict(t, kept), n, k) == Holder(t, n, k)
  {
    if n > 0 {
      HolderKept(t, kept, n - 1, k);
    }
  }

  /** The directory after compaction wrote table n and only `kept` of the old tables remain. */
  function Interrupted(olds: Numbered, kept: set<nat>, n: nat): Numbered {
    Restrict(olds, kept)[n := AsLayer(View(InOrder(olds, n)))]
  }

  /** A deleted key that comes back: its newest version is a tombstone in a removed table,
      and the newest version left is live. */
  predicate Resurrected(olds: Numbered, kept: set<nat>, n: nat, k: Bytes) {
    && var j := Holder(olds, n, k);
    && j.Some? && j.value !in kept && Newest(InOrder(olds, n), k) == Some(None)
    && Seen(Newest(InOrder(Restrict(olds, kept), n), k)).Some?
  }

  lemma InterruptedNewest(olds: Numbered, kept: set<nat>, n: nat, k: Bytes)
    ensures Newest(InOrder(Interrupted(olds, kept, n), n + 1), k) ==
        (if k in View(InOrder(olds, n)) then Some(Some(View(InOrder(olds, n))[k]))
         else Newest(InOrder(Restrict(olds, kept), n), k))
  {
    hide InOrder;
    hide View;
    var v := View(InOrder(olds, n));
    var rest := InOrder(Restrict(olds, kept), n);
    InOrderNewest(Restrict(olds, kept), n, AsLayer(v));
    assert ([AsLayer(v)] + rest)[1..] == rest;
  }

  /** With any subset of the old tables left, the reloaded view differs from the earlier one
      exactly on the resurrected keys, which show the newest version left. */
  lemma InterruptedView(olds: Numbered, kept: set<nat>, n: nat, k: Bytes)
    ensures var before := Get(View(InOrder(olds, n)), k);
      var after := Get(View(InOrder(Interrupted(olds, kept, n), n + 1)), k);
      && (after != before <==> Resurrected(olds, kept, n, k))
      && (after != before ==> before == None && after == Seen(Newest(InOrder(Restrict(olds, kept), n), k)))
  {
    hide InOrder;
    hide View;
    hide Restrict;
    hide Interrupted;
    ViewIsNewest(InOrder(olds, n), k);
    ViewIsNewest(InOrder(Interrupted(olds, kept, n), n + 1), k);
    InterruptedNewest(olds, kept, n, k);
    HolderIsNewest(olds, n, k);
    HolderIsNewest(Restrict(olds, kept), n, k);
    HolderKept(olds, kept, n, k);
    RestrictHolds(olds, kept, n, k);
  }

  lemma RestrictHolds(t: Numbered, kept: set<nat>, n: nat, k: Bytes)
    ensures forall j :: j in Restrict(t, kept) ==> j in t && Restrict(t, kept)[j] == t[j]
  {
  }

  /** None of the old tables removed: nothing changes. */
  lemma NoneRemoved(olds: Numbered, kept: set<nat>, n: nat, k: Bytes)
    requires olds.Keys <= kept
    ensures Get(View(InOrder(Interrupted(olds, kept, n), n + 1)), k) == Get(View(InOrder(olds, n)), k)
  {
    hide InOrder;
    hide View;
    hide Interrupted;
    InterruptedView(olds, kept, n, k);
    HolderIsNewest(olds, n, k);
  }

  /** All of the old tables removed: nothing changes. */
  lemma AllRemoved(olds: Numbered, n: nat, k: Bytes)
    ensures Get(View(InOrder(Interrupted(olds, {}, n), n + 1)), k) == Get(View(InOrder(olds, n)), k)
  {
    hide InOrder;
    hide View;
    hide Interrupted;
    InterruptedView(olds, {}, n, k);
    HolderIsNewest(Restrict(olds, {}), n, k);
  }

  /** Removing oldest first would be safe at every point: a kept table keeps everything newer. */
  lemma OldestFirstIsSafe(olds: Numbered, kept: set<nat>, n: nat, k: Bytes)
    requires forall i, j :: i in olds && j in kept && j < i ==> i in kept
    ensures Get(View(InOrder(Interrupted(olds, kept, n), n + 1)), k) == Get(View(InOrder(olds, n)), k)
  {
    hide InOrder;
    hide View;
    hide Interrupted;
    InterruptedView(olds, kept, n, k);
    HolderIsNewest(Restrict(olds, kept), n, k);
    NewerHolder(olds, kept, n, k);
  }

  lemma {:induction false} NewerHolder(t: Numbered, kept: set<nat>, n: nat, k: Bytes)
    ensures Holder(Restrict(t, kept), n, k).Some? ==>
      Holder(t, n, k).Some? && Holder(t, n, k).value >= Holder(Restrict(t, kept), n, k).value
      && Holder(Restrict(t, kept), n, k).value in kept && Holder(t, n, k).value in t
  {
    if n > 0 {
      NewerHolder(t, kept, n - 1, k);
    }
  }

  /** The code removes newest first, and with four tables the first removal can bring a deleted key back;
      the newest table holds the tombstone and the put p that triggered compaction. */
  lemma NewestFirstResurrects(k: Bytes, v: Bytes, p: Bytes, w: Bytes, a: Layer, b: Layer)
    requires k !in a && k !in b && p != k
    ensures var olds: Numbered := map[0 := map[k := Some(v)], 1 := a, 2 := b, 3 := map[k := None, p := Some(w)]];
      && Get(View(InOrder(olds, 4)), k) == None
      && Get(View(InOrder(Interrupted(olds, {0, 1, 2}, 4), 5)), k) == Some(v)
  {
    hide View;
    hide Interrupted;
    hide InOrder;
    var olds: Numbered := map[0 := map[k := Some(v)], 1 := a, 2 := b, 3 := map[k := None, p := Some(w)]];
    var left := Restrict(olds, {0, 1, 2});
    HolderIsNewest(olds, 4, k);
    ViewIsNewest(InOrder(olds, 4), k);
    assert Holder(left, 4, k) == Holder(left, 2, k) == Some(0);
    HolderIsNewest(left, 4, k);
    InterruptedView(olds, {0, 1, 2}, 4, k);
  }
}
