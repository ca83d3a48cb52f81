/** Two runs of the engine (src/engine/storage_engine.cpp): a deleted key comes back when a crash follows the
    first of compaction's file removals, and an acknowledged write is lost behind a torn log tail. */
module Resurrection {
  import opened Bytes
  import opened Codec
  import opened Entries
  import opened Layers
  import opened Tables
  import opened Wal
  import opened Bloom
  import opened SSTableFormat
  import opened SSTableReader
  import opened Compaction
  import opened Machine
  import opened MachineProof
  import opened History
  import MemTable

  // ---- Short lists fit. ----

  predicate Small(e: Entry) {
    |e.key| <= MAX_KEY && (e.val.Some? ==> |e.val.value| <= MAX_VALUE)
  }

  lemma EntrySize(e: Entry)
    requires Small(e)
    ensures |EncodeEntry(e)| <= 8 + MAX_KEY + MAX_VALUE
    ensures |e.key| < U32_SIZE && ValSize(e.val) < U32_SIZE && (e.val.Some? ==> |e.val.value| < TOMBSTONE_SIZE)
  {
    hide Le;
  }

  lemma ListSize(es: seq<Entry>)
    requires 1 <= |es| <= 2 && forall i :: 0 <= i < |es| ==> Small(es[i])
    ensures |EncodeEntries(es)| <= 2 * (8 + MAX_KEY + MAX_VALUE)
  {
    hide EncodeEntry;
    EntrySize(es[|es| - 1]);
    var t := es[..|es| - 1];
    if t != [] {
      EntrySize(t[0]);
      assert EncodeEntries(t[..0]) == [];
    }
  }

  lemma IndexSize(es: seq<Entry>)
    requires 1 <= |es| <= 2 && forall i :: 0 <= i < |es| ==> Small(es[i])
    ensures |EncodeIndex(SparseIndex(es))| <= 12 + MAX_KEY
  {
    hide EncodeIndexEntry;
    hide SparseIndex;
    SparseIndexAt(es);
    var ix := SparseIndex(es);
    assert |ix| == 1 && EncodeIndex(ix[..0]) == [];
  }

  lemma SmallStorable(es: seq<Entry>)
    requires 1 <= |es| <= 2 && StrictlySorted(es) && forall i :: 0 <= i < |es| ==> Small(es[i])
    ensures Storable(es)
  {
    hide EncodeEntries;
    hide EncodeIndex;
    hide FilterOf;
    hide SparseIndex;
    hide EncodeFilter;
    hide StrictlySorted;
    hide Small;
    ListSize(es);
    IndexSize(es);
    SizesFit(|es|);
    assert |EncodeFooter(FooterOf(es))| == 32;
    forall e | e in es ensures |e.key| < U32_SIZE && ValSize(e.val) < U32_SIZE &&
      (e.val.Some? ==> |e.val.value| < TOMBSTONE_SIZE) {
      EntrySize(e);
    }
  }

  // ---- Runs with a flush threshold. ----

  /** The choices the code makes: it flushes exactly when the memtable has reached the threshold, and after a
      put's flush compacts exactly when there are four tables. */
  ghost predicate AsCoded(s: State, step: Step, t: nat) {
    && (step == WriteTable ==> MemTable.SizeOf(s.mem) >= t)
    && (step == Acknowledge && s.phase == Applied ==> s.mem == [] || MemTable.SizeOf(s.mem) < t)
    && (step == Acknowledge && s.phase == Flushed && s.flight.Some? && s.flight.value.Put? ==>
        |s.open| < COMPACTION_THRESHOLD)
  }

  ghost predicate Coded(steps: seq<Step>, t: nat)
    requires Legal(steps)
  {
    steps == [] || (Coded(steps[..|steps| - 1], t) && AsCoded(Run(steps[..|steps| - 1]), steps[|steps| - 1], t))
  }

  /** One more step of such a run. */
  lemma OneStep(steps: seq<Step>, step: Step, t: nat)
    requires Legal(steps) && Coded(steps, t) && Enabled(Run(steps), step) && AsCoded(Run(steps), step, t)
    ensures Legal(steps + [step]) && Coded(steps + [step], t) && Run(steps + [step]) == After(Run(steps), step)
  {
    hide Enabled;
    hide After;
    hide AsCoded;
    Extend(steps, step);
    assert (steps + [step])[..|steps|] == steps;
  }

  // ---- Pieces of a run. ----

  /** The steps that log an operation and apply it. */
  function Log(op: Op): seq<Step> { [AppendLog(op), UpdateMemtable] }

  /** The steps of a flush. */
  const FLUSH: seq<Step> := [WriteTable, OpenTable, TruncateLog]

  ghost predicate CanLog(steps: seq<Step>, op: Op, t: nat) {
    && Legal(steps) && Coded(steps, t) && Run(steps).phase == Idle && StrictlySorted(Run(steps).mem)
    && op.key != [] && Recoverable(RecordOf(op))
  }

  lemma LogRun(steps: seq<Step>, op: Op, t: nat)
    requires CanLog(steps, op, t)
    ensures Legal(steps + Log(op)) && Coded(steps + Log(op), t)
    ensures var s, r := Run(steps), Run(steps + Log(op));
      && r.phase == Applied && r.flight == Some(op) && r.mem == Upsert(s.mem, op.key, VersionOf(op))
      && r.acked == s.acked && r.open == s.open && r.next == s.next && r.disk.files == s.disk.files
  {
    hide Legal;
    hide Run;
    hide Encode;
    hide Clean;
    hide Upsert;
    hide Recoverable;
    hide StrictlySorted;
    hide Coded;
    OneStep(steps, AppendLog(op), t);
    OneStep(steps + [AppendLog(op)], UpdateMemtable, t);
    assert steps + [AppendLog(op)] + [UpdateMemtable] == steps + Log(op);
  }

  lemma FlushRun(steps: seq<Step>, t: nat)
    requires Legal(steps) && Coded(steps, t) && Run(steps).phase == Applied && Run(steps).mem != []
    requires Storable(Run(steps).mem) && MemTable.SizeOf(Run(steps).mem) >= t
    ensures Legal(steps + FLUSH) && Coded(steps + FLUSH, t)
    ensures var s, r := Run(steps), Run(steps + FLUSH);
      && r.phase == Flushed && r.flight == s.flight && r.mem == [] && !r.exposed && r.acked == s.acked
      && r.open == [s.next] + s.open && r.next == s.next + 1 && T(r) == T(s)[s.next := ToMap(s.mem)]
  {
    hide Legal;
    hide Run;
    hide FileOf;
    hide Storable;
    hide TablesOf;
    hide ToMap;
    hide Inv;
    RunKeepsInv(steps);
    InvSound(Run(steps));
    WriteFile(Run(steps).disk.files, Run(steps).next, Run(steps).mem);
    hide Coded;
    hide MemTable.SizeOf;
    OneStep(steps, WriteTable, t);
    OneStep(steps + [WriteTable], OpenTable, t);
    OneStep(steps + [WriteTable] + [OpenTable], TruncateLog, t);
    assert steps + [WriteTable] + [OpenTable] + [TruncateLog] == steps + FLUSH;
  }

  lemma AckRun(steps: seq<Step>, t: nat)
    requires Legal(steps) && Coded(steps, t) && (Run(steps).phase == Applied || Run(steps).phase == Flushed)
    requires AsCoded(Run(steps), Acknowledge, t)
    ensures Legal(steps + [Acknowledge]) && Coded(steps + [Acknowledge], t)
    ensures var s, r := Run(steps), Run(steps + [Acknowledge]);
      && r.phase == Idle && r.flight == None && r.acked == Model(s)
      && r.mem == s.mem && r.open == s.open && r.next == s.next && T(r) == T(s)
  {
    hide Legal;
    hide Run;
    hide Model;
    hide TablesOf;
    hide Coded;
    hide AsCoded;
    OneStep(steps, Acknowledge, t);
  }

  lemma UpsertEmpty(k: Bytes, v: Version)
    ensures Upsert([], k, v) == [Entry(k, v)] && ToMap([Entry(k, v)]) == map[k := v] && StrictlySorted([Entry(k, v)])
    ensures MemTable.SizeOf([Entry(k, v)]) == |k| + if v.Some? then |v.value| else 0
  {
    assert [Entry(k, v)][..0] == [];
  }

  /** A put that is flushed into a table of its own. */
  function PutTable(k: Bytes, v: Bytes): seq<Step> { Log(Put(k, v)) + FLUSH + [Acknowledge] }

  lemma PutRun(steps: seq<Step>, k: Bytes, v: Bytes, t: nat)
    requires Legal(steps) && Coded(steps, t) && Run(steps).phase == Idle && Run(steps).mem == [] &&
      |Run(steps).open| < 3
    requires k != [] && |k| <= MAX_KEY && |v| <= MAX_VALUE && t <= |k| + |v|
    ensures Legal(steps + PutTable(k, v)) && Coded(steps + PutTable(k, v), t)
    ensures var s, r := Run(steps), Run(steps + PutTable(k, v));
      && r.phase == Idle && r.mem == [] && r.acked == s.acked[k := v]
      && r.open == [s.next] + s.open && r.next == s.next + 1 && T(r) == T(s)[s.next := map[k := Some(v)]]
  {
    hide Legal;
    hide Run;
    hide Storable;
    hide TablesOf;
    hide ToMap;
    hide Upsert;
    hide StrictlySorted;
    assert StrictlySorted([]) by { NoEntries(); }
    UpsertEmpty(k, Some(v));
    hide Coded;
    hide MemTable.SizeOf;
    LogRun(steps, Put(k, v), t);
    var a := steps + Log(Put(k, v));
    SmallStorable([Entry(k, Some(v))]);
    FlushRun(a, t);
    AckRun(a + FLUSH, t);
    assert a + FLUSH + [Acknowledge] == steps + PutTable(k, v);
  }

  lemma NoEntries()
    ensures StrictlySorted([])
  {
  }

  lemma StartRun(t: nat)
    ensures Legal([Restart, Acknowledge]) && Coded([Restart, Acknowledge], t)
    ensures Run([Restart, Acknowledge]) == State(Disk([], map[]), Idle, [], [], 0, map[], None, false)
  {
    hide DiskView;
    FreshDirectory();
    var keys := TablesOf(map[]).Keys;
    assert keys == {};
    assert NextSeq(keys) == 0;
    NothingRecovered();
    assert [Restart, Acknowledge][..1] == [Restart] && [Restart][..0] == [];
    assert Run([Restart]) == After(Initial(), Restart);
    assert Legal([Restart]) && Coded([], t) && Coded([Restart], t);
  }

  // ---- A deleted key comes back. ----

  /** Two keys with values, and a threshold that a put of either reaches and the tombstone of k does not. */
  ghost predicate Chosen(k: Bytes, v: Bytes, p: Bytes, w: Bytes, t: nat) {
    && k != p && k != [] && p != [] && |k| <= MAX_KEY && |p| <= MAX_KEY && |v| <= MAX_VALUE && |w| <= MAX_VALUE
    && |k| < t <= |k| + |v| && t <= |p| + |w|
  }

  /** Three tables: k with its value, then p twice. */
  function ThreeTables(k: Bytes, v: Bytes, p: Bytes, w: Bytes): seq<Step> {
    [Restart, Acknowledge] + PutTable(k, v) + PutTable(p, w) + PutTable(p, w)
  }

  lemma ThreeRun(k: Bytes, v: Bytes, p: Bytes, w: Bytes, t: nat)
    requires Chosen(k, v, p, w, t)
    ensures Legal(ThreeTables(k, v, p, w)) && Coded(ThreeTables(k, v, p, w), t)
    ensures var s := Run(ThreeTables(k, v, p, w));
      && s.phase == Idle && s.mem == [] && s.acked == map[k := v, p := w] && s.open == [2, 1, 0] && s.next == 3
      && T(s) == map[0 := map[k := Some(v)], 1 := map[p := Some(w)], 2 := map[p := Some(w)]]
  {
    hide Legal;
    hide Run;
    hide TablesOf;
    hide PutTable;
    hide Coded;
    StartRun(t);
    assert TablesOf(map[]) == map[] by { NoFiles(); }
    var a := [Restart, Acknowledge];
    PutRun(a, k, v, t);
    PutRun(a + PutTable(k, v), p, w, t);
    PutRun(a + PutTable(k, v) + PutTable(p, w), p, w, t);
  }

  lemma NoFiles()
    ensures TablesOf(map[]) == map[]
  {
  }

  /** Then k is removed, and one more put of p is flushed. */
  function Fourth(k: Bytes, v: Bytes, p: Bytes, w: Bytes): seq<Step> {
    ThreeTables(k, v, p, w) + Log(Remove(k)) + [Acknowledge] + Log(Put(p, w)) + FLUSH
  }

  lemma UpsertTwo(k: Bytes, p: Bytes, w: Bytes)
    requires k != p && |k| <= MAX_KEY && |p| <= MAX_KEY && |w| <= MAX_VALUE
    ensures StrictlySorted([Entry(k, None)])
    ensures var es := Upsert([Entry(k, None)], p, Some(w));
      |es| == 2 && StrictlySorted(es) && ToMap(es) == map[k := None, p := Some(w)] && Small(es[0]) && Small(es[1])
      && MemTable.SizeOf(es) == |k| + |p| + |w|
  {
    hide ToMap;
    hide MemTable.SizeOf;
    UpsertEmpty(k, None);
    MemTable.SizeUpsert([Entry(k, None)], p, Some(w));
    var s := [Entry(k, None)];
    UpsertSorted(s, p, Some(w));
    UpsertMap(s, p, Some(w));
  }

  lemma FourthRun(k: Bytes, v: Bytes, p: Bytes, w: Bytes, t: nat)
    requires Chosen(k, v, p, w, t)
    ensures Legal(Fourth(k, v, p, w)) && Coded(Fourth(k, v, p, w), t)
    ensures var s := Run(Fourth(k, v, p, w));
      && s.phase == Flushed && s.mem == [] && !s.exposed && s.flight == Some(Put(p, w)) && s.acked == map[p := w]
      && s.open == [3, 2, 1, 0] && s.next == 4
      && T(s) == map[0 := map[k := Some(v)], 1 := map[p := Some(w)], 2 := map[p := Some(w)],
        3 := map[k := None, p := Some(w)]]
  {
    hide Legal;
    hide Run;
    hide TablesOf;
    hide ThreeTables;
    hide Upsert;
    hide ToMap;
    hide StrictlySorted;
    hide Storable;
    hide Log;
    hide FLUSH;
    ThreeRun(k, v, p, w, t);
    NoEntries();
    var a := ThreeTables(k, v, p, w);
    hide Coded;
    hide MemTable.SizeOf;
    LogRun(a, Remove(k), t);
    UpsertEmpty(k, None);
    var b := a + Log(Remove(k));
    AckRun(b, t);
    assert map[k := v, p := w] - {k} == map[p := w];
    UpsertTwo(k, p, w);
    LogRun(b + [Acknowledge], Put(p, w), t);
    SmallStorable(Upsert([Entry(k, None)], p, Some(w)));
    FlushRun(b + [Acknowledge] + Log(Put(p, w)), t);
  }

  /** Compaction writes its file, opens it, and removes the newest old file. */
  function Compacting(k: Bytes, v: Bytes, p: Bytes, w: Bytes): seq<Step> {
    Fourth(k, v, p, w) + [WriteCompacted, SwapTables, RemoveOldFile]
  }

  lemma CanCompact(k: Bytes, v: Bytes, p: Bytes, w: Bytes, t: nat)
    requires Chosen(k, v, p, w, t) && Legal(Fourth(k, v, p, w))
    ensures Enabled(Run(Fourth(k, v, p, w)), WriteCompacted)
  {
    hide Legal;
    hide Run;
    hide TablesOf;
    hide Fourth;
    hide Inv;
    hide Storable;
    hide View;
    hide ToMap;
    hide Compacted;
    hide ListsOf;
    hide AsLayer;
    hide Maps;
    hide InOrder;
    hide StrictlySorted;
    FourthRun(k, v, p, w, t);
    var s := Run(Fourth(k, v, p, w));
    RunKeepsInv(Fourth(k, v, p, w));
    FlushedShows(s);
    var ls := ListsOf(s.disk.files, s.open);
    CompactedSorted(ls);
    CompactedMap(ls);
    UpsertEmpty(p, Some(w));
    OneLive(p, w);
    SortedListingUnique(Compacted(ls), [Entry(p, Some(w))]);
    SmallStorable([Entry(p, Some(w))]);
  }

  lemma OneLive(p: Bytes, w: Bytes)
    ensures AsLayer(map[p := w]) == map[p := Some(w)]
    ensures map[p := w] != map[]
    ensures map[p := w][p := w] == map[p := w]
  {
    assert p in map[p := w];
  }

  lemma FlushedShows(s: State)
    requires Inv(s) && s.phase == Flushed
    ensures forall i :: 0 <= i < |s.open| ==> s.open[i] in s.disk.files
    ensures View(Maps(ListsOf(s.disk.files, s.open))) == Model(s)
  {
    hide View;
    hide TablesOf;
    hide InOrder;
    hide ListsOf;
    hide Sound;
    hide Model;
    hide ToMap;
    OpenListings(s);
    ViewEmptyMem(InOrder(T(s), s.next));
  }

  lemma CompactedRun(k: Bytes, v: Bytes, p: Bytes, w: Bytes, t: nat)
    requires Chosen(k, v, p, w, t)
    ensures Legal(Fourth(k, v, p, w) + [WriteCompacted]) && Coded(Fourth(k, v, p, w) + [WriteCompacted], t)
    ensures var s := Run(Fourth(k, v, p, w) + [WriteCompacted]);
      && s.phase == CompactWritten && !s.exposed && s.acked == map[p := w] && s.flight == Some(Put(p, w)) &&
        s.open == [3, 2, 1, 0]
      && (forall i :: 0 <= i < 4 ==> i in T(s))
      && T(s)[0] == map[k := Some(v)] && T(s)[1] == map[p := Some(w)] && T(s)[2] == map[p := Some(w)]
  {
    hide Legal;
    hide Run;
    hide TablesOf;
    hide Fourth;
    hide Inv;
    hide Storable;
    hide FileOf;
    hide Compacted;
    hide ListsOf;
    hide ToMap;
    hide Coded;
    hide MemTable.SizeOf;
    FourthRun(k, v, p, w, t);
    CanCompact(k, v, p, w, t);
    var a := Fourth(k, v, p, w);
    var s := Run(a);
    RunKeepsInv(a);
    InvSound(s);
    WriteFile(s.disk.files, s.next, Compacted(ListsOf(s.disk.files, s.open)));
    OneStep(a, WriteCompacted, t);
  }

  lemma SwappedRun(k: Bytes, v: Bytes, p: Bytes, w: Bytes, t: nat)
    requires Chosen(k, v, p, w, t)
    ensures Legal(Fourth(k, v, p, w) + [WriteCompacted, SwapTables]) &&
      Coded(Fourth(k, v, p, w) + [WriteCompacted, SwapTables], t)
    ensures var s := Run(Fourth(k, v, p, w) + [WriteCompacted, SwapTables]);
      && s.phase == Removing([3, 2, 1, 0]) && !s.exposed && s.acked == map[p := w] && s.flight == Some(Put(p, w))
      && (forall i :: 0 <= i < 4 ==> i in T(s))
      && T(s)[0] == map[k := Some(v)] && T(s)[1] == map[p := Some(w)] && T(s)[2] == map[p := Some(w)]
  {
    hide Legal;
    hide Run;
    hide TablesOf;
    hide Fourth;
    hide Coded;
    hide MemTable.SizeOf;
    CompactedRun(k, v, p, w, t);
    var a := Fourth(k, v, p, w);
    OneStep(a + [WriteCompacted], SwapTables, t);
    assert a + [WriteCompacted] + [SwapTables] == a + [WriteCompacted, SwapTables];
  }

  lemma CompactingRun(k: Bytes, v: Bytes, p: Bytes, w: Bytes, t: nat)
    requires Chosen(k, v, p, w, t)
    ensures Legal(Compacting(k, v, p, w)) && Coded(Compacting(k, v, p, w), t)
    ensures var s := Run(Compacting(k, v, p, w));
      && s.phase == Removing([2, 1, 0]) && !s.exposed && Model(s) == map[p := w]
      && 0 in T(s) && 1 in T(s) && 2 in T(s)
      && T(s)[0] == map[k := Some(v)] && T(s)[1] == map[p := Some(w)] && T(s)[2] == map[p := Some(w)]
  {
    hide Legal;
    hide Run;
    hide TablesOf;
    hide Fourth;
    hide Inv;
    SwappedRun(k, v, p, w, t);
    var a := Fourth(k, v, p, w) + [WriteCompacted, SwapTables];
    RunKeepsInv(a);
    InvSound(Run(a));
    DropFile(Run(a).disk.files, 3);
    hide Coded;
    OneStep(a, RemoveOldFile, t);
    assert a + [RemoveOldFile] == Compacting(k, v, p, w);
    OneLive(p, w);
  }

  lemma {:induction false} NoCrashIsSafe(steps: seq<Step>)
    requires Legal(steps) && Crash !in steps
    ensures SafeRemovals(steps)
  {
    hide Run;
    hide Enabled;
    if steps != [] {
      assert steps[|steps| - 1] in steps;
      NoCrashIsSafe(steps[..|steps| - 1]);
    }
  }

  lemma NoCrashSoFar(k: Bytes, v: Bytes, p: Bytes, w: Bytes)
    ensures Crash !in Compacting(k, v, p, w)
  {
  }

  /** A run the code takes, with threshold t, in which a crash brings a deleted key back: the history has removed
      k, with the removal acknowledged, and after the crash the disk shows k with its old value. */
  lemma DeletedKeyComesBack(k: Bytes, v: Bytes, p: Bytes, w: Bytes, t: nat)
    requires Chosen(k, v, p, w, t)
    ensures Legal(Compacting(k, v, p, w) + [Crash]) && Coded(Compacting(k, v, p, w) + [Crash], t)
    ensures Expected(Recall(Compacting(k, v, p, w))) == map[p := w]
    ensures DiskView(Run(Compacting(k, v, p, w) + [Crash]).disk) == map[k := v, p := w]
  {
    hide Legal;
    hide Run;
    hide TablesOf;
    hide Compacting;
    hide DiskView;
    hide Recall;
    hide Expected;
    hide SafeRemovals;
    hide View;
    hide Model;
    var a := Compacting(k, v, p, w);
    CompactingRun(k, v, p, w, t);
    NoCrashSoFar(k, v, p, w);
    NoCrashIsSafe(a);
    Follows(a);
    ModelContains(Run(a), Recall(a));
    DurabilityWhileRemoving(a);
    hide Coded;
    OneStep(a, Crash, t);
    var s := Run(a);
    LeftoverView(T(s), k, v, p, w);
    assert map[k := v, p := w] + map[p := w] == map[k := v, p := w];
  }

  lemma LeftoverView(t: Numbered, k: Bytes, v: Bytes, p: Bytes, w: Bytes)
    requires k != p && 0 in t && 1 in t && 2 in t
    requires t[0] == map[k := Some(v)] && t[1] == map[p := Some(w)] && t[2] == map[p := Some(w)]
    ensures View(Pick(t, [2, 1, 0])) == map[k := v, p := w]
  {
    var ts := Pick(t, [2, 1, 0]);
    assert ts == [t[2], t[1], t[0]];
    assert ts[1..] == [t[1], t[0]] && ts[1..][1..] == [t[0]];
    var last: seq<Layer> := [t[0]];
    assert last[1..] == [];
    assert Merge([t[0]]) == t[0];
    assert Merge([t[1], t[0]]) == t[0] + t[1];
    assert Merge(ts) == t[0] + t[1] + t[2];
  }

  // ---- An acknowledged write is lost. ----

  /** A crash leaves four bytes of a record; after the restart k is put and acknowledged. */
  function BehindTail(op: Op, k: Bytes, v: Bytes): seq<Step> {
    [Restart, Acknowledge, CrashInAppend(op, 4), Restart, Acknowledge] + Log(Put(k, v)) + [Acknowledge]
  }

  /** The directory it leaves: four bytes of one record, and the whole of another. */
  function TornLog(op: Op): Bytes { Encode(RecordOf(op))[..4] }

  lemma TornRecovers(op: Op, k: Bytes, v: Bytes)
    requires Recoverable(RecordOf(op))
    ensures Recovered(TornLog(op)) == [] && Recovered(TornLog(op) + Encode(Record(PUT, k, v))) == [] && Clean([])
  {
    hide *;
    RecoverableIsFramable(RecordOf(op));
    EncodedLength(RecordOf(op));
    TornIs(op);
    TornTailIgnored([], RecordOf(op), 4);
    var next := Record(PUT, k, v);
    LostBehindTornChecksum([], TornLog(op), next, []);
    NoRecords(TornLog(op));
    NoRecords(TornLog(op) + Encode(next) + []);
    assert TornLog(op) + Encode(next) + [] == TornLog(op) + Encode(next);
    EmptyIsClean();
  }

  lemma TornIs(op: Op)
    ensures |Encode(RecordOf(op))| >= 4 && TornLog(op) == Encode(RecordOf(op))[..4]
  {
  }

  lemma EncodedLength(r: Record)
    ensures |Encode(r)| >= 13
  {
  }

  lemma NoRecords(rest: Bytes)
    ensures EncodeAll([]) + rest == rest
  {
  }

  lemma EmptyIsClean()
    ensures Clean([])
  {
  }

  /** From the empty directory to the second start. */
  lemma TornRun(op: Op, t: nat)
    requires Recoverable(RecordOf(op))
    ensures var a := [Restart, Acknowledge, CrashInAppend(op, 4), Restart, Acknowledge];
      Legal(a) && Coded(a, t) && Run(a) == State(Disk(TornLog(op), map[]), Idle, [], [], 0, map[], None, false)
  {
    hide Legal;
    hide Run;
    hide Coded;
    hide Encode;
    hide Recovered;
    hide Recoverable;
    hide DiskView;
    StartRun(t);
    TornRecovers(op, [], []);
    EncodedLength(RecordOf(op));
    NoTableFiles();
    var a := [Restart, Acknowledge];
    OneStep(a, CrashInAppend(op, 4), t);
    assert [] + Encode(RecordOf(op))[..4] == TornLog(op);
    var b := a + [CrashInAppend(op, 4)];
    OneStep(b, Restart, t);
    OneStep(b + [Restart], Acknowledge, t);
    assert b + [Restart] + [Acknowledge] == [Restart, Acknowledge, CrashInAppend(op, 4), Restart, Acknowledge];
  }

  lemma NoTableFiles()
    ensures TablesOf(map[]) == map[] && NextSeq(TablesOf(map[]).Keys) == 0 && Descending(TablesOf(map[]).Keys, 0) == []
    ensures AllValid(map[]) && InOrder(map[], 0) == []
  {
  }

  /** The code takes this run, and it loses an acknowledged write: the history holds k, and a restart would show
      nothing. */
  lemma LostBehindTail(op: Op, k: Bytes, v: Bytes, t: nat)
    requires Recoverable(RecordOf(op)) && k != [] && Recoverable(Record(PUT, k, v)) && |k| + |v| < t
    ensures var run := BehindTail(op, k, v);
      && Legal(run) && Coded(run, t) && Run(run).phase == Idle && SafeRemovals(run)
      && Written(Recall(run).done) == map[k := v] && Recall(run).flight == None
      && DiskView(Run(run).disk) == map[]
  {
    hide Legal;
    hide Run;
    hide Coded;
    hide Recovered;
    hide Recoverable;
    hide Encode;
    hide DiskView;
    hide SafeRemovals;
    hide Recall;
    hide Written;
    hide Upsert;
    hide MemTable.SizeOf;
    hide ToMap;
    TornRun(op, t);
    NoEntries();
    UpsertEmpty(k, Some(v));
    var a := [Restart, Acknowledge, CrashInAppend(op, 4), Restart, Acknowledge];
    LogRun(a, Put(k, v), t);
    TornLogged(a, op, k, v);
    var b := a + Log(Put(k, v));
    AckRun(b, t);
    AckKeepsDisk(b);
    var run := BehindTail(op, k, v);
    assert b + [Acknowledge] == run;
    NoCrashBehind(op, k, v);
    NoCrashIsSafe(run);
    Follows(run);
    TornRecovers(op, k, v);
    NothingShown(Run(run).disk);
  }

  lemma TornLogged(a: seq<Step>, op: Op, k: Bytes, v: Bytes)
    requires Legal(a) && Run(a) == State(Disk(TornLog(op), map[]), Idle, [], [], 0, map[], None, false)
    requires k != [] && Recoverable(Record(PUT, k, v)) && Legal(a + Log(Put(k, v)))
    ensures Run(a + Log(Put(k, v))).disk == Disk(TornLog(op) + Encode(Record(PUT, k, v)), map[])
  {
    hide Legal;
    hide Run;
    hide Encode;
    hide Recoverable;
    hide Clean;
    hide Upsert;
    assert a + Log(Put(k, v)) == a + [AppendLog(Put(k, v))] + [UpdateMemtable];
    RunStep(a + [AppendLog(Put(k, v))], UpdateMemtable);
    RunStep(a, AppendLog(Put(k, v)));
  }

  lemma AckKeepsDisk(steps: seq<Step>)
    requires Legal(steps + [Acknowledge])
    ensures Legal(steps) && Run(steps + [Acknowledge]).disk == Run(steps).disk
  {
    hide Legal;
    hide Run;
    hide Model;
    RunStep(steps, Acknowledge);
  }

  lemma NoCrashBehind(op: Op, k: Bytes, v: Bytes)
    ensures Crash !in BehindTail(op, k, v)
  {
  }

  lemma NothingShown(d: Disk)
    requires d.files == map[] && Recovered(d.log) == []
    ensures DiskView(d) == map[]
  {
    hide Recovered;
    hide View;
    hide TablesOf;
    NoTableFiles();
    ViewEmptyMem([]);
    NoView();
  }
}
