/** `StorageEngine` (src/engine/storage_engine.cpp). The object records, as a ghost
    trace, the machine step each of its effects is; so every disk state it passes
    through is a state of a machine run, and the crash theorems apply to it. */
module Engine {
  import opened Bytes
  import opened Entries
  import opened Layers
  import opened Tables
  import opened Wal
  import opened SSTableFormat
  import opened SSTableReader
  import SSTableWriter
  import MemTable
  import opened Compaction
  import opened Machine
  import opened MachineProof
  import opened History

  /** An open table: its number and its reader. */
  datatype SSTable = SSTable(num: nat, reader: Reader)

  function Numbers(ts: seq<SSTable>): (ns: seq<nat>)
    ensures |ns| == |ts|
  {
    seq(|ts|, i requires 0 <= i < |ts| => ts[i].num)
  }

  function Readers(ts: seq<SSTable>): (rs: seq<Reader>)
    ensures |rs| == |ts|
  {
    seq(|ts|, i requires 0 <= i < |ts| => ts[i].reader)
  }

  /** Every open table reads the file of its number. */
  ghost predicate ReadsFiles(ts: seq<SSTable>, files: map<nat, Bytes>) {
    forall i :: 0 <= i < |ts| ==> ts[i].num in files && ts[i].reader.file == files[ts[i].num] && ts[i].reader.Valid()
  }

  /** The tables this call may write stay within the widths of the file format. */
  ghost predicate RoomFor(mem: seq<Entry>, files: map<nat, Bytes>, open: seq<nat>) {
    && (forall i :: 0 <= i < |open| ==> open[i] in files)
    && Storable(mem)
    && (|open| + 1 >= COMPACTION_THRESHOLD ==> Storable(Compacted([mem] + ListsOf(files, open))))
  }

  /** The listings after a flush: the memtable on top of the tables before. */
  lemma FlushedLists(files: map<nat, Bytes>, open: seq<nat>, n: nat, mem: seq<Entry>)
    requires Storable(mem) && forall i :: 0 <= i < |open| ==> open[i] in files && open[i] < n
    ensures var files' := files[n := FileOf(mem)]; var open' := [n] + open;
      (forall i :: 0 <= i < |open'| ==> open'[i] in files') && ListsOf(files', open') == [mem] + ListsOf(files, open)
  {
    hide Storable;
    hide FileOf;
    hide SSTableReader.Contents;
    ContentsOfBuilt(mem);
  }

  /** The machine state has the engine's fields. */
  ghost predicate Mirrors(s: State, log: Bytes, files: map<nat, Bytes>, mem: seq<Entry>, ts: seq<SSTable>, next: nat) {
    s.disk == Disk(log, files) && s.mem == mem && s.open == Numbers(ts) && s.next == next && ReadsFiles(ts, files)
  }

  /** A write after which the keys and live values held have reached the threshold. */
  ghost predicate Fills(mem: seq<Entry>, k: Bytes, v: Version, threshold: nat)
    requires StrictlySorted(mem)
  {
    MemTable.SizeOf(Upsert(mem, k, v)) >= threshold
  }

  lemma OpenBelowNext(s: State)
    requires Inv(s) && (s.phase == Idle || s.phase == Applied || s.phase == Flushed)
    ensures forall i :: 0 <= i < |s.open| ==> s.open[i] < s.next
  {
    hide View;
    hide TablesOf;
    hide Replay;
    hide Recovered;
    DescendingRange(T(s).Keys, s.next);
  }

  /** Writing a file with a number above all open ones leaves the open tables as they are. */
  lemma StillReads(ts: seq<SSTable>, files: map<nat, Bytes>, n: nat, file: Bytes)
    requires ReadsFiles(ts, files) && forall i :: 0 <= i < |ts| ==> Numbers(ts)[i] < n
    ensures ReadsFiles(ts, files[n := file])
  {
    hide Reader.Valid;
    assert forall i :: 0 <= i < |ts| ==> Numbers(ts)[i] == ts[i].num;
  }

  lemma ReadsBuilt(ts: seq<SSTable>, files: map<nat, Bytes>, n: nat, es: seq<Entry>)
    requires ReadsFiles(ts, files) && Storable(es) && n in files && files[n] == FileOf(es)
    ensures ReadsFiles([SSTable(n, ReaderOf(es))] + ts, files)
    ensures Numbers([SSTable(n, ReaderOf(es))] + ts) == [n] + Numbers(ts)
  {
    hide Reader.Valid;
    hide FileOf;
    hide Storable;
    hide SparseIndex;
    hide FilterOf;
    hide Offset;
    ReaderOfValid(es);
  }

  lemma ReadsListings(ts: seq<SSTable>, files: map<nat, Bytes>)
    requires ReadsFiles(ts, files)
    ensures forall i :: 0 <= i < |ts| ==> Numbers(ts)[i] in files && Readers(ts)[i].Valid()
    ensures Listings(Readers(ts)) == ListsOf(files, Numbers(ts))
  {
    hide Reader.Valid;
    hide SSTableReader.Contents;
  }

  /** The part of a state that flushing and compaction do not touch. */
  ghost predicate SameClient(s: State, t: State) {
    s.acked == t.acked && s.flight == t.flight
  }

  // ---- Loading. ----

  lemma DownIsBlank(steps: seq<Step>)
    requires Legal(steps) && Run(steps).phase == Down
    ensures var s := Run(steps); s.mem == [] && s.open == [] && s.next == 0 && s.flight == None
  {
    DownShape(steps);
  }

  lemma MirrorsDisk(s: State, log: Bytes, files: map<nat, Bytes>, mem: seq<Entry>, ts: seq<SSTable>, next: nat)
    requires Mirrors(s, log, files, mem, ts, next)
    ensures s.disk == Disk(log, files)
  {
  }

  lemma BlankMirrors(s: State, log: Bytes, files: map<nat, Bytes>)
    requires s.disk == Disk(log, files) && s.mem == [] && s.open == [] && s.next == 0
    ensures Mirrors(s, log, files, [], [], 0)
  {
  }

  /** The volatile fields are blank whenever the machine is down. */
  lemma {:induction false} DownShape(steps: seq<Step>)
    requires Legal(steps)
    ensures var s := Run(steps); s.phase == Down ==> s.mem == [] && s.open == [] && s.next == 0 && s.flight == None
  {
    hide Enabled;
    if steps != [] {
      var before := steps[..|steps| - 1];
      DownShape(before);
      BlankAfter(Run(before), steps[|steps| - 1]);
    }
  }

  lemma BlankAfter(s: State, step: Step)
    requires Enabled(s, step)
    requires s.phase == Down ==> s.mem == [] && s.open == [] && s.next == 0 && s.flight == None
    ensures var t := After(s, step); t.phase == Down ==> t.mem == [] && t.open == [] && t.next == 0 && t.flight == None
  {
    hide View;
    hide TablesOf;
    hide Storable;
    hide Clean;
    hide Encode;
    hide HasMagic;
    hide FileOf;
    hide Compacted;
    hide Replay;
    hide Recovered;
    hide Survives;
  }

  /** Insertion into a descending list: `std::sort` of the table numbers, one number at a time. */
  function Insert(ns: seq<nat>, n: nat): seq<nat> {
    if ns == [] || ns[0] < n then [n] + ns else [ns[0]] + Insert(ns[1..], n)
  }

  lemma {:induction false} InsertInOrder(keys: set<nat>, bound: nat, n: nat)
    requires n < bound && n !in keys
    ensures Insert(Descending(keys, bound), n) == Descending(keys + {n}, bound)
  {
    hide Descending;
    var b := bound - 1;
    DescendingStep(keys, b);
    DescendingStep(keys + {n}, b);
    DescendingRange(keys, b);
    if n == b {
      DescendingAgree(keys, keys + {n}, b);
    } else {
      InsertInOrder(keys, b, n);
      if b in keys {
        assert ([b] + Descending(keys, b))[1..] == Descending(keys, b);
      }
    }
  }

  lemma DescendingStep(keys: set<nat>, b: nat)
    ensures Descending(keys, b + 1) == if b in keys then [b] + Descending(keys, b) else Descending(keys, b)
  {
  }

  lemma NothingFound(keys: set<nat>, bound: nat)
    ensures Descending(keys - keys, bound) == []
  {
    assert keys - keys == {};
    DescendingEmpty(bound);
  }

  lemma {:induction false} DescendingEmpty(bound: nat)
    ensures Descending({}, bound) == []
  {
    if bound > 0 {
      DescendingEmpty(bound - 1);
    }
  }

  lemma SameOrder(keys: set<nat>, bound: nat)
    requires forall n :: n in keys ==> n < bound
    ensures Descending(keys, bound) == Descending(keys, NextSeq(keys))
  {
    hide Descending;
    DescendingBeyond(keys, NextSeq(keys), bound);
  }

  lemma ValidKeys(files: map<nat, Bytes>)
    requires AllValid(files)
    ensures TablesOf(files).Keys == files.Keys
  {
    hide HasMagic;
    hide SSTableReader.Contents;
  }

  /** The opening loop of `load_sstables`. */
  method OpenTables(found: seq<nat>, files: map<nat, Bytes>) returns (tables: seq<SSTable>, next: nat)
    requires AllValid(files) && Sound(files) && found == Descending(files.Keys, NextSeq(files.Keys))
    ensures ReadsFiles(tables, files) && Numbers(tables) == found && next == NextSeq(files.Keys)
  {
    hide HasMagic;
    hide Reader.Valid;
    hide SSTableReader.Contents;
    hide IsBuilt;
    hide Descending;
    DescendingRange(files.Keys, NextSeq(files.Keys));
    tables, next := [], 0;
    for i := 0 to |found|
      invariant ReadsFiles(tables, files) && Numbers(tables) == found[..i]
      invariant next == if i == 0 then 0 else found[0] + 1
    {
      var reader := OpenSound(files[found[i]]);
      tables := tables + [SSTable(found[i], reader)];
      if found[i] >= next {
        next := found[i] + 1;
      }
    }
    FirstIsHighest(files.Keys);
  }

  method OpenSound(file: Bytes) returns (r: Reader)
    requires IsBuilt(file, SSTableReader.Contents(file))
    ensures r.Valid() && r.file == file
  {
    hide *;
    ghost var es := SSTableReader.Contents(file);
    BuiltReads(file, es);
    r := OpenBuilt(file, es);
  }

  lemma BuiltReads(file: Bytes, es: seq<Entry>)
    requires IsBuilt(file, es)
    ensures Storable(es) && file == FileOf(es) && ReaderOf(es).Valid() && ReaderOf(es).file == file
  {
    hide Storable;
    hide FileOf;
    hide Reader.Valid;
    ReaderOfValid(es);
  }

  lemma FirstIsHighest(keys: set<nat>)
    ensures var d := Descending(keys, NextSeq(keys)); NextSeq(keys) == if d == [] then 0 else d[0] + 1
  {
    var n := NextSeq(keys);
    if n > 0 {
      assert n - 1 in keys;
    }
  }

  class StorageEngine {
    const wal: WriteAheadLog
    const memtable: MemTable.Table
    var files: map<nat, Bytes>
    var sstables: seq<SSTable>
    var nextSeq: nat
    ghost var trace: seq<Step>

    ghost predicate Tracks()
      reads this, wal, memtable
    {
      && memtable.Valid()
      && Legal(trace)
      && Mirrors(Run(trace), wal.log, files, memtable.data, sstables, nextSeq)
    }

    /** Between operations. */
    ghost predicate Valid()
      reads this, wal, memtable
    {
      Tracks() && Run(trace).phase == Idle
    }

    /** The plain map the engine should show. */
    ghost function Acknowledged(): map<Bytes, Bytes>
      requires Legal(trace)
      reads this
    {
      Run(trace).acked
    }

    /** That map is the client's history of finished writes, on every trace without a crash between two file removals.
        */
    lemma AcknowledgedIsHistory()
      requires Legal(trace) && SafeRemovals(trace)
      ensures Acknowledged() == Written(Recall(trace).done)
    {
      hide Run;
      hide Legal;
      Follows(trace);
    }

    /** Start on the directory a run has left behind: load the tables, replay the log, and
        flush if the memtable is already full. The engine then holds exactly what survived. */
    constructor (contents: map<nat, Bytes>, log: Bytes, threshold: nat, ghost steps: seq<Step>)
      requires Legal(steps) && Run(steps).phase == Down && Run(steps).disk == Disk(log, contents)
      requires Replay(Recovered(log)) != [] && MemTable.SizeOf(Replay(Recovered(log))) >= threshold ==>
        Storable(Replay(Recovered(log)))
      ensures Valid() && fresh(wal) && fresh(memtable) && memtable.flushThreshold == threshold
      ensures steps <= trace && Acknowledged() == Run(steps).acked
      ensures memtable.data == [] || MemTable.SizeOf(memtable.data) < threshold
    {
      hide Run;
      hide Legal;
      hide Mirrors;
      hide Storable;
      hide Replay;
      hide Recovered;
      hide StrictlySorted;
      hide MemTable.SizeOf;
      hide ReadsFiles;
      hide After;
      hide Enabled;
      hide Numbers;
      DownIsBlank(steps);
      BlankMirrors(Run(steps), log, contents);
      wal := new WriteAheadLog(log);
      memtable := new MemTable.Table(threshold);
      files, sstables, nextSeq, trace := contents, [], 0, steps;
      new;
      Start();
    }

    /** The rest of the constructor. */
    method Start()
      requires Tracks() && Run(trace).phase == Down && Run(trace).flight == None && sstables == [] &&
        memtable.data == []
      requires var mem := Replay(Recovered(wal.log));
        mem != [] && MemTable.SizeOf(mem) >= memtable.flushThreshold ==> Storable(mem)
      modifies this, wal, memtable
      ensures Valid() && old(trace) <= trace && Acknowledged() == old(Acknowledged())
      ensures memtable.data == [] || MemTable.SizeOf(memtable.data) < memtable.flushThreshold
    {
      hide Run;
      hide Legal;
      hide Storable;
      hide FileOf;
      hide Numbers;
      hide Mirrors;
      hide Replay;
      hide Recovered;
      hide StrictlySorted;
      hide MemTable.SizeOf;
      hide After;
      hide Enabled;
      hide TablesOf;
      hide NextSeq;
      hide Descending;
      hide AllValid;
      hide ReadsFiles;
      var tables, next := LoadSSTables();
      MirrorsDisk(Run(trace), wal.log, files, memtable.data, sstables, nextSeq);
      ReplayLog();
      BeginWith(tables, next);
      var full := memtable.ShouldFlush();
      if full && memtable.data != [] {
        FlushMemtable();
      }
      Return();
    }

    /** The engine is up: tables open, log replayed. */
    method BeginWith(tables: seq<SSTable>, next: nat)
      requires Legal(trace) && Run(trace).phase == Down && Run(trace).disk == Disk(wal.log, files)
      requires memtable.Valid() && memtable.data == Replay(Recovered(wal.log))
      requires AllValid(files) && ReadsFiles(tables, files)
      requires var keys := TablesOf(files).Keys; next == NextSeq(keys) && Numbers(tables) == Descending(keys, next)
      modifies this
      ensures Tracks() && trace == old(trace) + [Restart] && Run(trace).phase == Applied
      ensures SameClient(Run(trace), old(Run(trace))) && memtable.data == old(memtable.data)
    {
      hide Run;
      hide Legal;
      hide ReadsFiles;
      hide Numbers;
      hide Replay;
      hide Recovered;
      hide StrictlySorted;
      hide MemTable.SizeOf;
      hide TablesOf;
      hide AllValid;
      hide NextSeq;
      hide Descending;
      Extend(trace, Restart);
      sstables, nextSeq := tables, next;
      trace := trace + [Restart];
    }

    /** `load_sstables`: drop files that fail `validate`, open the rest, highest number first. */
    method LoadSSTables() returns (tables: seq<SSTable>, next: nat)
      requires Tracks() && Run(trace).phase == Down && sstables == []
      modifies this
      ensures Tracks() && old(trace) <= trace && Run(trace).phase == Down && sstables == []
      ensures SameClient(Run(trace), old(Run(trace)))
      ensures AllValid(files) && ReadsFiles(tables, files)
      ensures var keys := TablesOf(files).Keys; next == NextSeq(keys) && Numbers(tables) == Descending(keys, next)
    {
      hide Run;
      hide Legal;
      hide Inv;
      hide ReadsFiles;
      hide Storable;
      hide FileOf;
      hide Numbers;
      hide StrictlySorted;
      hide MemTable.SizeOf;
      hide NextSeq;
      hide Descending;
      hide TablesOf;
      var found := DropCorruptFiles();
      RunKeepsInv(trace);
      InvSound(Run(trace));
      ValidKeys(files);
      tables, next := OpenTables(found, files);
    }

    method RemoveFile(n: nat)
      requires Tracks() && Run(trace).phase == Down && sstables == [] && n in files && !HasMagic(files[n])
      modifies this
      ensures Tracks() && old(trace) <= trace && Run(trace).phase == Down && sstables == []
      ensures SameClient(Run(trace), old(Run(trace))) && files == old(files) - {n}
    {
      hide Run;
      hide Legal;
      hide ReadsFiles;
      hide Numbers;
      hide StrictlySorted;
      hide MemTable.SizeOf;
      hide HasMagic;
      Extend(trace, RemoveCorruptFile(n));
      NoTables(files - {n});
      files := files - {n};
      trace := trace + [RemoveCorruptFile(n)];
    }

    /** The directory loop of `load_sstables`; files come in no particular order. */
    method DropCorruptFiles() returns (found: seq<nat>)
      requires Tracks() && Run(trace).phase == Down && sstables == []
      modifies this
      ensures Tracks() && old(trace) <= trace && Run(trace).phase == Down && sstables == []
      ensures SameClient(Run(trace), old(Run(trace)))
      ensures AllValid(files) && found == Descending(files.Keys, NextSeq(files.Keys))
    {
      hide Survives;
      hide Clean;
      hide Encode;
      hide TablesOf;
      hide Compacted;
      hide Replay;
      hide Recovered;
      hide Recoverable;
      hide Mirrors;
      hide After;
      hide Enabled;
      hide Run;
      hide Legal;
      hide Inv;
      hide ReadsFiles;
      hide Storable;
      hide FileOf;
      hide Numbers;
      hide StrictlySorted;
      hide MemTable.SizeOf;
      hide NextSeq;
      hide Descending;
      hide HasMagic;
      found := [];
      var todo := files.Keys;
      ghost var bound := NextSeq(files.Keys);
      NothingFound(files.Keys, bound);
      while todo != {}
        invariant todo <= files.Keys && (forall n :: n in files ==> n < bound)
        invariant found == Descending(files.Keys - todo, bound)
        invariant forall n :: n in files && n !in todo ==> HasMagic(files[n])
        invariant Tracks() && old(trace) <= trace && Run(trace).phase == Down && sstables == []
        invariant SameClient(Run(trace), old(Run(trace)))
        decreases todo
      {
        var n :| n in todo;
        ghost var seen := files.Keys - todo;
        todo := todo - {n};
        var ok := Validate(files[n]);
        if ok {
          InsertInOrder(seen, bound, n);
          assert files.Keys - todo == seen + {n};
          found := Insert(found, n);
        } else {
          RemoveFile(n);
          assert files.Keys - todo == seen;
        }
      }
      assert files.Keys - todo == files.Keys;
      SameOrder(files.Keys, bound);
    }

    /** `recover`: replay the log into the memtable. */
    method ReplayLog()
      requires memtable.Valid() && memtable.data == []
      modifies memtable
      ensures memtable.Valid() && memtable.data == Replay(Recovered(wal.log))
    {
      hide Recovered;
      hide Upsert;
      hide StrictlySorted;
      hide MemTable.SizeOf;
      var records := wal.Recover();
      for i := 0 to |records|
        invariant memtable.Valid() && memtable.data == Replay(records[..i])
      {
        assert records[..i + 1][..i] == records[..i];
        if records[i].op == PUT {
          memtable.Put(records[i].key, records[i].val);
        } else if records[i].op == DELETE {
          memtable.Remove(records[i].key);
        }
      }
      assert records[..|records|] == records;
    }

    // ---- One method per disk step. ----

    method WriteTableFile()
      requires Tracks() && Enabled(Run(trace), WriteTable)
      modifies this
      ensures Tracks() && trace == old(trace) + [WriteTable] && Run(trace) == After(old(Run(trace)), WriteTable)
      ensures sstables == old(sstables) && nextSeq == old(nextSeq)
      ensures files == old(files)[nextSeq := FileOf(memtable.data)]
    {
      hide Run;
      hide Legal;
      hide Inv;
      hide ReadsFiles;
      hide Storable;
      hide FileOf;
      hide Numbers;
      hide StrictlySorted;
      hide MemTable.SizeOf;
      RunKeepsInv(trace);
      OpenBelowNext(Run(trace));
      var entries := memtable.DumpSorted();
      StorableIsWritable(entries);
      var _, file := SSTableWriter.Build(entries);
      Extend(trace, WriteTable);
      StillReads(sstables, files, nextSeq, file);
      files := files[nextSeq := file];
      trace := trace + [WriteTable];
    }

    /** Open the new file, count it, clear the memtable. */
    method OpenFlushedTable()
      requires Tracks() && Enabled(Run(trace), OpenTable)
      requires Storable(memtable.data) && nextSeq in files && files[nextSeq] == FileOf(memtable.data)
      modifies this, memtable
      ensures Tracks() && trace == old(trace) + [OpenTable] && Run(trace) == After(old(Run(trace)), OpenTable)
      ensures Numbers(sstables) == [old(nextSeq)] + old(Numbers(sstables)) && files == old(files)
    {
      hide ReaderOf;
      hide SSTableReader.Contents;
      hide TablesOf;
      hide Compacted;
      hide Clean;
      hide HasMagic;
      hide AllValid;
      hide Run;
      hide Legal;
      hide Inv;
      hide ReadsFiles;
      hide Storable;
      hide FileOf;
      hide Numbers;
      hide StrictlySorted;
      hide MemTable.SizeOf;
      Extend(trace, OpenTable);
      ReadsBuilt(sstables, files, nextSeq, memtable.data);
      var reader := OpenBuilt(files[nextSeq], memtable.data);
      sstables := [SSTable(nextSeq, reader)] + sstables;
      nextSeq := nextSeq + 1;
      memtable.Clear();
      trace := trace + [OpenTable];
    }

    method ClearLog()
      requires Tracks() && Enabled(Run(trace), TruncateLog)
      modifies this, wal
      ensures Tracks() && trace == old(trace) + [TruncateLog] && Run(trace) == After(old(Run(trace)), TruncateLog)
      ensures sstables == old(sstables) && files == old(files)
    {
      hide Run;
      hide Legal;
      hide Inv;
      hide ReadsFiles;
      hide Storable;
      hide FileOf;
      hide Numbers;
      hide StrictlySorted;
      hide MemTable.SizeOf;
      Extend(trace, TruncateLog);
      wal.Clear();
      trace := trace + [TruncateLog];
    }

    method WriteCompactedFile()
      requires Tracks() && Enabled(Run(trace), WriteCompacted)
      modifies this
      ensures Tracks() && trace == old(trace) + [WriteCompacted] && Run(trace) == After(old(Run(trace)), WriteCompacted)
      ensures sstables == old(sstables) && nextSeq == old(nextSeq)
    {
      hide Run;
      hide Legal;
      hide Inv;
      hide ReadsFiles;
      hide Storable;
      hide FileOf;
      hide Numbers;
      hide StrictlySorted;
      hide MemTable.SizeOf;
      hide Compacted;
      hide ListsOf;
      hide Readers;
      hide Reader.Valid;
      RunKeepsInv(trace);
      OpenBelowNext(Run(trace));
      ReadsListings(sstables, files);
      var _, file := Compact(Readers(sstables));
      Extend(trace, WriteCompacted);
      StillReads(sstables, files, nextSeq, file);
      files := files[nextSeq := file];
      trace := trace + [WriteCompacted];
    }

    /** Replace the open tables by the compacted one. */
    method OpenCompactedTable(ghost es: seq<Entry>)
      requires Tracks() && Enabled(Run(trace), SwapTables)
      requires Storable(es) && nextSeq in files && files[nextSeq] == FileOf(es)
      modifies this
      ensures Tracks() && trace == old(trace) + [SwapTables] && Run(trace) == After(old(Run(trace)), SwapTables)
      ensures |sstables| == 1 && sstables[0].num == old(nextSeq)
    {
      hide ReaderOf;
      hide SSTableReader.Contents;
      hide TablesOf;
      hide Compacted;
      hide Clean;
      hide HasMagic;
      hide AllValid;
      hide Run;
      hide Legal;
      hide Inv;
      hide ReadsFiles;
      hide Storable;
      hide FileOf;
      hide Numbers;
      hide StrictlySorted;
      hide MemTable.SizeOf;
      Extend(trace, SwapTables);
      NoTables(files);
      ReadsBuilt([], files, nextSeq, es);
      var reader := OpenBuilt(files[nextSeq], es);
      sstables := [SSTable(nextSeq, reader)];
      assert sstables == [SSTable(nextSeq, reader)] + [];
      nextSeq := nextSeq + 1;
      trace := trace + [SwapTables];
    }

    method AppendRecord(op: Op)
      requires Tracks() && Enabled(Run(trace), AppendLog(op))
      modifies this, wal
      ensures Tracks() && trace == old(trace) + [AppendLog(op)] && Run(trace) == After(old(Run(trace)), AppendLog(op))
      ensures sstables == old(sstables) && files == old(files) && wal.log == old(wal.log) + Encode(RecordOf(op))
    {
      hide Run;
      hide Legal;
      hide Inv;
      hide ReadsFiles;
      hide Storable;
      hide FileOf;
      hide Numbers;
      hide StrictlySorted;
      hide MemTable.SizeOf;
      hide Clean;
      hide Encode;
      Extend(trace, AppendLog(op));
      var r := RecordOf(op);
      wal.Append(r.op, r.key, r.val);
      trace := trace + [AppendLog(op)];
    }

    method ApplyToMemtable(op: Op)
      requires Tracks() && Run(trace).phase == Logged && Run(trace).flight == Some(op)
      modifies this, memtable
      ensures Tracks() && trace == old(trace) + [UpdateMemtable] && Run(trace) == After(old(Run(trace)), UpdateMemtable)
      ensures sstables == old(sstables) && files == old(files) &&
        memtable.data == Upsert(old(memtable.data), op.key, VersionOf(op))
    {
      hide Run;
      hide Legal;
      hide Inv;
      hide ReadsFiles;
      hide Storable;
      hide FileOf;
      hide Numbers;
      hide StrictlySorted;
      hide MemTable.SizeOf;
      hide Upsert;
      Extend(trace, UpdateMemtable);
      match op {
        case Put(k, v) => memtable.Put(k, v);
        case Remove(k) => memtable.Remove(k);
      }
      trace := trace + [UpdateMemtable];
    }

    ghost method Return()
      requires Tracks()
      requires Run(trace).phase == Applied || Run(trace).phase == Flushed || Run(trace).phase == Removing([])
      modifies this`trace
      ensures Valid() && trace == old(trace) + [Acknowledge] && Run(trace).acked == old(Model(Run(trace)))
    {
      hide Run;
      hide Legal;
      hide Inv;
      hide ReadsFiles;
      hide Storable;
      hide FileOf;
      hide Numbers;
      hide StrictlySorted;
      hide MemTable.SizeOf;
      Extend(trace, Acknowledge);
      trace := trace + [Acknowledge];
    }

    // ---- The operations. ----

    /** Everything up to the memtable update, shared by `put` and `remove`. */
    method Write(op: Op)
      requires Valid() && op.key != [] && Recoverable(RecordOf(op))
      modifies this, wal, memtable
      ensures Tracks() && old(trace) <= trace && Run(trace).phase == Applied
      ensures Run(trace).acked == old(Run(trace).acked) && Run(trace).flight == Some(op)
      ensures sstables == old(sstables) && files == old(files) &&
        memtable.data == Upsert(old(memtable.data), op.key, VersionOf(op))
      ensures wal.log == old(wal.log) + Encode(RecordOf(op))
    {
      hide Run;
      hide Legal;
      hide Inv;
      hide ReadsFiles;
      hide Storable;
      hide FileOf;
      hide Numbers;
      hide StrictlySorted;
      hide MemTable.SizeOf;
      hide Upsert;
      hide Clean;
      hide Encode;
      hide Recoverable;
      AppendRecord(op);
      ApplyToMemtable(op);
    }

    /** `put`: afterwards the engine holds exactly the old contents with the key set. Below the threshold only log and
        memtable grow; from it on both are emptied into a table, and the fourth table is merged with the others. */
    method Put(key: Bytes, value: Bytes) returns (s: Status)
      requires Valid()
      requires key != [] ==> Recoverable(Record(PUT, key, value))
      requires key != [] && Fills(memtable.data, key, Some(value), memtable.flushThreshold) ==>
        RoomFor(Upsert(memtable.data, key, Some(value)), files, Numbers(sstables))
      modifies this, wal, memtable
      ensures Valid() && old(trace) <= trace
      ensures key == [] ==> s == InvalidArgument && trace == old(trace)
      ensures key != [] ==> s == OK && Acknowledged() == old(Acknowledged())[key := value]
      ensures key != [] && !Fills(old(memtable.data), key, Some(value), memtable.flushThreshold) ==>
        && memtable.data == Upsert(old(memtable.data), key, Some(value)) && sstables == old(sstables)
        && files == old(files) && wal.log == old(wal.log) + Encode(Record(PUT, key, value))
      ensures key != [] && Fills(old(memtable.data), key, Some(value), memtable.flushThreshold) ==>
        && memtable.data == [] && wal.log == []
        && |sstables| == if |old(sstables)| + 1 < 4 then |old(sstables)| + 1 else 1
    {
      hide Run;
      hide Legal;
      hide Inv;
      hide ReadsFiles;
      hide Storable;
      hide FileOf;
      hide Numbers;
      hide StrictlySorted;
      hide MemTable.SizeOf;
      hide Upsert;
      hide Recoverable;
      hide Compacted;
      hide ListsOf;
      hide Mirrors;
      if key == [] {
        return InvalidArgument;
      }
      Write(Op.Put(key, value));
      var full := memtable.ShouldFlush();
      if full {
        FlushAndCompact();
      }
      Return();
      s := OK;
    }

    /** `remove`: flushes when full, but never compacts. */
    method Remove(key: Bytes) returns (s: Status)
      requires Valid()
      requires key != [] ==> Recoverable(Record(DELETE, key, []))
      requires key != [] && Fills(memtable.data, key, None, memtable.flushThreshold) ==>
        Storable(Upsert(memtable.data, key, None))
      modifies this, wal, memtable
      ensures Valid() && old(trace) <= trace
      ensures key == [] ==> s == InvalidArgument && trace == old(trace)
      ensures key != [] ==> s == OK && Acknowledged() == old(Acknowledged()) - {key}
      ensures key != [] && !Fills(old(memtable.data), key, None, memtable.flushThreshold) ==>
        && memtable.data == Upsert(old(memtable.data), key, None) && sstables == old(sstables)
        && files == old(files) && wal.log == old(wal.log) + Encode(Record(DELETE, key, []))
      ensures key != [] && Fills(old(memtable.data), key, None, memtable.flushThreshold) ==>
        && memtable.data == [] && wal.log == [] && |sstables| == |old(sstables)| + 1
    {
      hide Run;
      hide Legal;
      hide Inv;
      hide ReadsFiles;
      hide Storable;
      hide FileOf;
      hide Numbers;
      hide StrictlySorted;
      hide MemTable.SizeOf;
      hide Upsert;
      hide Recoverable;
      hide Mirrors;
      if key == [] {
        return InvalidArgument;
      }
      Write(Op.Remove(key));
      var full := memtable.ShouldFlush();
      if full {
        StorableNotEmpty(memtable.data);
        FlushMemtable();
      }
      Return();
      s := OK;
    }

    /** `get`: memtable first, then the tables newest first, is a look-up in the plain map. */
    method Get(key: Bytes) returns (s: Status, value: Bytes)
      requires Valid()
      ensures key == [] ==> s == InvalidArgument
      ensures key != [] && key in Acknowledged() ==> s == OK && value == Acknowledged()[key]
      ensures key != [] && key !in Acknowledged() ==> s == NotFound && value == []
    {
      hide Run;
      hide Legal;
      hide Inv;
      hide Storable;
      hide FileOf;
      hide StrictlySorted;
      hide MemTable.SizeOf;
      hide Reader.Valid;
      hide Find;
      hide Listings;
      hide View;
      hide MemTable.Reported;
      if key == [] {
        return InvalidArgument, [];
      }
      EngineLayers(trace, sstables, files);
      SearchIsView(memtable.data, Listings(Readers(sstables)), key);
      var r := memtable.Get(key);
      ReportedMeans(Find(memtable.data, key));
      if r.found {
        if r.isTombstone {
          return NotFound, [];
        }
        return OK, r.value;
      }
      s, value := GetFromTables(sstables, files, key);
    }

    /** `scan`: the plain map restricted to the range, in strictly ascending key order. */
    method Scan(start: Bytes, end: Bytes) returns (result: seq<Entry>)
      requires Valid()
      ensures StrictlySorted(result)
      ensures Less(end, start) ==> result == []
      ensures ToMap(result) == AsLayer(Within(Acknowledged(), start, end))
    {
      hide Run;
      hide Legal;
      hide Inv;
      hide Storable;
      hide FileOf;
      hide StrictlySorted;
      hide MemTable.SizeOf;
      hide Reader.Valid;
      hide Listings;
      hide View;
      hide Within;
      hide ToMap;
      hide Range;
      hide LiveEntries;
      hide Less;
      hide AsLayer;
      EngineLayers(trace, sstables, files);
      if Less(end, start) {
        EmptyRange(Acknowledged(), start, end);
        return [];
      }
      var merged := ScanTables(sstables, files, start, end);
      var memEntries := memtable.Scan(start, end);
      merged := MergeInto(merged, memEntries);
      result := KeepLive(merged);
      ScanIsView(memtable.data, Listings(Readers(sstables)), start, end);
      LiveEntriesSorted(merged);
    }

    method FlushAndCompact()
      requires Tracks() && Run(trace).phase == Applied && Run(trace).flight.Some? && Run(trace).flight.value.Put?
      requires RoomFor(memtable.data, files, Numbers(sstables))
      modifies this, wal, memtable
      ensures Tracks() && old(trace) <= trace
      ensures Run(trace).phase == Flushed || Run(trace).phase == Removing([])
      ensures SameClient(Run(trace), old(Run(trace)))
      ensures memtable.data == [] && wal.log == []
      ensures |sstables| == if |old(sstables)| + 1 < 4 then |old(sstables)| + 1 else 1
    {
      hide Run;
      hide Legal;
      hide Inv;
      hide ReadsFiles;
      hide Storable;
      hide FileOf;
      hide Numbers;
      hide StrictlySorted;
      hide MemTable.SizeOf;
      hide Compacted;
      hide ListsOf;
      StorableNotEmpty(memtable.data);
      RunKeepsInv(trace);
      OpenBelowNext(Run(trace));
      FlushedLists(files, Numbers(sstables), nextSeq, memtable.data);
      FlushMemtable();
      MaybeCompact();
    }

    // ---- Flush and compaction. ----

    /** `flush_memtable`: write the table, open it, clear the memtable, truncate the log. */
    method FlushMemtable()
      requires Tracks() && Run(trace).phase == Applied
      requires memtable.data != [] && Storable(memtable.data)
      modifies this, wal, memtable
      ensures Tracks() && old(trace) <= trace && Run(trace).phase == Flushed
      ensures SameClient(Run(trace), old(Run(trace)))
      ensures files == old(files)[old(nextSeq) := FileOf(old(memtable.data))]
      ensures Numbers(sstables) == [old(nextSeq)] + old(Numbers(sstables))
      ensures memtable.data == [] && wal.log == []
    {
      hide Run;
      hide Legal;
      hide Inv;
      hide ReadsFiles;
      hide Storable;
      hide FileOf;
      hide Numbers;
      hide StrictlySorted;
      hide MemTable.SizeOf;
      WriteTableFile();
      OpenFlushedTable();
      ClearLog();
    }

    /** `maybe_compact`: merge all tables into one new file, then remove the old files, newest first. */
    method MaybeCompact()
      requires Tracks() && Run(trace).phase == Flushed && Run(trace).flight.Some? && Run(trace).flight.value.Put?
      requires forall i :: 0 <= i < |sstables| ==> Numbers(sstables)[i] in files
      requires |sstables| >= COMPACTION_THRESHOLD ==> Storable(Compacted(ListsOf(files, Numbers(sstables))))
      modifies this
      ensures |old(sstables)| < 4 ==> trace == old(trace) && files == old(files) && sstables == old(sstables)
      ensures |old(sstables)| >= 4 ==> |sstables| == 1 && files.Keys == {sstables[0].num}
      ensures Tracks() && old(trace) <= trace
      ensures Run(trace).phase == Flushed || Run(trace).phase == Removing([])
      ensures SameClient(Run(trace), old(Run(trace)))
    {
      hide Run;
      hide Legal;
      hide Inv;
      hide ReadsFiles;
      hide Storable;
      hide FileOf;
      hide Numbers;
      hide StrictlySorted;
      hide MemTable.SizeOf;
      hide Compacted;
      hide ListsOf;
      if |sstables| < COMPACTION_THRESHOLD {
        return;
      }
      ghost var es := Compacted(ListsOf(files, Numbers(sstables)));
      RunKeepsInv(trace);
      OpenBelowNext(Run(trace));
      var oldPaths := Numbers(sstables);
      WriteCompactedFile();
      OpenCompactedTable(es);
      RemoveFiles(oldPaths);
      RunKeepsInv(trace);
      OneFile(Run(trace));
    }

    /** The removal loop of `maybe_compact`. */
    method RemoveFiles(paths: seq<nat>)
      requires Tracks() && Run(trace).phase == Removing(paths)
      requires |sstables| == 1 && forall i :: 0 <= i < |paths| ==> paths[i] < sstables[0].num
      modifies this
      ensures Tracks() && old(trace) <= trace && Run(trace).phase == Removing([])
      ensures SameClient(Run(trace), old(Run(trace)))
      ensures sstables == old(sstables) && wal.log == old(wal.log) && memtable.data == old(memtable.data)
    {
      hide Run;
      hide Legal;
      hide Reader.Valid;
      hide MemTable.SizeOf;
      hide StrictlySorted;
      for k := 0 to |paths|
        invariant Tracks() && old(trace) <= trace && sstables == old(sstables)
        invariant Run(trace).phase == Removing(paths[k..])
        invariant SameClient(Run(trace), old(Run(trace)))
      {
        Extend(trace, RemoveOldFile);
        assert paths[k..][1..] == paths[k + 1..];
        files := files - {paths[k]};
        trace := trace + [RemoveOldFile];
      }
      assert paths[|paths|..] == [];
    }
  }

  /** Opening a file that was just built. */
  method OpenBuilt(file: Bytes, ghost es: seq<Entry>) returns (r: Reader)
    requires Storable(es) && file == FileOf(es)
    ensures r == ReaderOf(es)
  {
    hide Storable;
    hide FileOf;
    hide ReaderOf;
    hide HasMagic;
    var o := Open(file, es);
    r := o.value;
  }

  lemma StorableNotEmpty(es: seq<Entry>)
    requires Storable(es)
    ensures es != []
  {
  }

  /** After the last removal the compacted table is the only file. */
  lemma OneFile(s: State)
    requires Inv(s) && s.phase == Removing([])
    ensures s.next > 0 && s.open == [s.next - 1] && s.disk.files.Keys == {s.next - 1}
  {
    hide *;
    RemovingFacts(s);
    ValidKeys(s.disk.files);
    NoneBelow(s.disk.files.Keys, s.next - 1);
  }

  lemma RemovingFacts(s: State)
    requires Inv(s) && s.phase == Removing([])
    ensures AllValid(s.disk.files) && s.next > 0 && s.open == [s.next - 1]
    ensures var keys := TablesOf(s.disk.files).Keys;
      s.next - 1 in keys && (forall k :: k in keys ==> k < s.next) && Descending(keys, s.next - 1) == []
  {
    hide View;
    hide TablesOf;
    hide Replay;
    hide Recovered;
    hide InOrder;
    hide Descending;
  }

  lemma {:induction false} NoneBelow(keys: set<nat>, n: nat)
    requires Descending(keys, n) == []
    ensures forall k :: k in keys ==> k >= n
  {
    if n > 0 {
      NoneBelow(keys, n - 1);
    }
  }

  lemma NoTables(files: map<nat, Bytes>)
    ensures ReadsFiles([], files) && Numbers([]) == []
  {
  }

  // ---- Reading. ----

  /** Between operations the layers of an engine show its acknowledged writes. */
  lemma EngineLayers(trace: seq<Step>, ts: seq<SSTable>, files: map<nat, Bytes>)
    requires Legal(trace) && Run(trace).phase == Idle && Run(trace).disk.files == files
    requires Run(trace).open == Numbers(ts) && ReadsFiles(ts, files)
    ensures var s := Run(trace);
      && View(Maps([s.mem] + Listings(Readers(ts)))) == s.acked
      && StrictlySorted(s.mem) && (forall i :: 0 <= i < |ts| ==> StrictlySorted(Listings(Readers(ts))[i]))
  {
    hide *;
    var s := Run(trace);
    RunKeepsInv(trace);
    IdleFacts(s);
    ReadsListings(ts, files);
    OpenListings(s);
    TopListing(s.mem, ListsOf(files, s.open));
    forall i | 0 <= i < |ts| ensures StrictlySorted(Listings(Readers(ts))[i]) {
      ReaderFacts(Readers(ts)[i]);
      ListingAt(Readers(ts), i);
    }
  }

  lemma IdleFacts(s: State)
    requires Inv(s) && s.phase == Idle
    ensures View([ToMap(s.mem)] + InOrder(T(s), s.next)) == s.acked
    ensures AllValid(s.disk.files) && StrictlySorted(s.mem) && s.open == Descending(T(s).Keys, s.next)
  {
    hide View;
    hide TablesOf;
    hide Replay;
    hide Recovered;
    hide InOrder;
  }

  lemma TopListing(mem: seq<Entry>, ls: seq<seq<Entry>>)
    ensures Maps([mem] + ls) == [ToMap(mem)] + Maps(ls)
  {
    hide ToMap;
  }

  lemma ListingAt(rs: seq<Reader>, i: nat)
    requires i < |rs|
    ensures Listings(rs)[i] == rs[i].Listed()
  {
    hide SSTableReader.Contents;
  }

  lemma ReportedMeans(o: Option<Version>)
    ensures var r := MemTable.Reported(o);
      && r.found == o.Some?
      && (o.Some? ==> r.isTombstone == o.value.None? && (o.value.Some? ==> r.value == o.value.value))
  {
  }

  /** Memtable first, then the listings newest first, is the view of them all. */
  lemma SearchIsView(mem: seq<Entry>, ls: seq<seq<Entry>>, k: Bytes)
    ensures Layers.Get(View(Maps([mem] + ls)), k) ==
      Seen(if Find(mem, k).Some? then Find(mem, k) else Newest(Maps(ls), k))
  {
    hide View;
    hide ToMap;
    assert Maps([mem] + ls) == [ToMap(mem)] + Maps(ls);
    ViewIsNewest(Maps([mem] + ls), k);
    assert ([ToMap(mem)] + Maps(ls))[1..] == Maps(ls);
  }

  lemma {:induction false} NewestFrom(ls: seq<seq<Entry>>, i: nat, k: Bytes)
    requires i < |ls|
    ensures Newest(Maps(ls[i..]), k) == if Find(ls[i], k).Some? then Find(ls[i], k) else Newest(Maps(ls[i + 1..]), k)
  {
    hide ToMap;
    assert Maps(ls[i..])[1..] == Maps(ls[i + 1..]);
  }

  /** The table loop of `get`. */
  method GetFromTables(ts: seq<SSTable>, ghost files: map<nat, Bytes>, key: Bytes) returns (s: Status, value: Bytes)
    requires ReadsFiles(ts, files)
    ensures var v := Seen(Newest(Maps(Listings(Readers(ts))), key));
      && (v.Some? ==> s == OK && value == v.value)
      && (v.None? ==> s == NotFound && value == [])
  {
    hide Reader.Valid;
    hide Find;
    hide ToMap;
    hide Newest;
    hide Maps;
    hide MemTable.Reported;
    ghost var ls := Listings(Readers(ts));
    assert ls[0..] == ls;
    for i := 0 to |ts|
      invariant Newest(Maps(ls), key) == Newest(Maps(ls[i..]), key)
    {
      NewestFrom(ls, i, key);
      assert ts[i].reader.Valid() && ls[i] == ts[i].reader.Listed();
      var r := SSTableReader.Get(ts[i].reader, key);
      ReportedMeans(Find(ls[i], key));
      if r.found {
        if r.isTombstone {
          return NotFound, [];
        }
        return OK, r.value;
      }
    }
    NewestOfNone(ls, key);
    return NotFound, [];
  }

  lemma NewestOfNone(ls: seq<seq<Entry>>, k: Bytes)
    ensures Newest(Maps(ls[|ls|..]), k) == None
  {
  }

  function Ranges(ls: seq<seq<Entry>>, lo: Bytes, hi: Bytes): (rs: seq<seq<Entry>>)
    ensures |rs| == |ls|
  {
    seq(|ls|, i requires 0 <= i < |ls| => Range(ls[i], lo, hi))
  }

  /** The table loop of `scan`: oldest table first. */
  method ScanTables(ts: seq<SSTable>, ghost files: map<nat, Bytes>, start: Bytes, end: Bytes)
    returns (merged: seq<Entry>)
    requires ReadsFiles(ts, files)
    ensures merged == MergeLists(Ranges(Listings(Readers(ts)), start, end)) && StrictlySorted(merged)
  {
    hide Reader.Valid;
    hide Overwrite;
    hide Range;
    hide StrictlySorted;
    ghost var rs := Ranges(Listings(Readers(ts)), start, end);
    merged := [];
    assert rs[|ts|..] == [];
    var i: nat := |ts|;
    while i > 0
      invariant i <= |ts| && merged == MergeLists(rs[i..])
    {
      i := i - 1;
      assert ts[i].reader.Valid();
      var entries := SSTableReader.Scan(ts[i].reader, start, end);
      assert rs[i..][1..] == rs[i + 1..] && rs[i..][0] == rs[i] == entries;
      merged := MergeInto(merged, entries);
    }
    assert rs[0..] == rs;
  }

  lemma WithinUnion(a: Layer, b: Layer, lo: Bytes, hi: Bytes)
    ensures Within(a + b, lo, hi) == Within(a, lo, hi) + Within(b, lo, hi)
  {
    hide InRange;
  }

  lemma WithinLive(m: Layer, lo: Bytes, hi: Bytes)
    ensures Live(Within(m, lo, hi)) == Within(Live(m), lo, hi)
  {
    hide InRange;
  }

  /** Merging the ranges is the range of the merge. */
  lemma {:induction false} MergeRanges(ls: seq<seq<Entry>>, lo: Bytes, hi: Bytes)
    requires forall i :: 0 <= i < |ls| ==> StrictlySorted(ls[i])
    ensures Merge(Maps(Ranges(ls, lo, hi))) == Within(Merge(Maps(ls)), lo, hi)
  {
    hide ToMap;
    hide Range;
    hide InRange;
    hide StrictlySorted;
    if ls != [] {
      MergeRanges(ls[1..], lo, hi);
      RangeMap(ls[0], lo, hi);
      WithinUnion(Merge(Maps(ls[1..])), ToMap(ls[0]), lo, hi);
      assert Maps(ls)[1..] == Maps(ls[1..]);
      assert Maps(Ranges(ls, lo, hi))[1..] == Maps(Ranges(ls[1..], lo, hi));
    }
  }

  /** What `scan` merges is the range of what the layers show. */
  lemma ScanIsView(mem: seq<Entry>, ls: seq<seq<Entry>>, lo: Bytes, hi: Bytes)
    requires StrictlySorted(mem) && forall i :: 0 <= i < |ls| ==> StrictlySorted(ls[i])
    ensures var merged := Overwrite(MergeLists(Ranges(ls, lo, hi)), Range(mem, lo, hi));
      StrictlySorted(merged) && ToMap(LiveEntries(merged)) == AsLayer(Within(View(Maps([mem] + ls)), lo, hi))
  {
    hide ToMap;
    hide Range;
    hide InRange;
    hide StrictlySorted;
    hide Merge;
    hide Live;
    hide AsLayer;
    hide Within;
    hide LiveEntries;
    hide Overwrite;
    hide Maps;
    var all, rs := [mem] + ls, Ranges([mem] + ls, lo, hi);
    assert rs[0] == Range(mem, lo, hi) && rs[1..] == Ranges(ls, lo, hi);
    var merged := MergeLists(rs);
    MergeListsMap(rs);
    MergeRanges(all, lo, hi);
    WithinLive(Merge(Maps(all)), lo, hi);
    LiveEntriesMap(merged);
  }

  lemma EmptyRange(m: map<Bytes, Bytes>, lo: Bytes, hi: Bytes)
    requires Less(hi, lo)
    ensures ToMap([]) == AsLayer(Within(m, lo, hi)) && StrictlySorted([])
  {
    LessIsStrictTotalOrder();
  }
}
