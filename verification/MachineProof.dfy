/** Every step of the machine keeps its invariant, over every run. */
module MachineProof {
  import opened Bytes
  import opened Entries
  import opened Layers
  import opened Tables
  import opened Wal
  import opened SSTableFormat
  import opened SSTableReader
  import opened Compaction
  import opened Machine

  // ---- Files. ----

  lemma WriteFile(files: map<nat, Bytes>, n: nat, es: seq<Entry>)
    requires Sound(files) && Storable(es)
    ensures Sound(files[n := FileOf(es)])
    ensures AllValid(files) ==> AllValid(files[n := FileOf(es)])
    ensures TablesOf(files[n := FileOf(es)]) == TablesOf(files)[n := ToMap(es)]
  {
    hide HasMagic;
    hide FileOf;
    hide Contents;
    hide Storable;
    hide ToMap;
    FooterOfBuilt(es);
    ContentsOfBuilt(es);
  }

  lemma PartFile(files: map<nat, Bytes>, n: nat, part: Bytes)
    requires Sound(files) && AllValid(files) && n == NextSeq(TablesOf(files).Keys) && !HasMagic(part)
    ensures Sound(files[n := part]) && TablesOf(files[n := part]) == TablesOf(files)
  {
    hide HasMagic;
    hide FileOf;
    hide Contents;
    hide Storable;
    hide ToMap;
    assert n !in TablesOf(files);
  }

  lemma DropFile(files: map<nat, Bytes>, n: nat)
    requires Sound(files)
    ensures Sound(files - {n}) && (AllValid(files) ==> AllValid(files - {n}))
    ensures TablesOf(files - {n}) == TablesOf(files) - {n}
  {
    hide HasMagic;
    hide IsBuilt;
    hide Contents;
    hide ToMap;
  }

  lemma NextSeqIs(keys: set<nat>, n: nat)
    requires forall i :: i in keys ==> i < n
    requires n == 0 || n - 1 in keys
    ensures NextSeq(keys) == n
  {
  }

  lemma PickIsInOrder(t: Numbered, n: nat)
    ensures forall i :: 0 <= i < |Descending(t.Keys, n)| ==> Descending(t.Keys, n)[i] in t
    ensures Pick(t, Descending(t.Keys, n)) == InOrder(t, n)
  {
    DescendingRange(t.Keys, n);
  }

  lemma OpenFilesExist(s: State, n: nat)
    ensures forall i :: 0 <= i < |Descending(T(s).Keys, n)| ==>
      Descending(T(s).Keys, n)[i] in T(s) && Descending(T(s).Keys, n)[i] in s.disk.files
  {
    hide HasMagic;
    hide Contents;
    DescendingRange(T(s).Keys, n);
  }

  // ---- The log. ----

  lemma NothingRecovered()
    ensures Recovered([]) == []
  {
  }

  lemma CleanMeans(log: Bytes)
    ensures Clean(log) <==> log == EncodeAll(Recovered(log))
  {
  }

  lemma TornAppendToClean(log: Bytes, r: Record, n: nat)
    requires Clean(log) && Recoverable(r) && n < |Encode(r)|
    ensures Recovered(log + Encode(r)[..n]) == Recovered(log)
  {
    hide *;
    LogSplit(log);
    CleanMeans(log);
    RecoverableIsFramable(r);
    TornTailIgnored(Recovered(log), r, n);
  }

  lemma RecoverableIsFramable(r: Record)
    requires Recoverable(r)
    ensures Framable(r)
  {
  }

  // ---- Views. ----

  lemma ViewOver(m: map<Bytes, Bytes>, ts: seq<Layer>)
    ensures View([AsLayer(m)] + ts) == View(ts) + m
  {
    MergeCons(AsLayer(m), ts);
  }

  lemma ViewApply(mem: seq<Entry>, ts: seq<Layer>, op: Op)
    requires StrictlySorted(mem)
    ensures View([ToMap(Upsert(mem, op.key, VersionOf(op)))] + ts) == Apply(View([ToMap(mem)] + ts), op)
  {
    hide View;
    hide ToMap;
    hide Upsert;
    hide StrictlySorted;
    UpsertMap(mem, op.key, VersionOf(op));
    match op
    case Put(k, v) => ViewPut(ToMap(mem), ts, k, v);
    case Remove(k) => ViewRemove(ToMap(mem), ts, k);
  }

  lemma ViewEmptyMem(ts: seq<Layer>)
    ensures View([ToMap([])] + ts) == View(ts)
  {
    hide View;
    EmptyMap();
    ViewFlush(ts);
  }

  // ---- What a crash at each point leaves. ----

  lemma DiskViewIs(s: State)
    ensures DiskView(s.disk) == View([ToMap(Replay(Recovered(s.disk.log)))] + InOrder(T(s), NextSeq(T(s).Keys)))
  {
  }

  lemma CrashWhenReady(s: State)
    requires Inv(s) && !s.exposed && (s.phase == Idle || s.phase == Applied)
    ensures DiskView(s.disk) == Model(s)
  {
    hide DiskView;
    hide View;
    hide TablesOf;
    hide Replay;
    hide Recovered;
    DiskViewIs(s);
  }

  lemma CrashWhenLogged(s: State)
    requires Inv(s) && !s.exposed && s.phase == Logged
    ensures DiskView(s.disk) == Model(s)
  {
    hide DiskView;
    hide View;
    hide TablesOf;
    hide Replay;
    hide Recovered;
    hide Upsert;
    DiskViewIs(s);
    ViewApply(s.mem, InOrder(T(s), s.next), s.flight.value);
  }

  lemma CrashWhenFlushWritten(s: State)
    requires Inv(s) && !s.exposed && s.phase == FlushWritten
    ensures DiskView(s.disk) == Model(s)
  {
    hide DiskView;
    hide View;
    hide TablesOf;
    hide Replay;
    hide Recovered;
    hide InOrder;
    DiskViewIs(s);
    InOrderStep(T(s), s.next);
    ViewDuplicate(ToMap(s.mem), InOrder(T(s), s.next));
  }

  lemma CrashWhenFlushOpened(s: State)
    requires Inv(s) && !s.exposed && s.phase == FlushOpened
    ensures DiskView(s.disk) == Model(s)
  {
    hide DiskView;
    hide View;
    hide TablesOf;
    hide Replay;
    hide Recovered;
    hide InOrder;
    hide ToMap;
    DiskViewIs(s);
    InOrderStep(T(s), s.next - 1);
    ViewDuplicate(T(s)[s.next - 1], InOrder(T(s), s.next - 1));
    ViewEmptyMem(InOrder(T(s), s.next));
  }

  lemma CrashWhenFlushed(s: State)
    requires Inv(s) && s.phase == Flushed
    ensures DiskView(s.disk) == Model(s)
  {
    hide DiskView;
    hide View;
    hide TablesOf;
    hide Recovered;
    DiskViewIs(s);
    NothingRecovered();
  }

  lemma CrashWhenCompactWritten(s: State)
    requires Inv(s) && s.phase == CompactWritten
    ensures DiskView(s.disk) == Model(s)
  {
    hide DiskView;
    hide View;
    hide TablesOf;
    hide Recovered;
    hide InOrder;
    hide ToMap;
    DiskViewIs(s);
    NothingRecovered();
    ViewEmptyMem(InOrder(T(s), s.next + 1));
    InOrderStep(T(s), s.next);
    ViewOver(Model(s), InOrder(T(s), s.next));
    assert Model(s) + Model(s) == Model(s);
  }

  lemma CrashWhenRemoving(s: State)
    requires Inv(s) && s.phase.Removing?
    ensures DiskView(s.disk) == Survives(s)
    ensures Survives(s) == View(InOrder(T(s), s.next - 1)) + Model(s)
  {
    hide AsLayer;
    hide Descending;
    hide Sound;
    hide AllValid;
    hide Ready;
    hide FileAhead;
    hide Shown;
    hide Recorded;
    hide DiskView;
    hide View;
    hide TablesOf;
    hide Recovered;
    hide InOrder;
    hide ToMap;
    hide Model;
    DiskViewIs(s);
    NothingRecovered();
    ViewEmptyMem(InOrder(T(s), s.next));
    InOrderStep(T(s), s.next - 1);
    ViewOver(Model(s), InOrder(T(s), s.next - 1));
    PickIsInOrder(T(s), s.next - 1);
  }

  /** Wherever the process dies, the disk shows `Survives`: the model outside file removal. */
  lemma CrashView(s: State)
    requires Inv(s) && !s.exposed
    ensures DiskView(s.disk) == Survives(s)
  {
    hide DiskView;
    hide Model;
    match s.phase
    case Idle => CrashWhenReady(s);
    case Applied => CrashWhenReady(s);
    case Logged => CrashWhenLogged(s);
    case FlushWritten => CrashWhenFlushWritten(s);
    case FlushOpened => CrashWhenFlushOpened(s);
    case Flushed => CrashWhenFlushed(s);
    case CompactWritten => CrashWhenCompactWritten(s);
    case Removing(left) => CrashWhenRemoving(s);
    case Down => DownModel(s);
  }

  lemma DownModel(s: State)
    requires Inv(s) && s.phase == Down
    ensures DiskView(s.disk) == Model(s)
  {
    hide DiskView;
  }

  // ---- Each step keeps the invariant. ----

  lemma StepAppendLog(s: State, op: Op)
    requires Inv(s) && Enabled(s, AppendLog(op))
    ensures Inv(After(s, AppendLog(op)))
  {
    hide View;
    hide TablesOf;
    hide InOrder;
    hide Clean;
    hide Recovered;
    hide Replay;
    hide Upsert;
    hide Encode;
    hide Recoverable;
    if !s.exposed && Clean(s.disk.log) {
      AppendToClean(s.disk.log, RecordOf(op));
      ReplayAppend(Recovered(s.disk.log), op);
    }
  }

  lemma StepUpdateMemtable(s: State)
    requires Inv(s) && Enabled(s, UpdateMemtable)
    ensures Inv(After(s, UpdateMemtable))
  {
    hide View;
    hide TablesOf;
    hide InOrder;
    hide Recovered;
    hide Replay;
    hide Upsert;
    var op := s.flight.value;
    UpsertSorted(s.mem, op.key, VersionOf(op));
    ViewApply(s.mem, InOrder(T(s), s.next), op);
  }

  /** Adding a file numbered `next` puts the machine one file ahead, with the same tables below it. */
  lemma AheadBy(s: State, es: seq<Entry>)
    requires Sound(s.disk.files) && Ready(s) && Storable(es)
    ensures var s' := s.(disk := s.disk.(files := s.disk.files[s.next := FileOf(es)]));
      && Sound(s'.disk.files) && FileAhead(s') && T(s')[s.next] == ToMap(es)
      && InOrder(T(s'), s.next) == InOrder(T(s), s.next)
  {
    hide FileOf;
    hide Storable;
    hide TablesOf;
    hide ToMap;
    hide InOrder;
    hide Sound;
    hide AllValid;
    WriteFile(s.disk.files, s.next, es);
    var t := T(s);
    var t' := t[s.next := ToMap(es)];
    NextSeqIs(t'.Keys, s.next + 1);
    DescendingAgree(t.Keys, t'.Keys, s.next);
    InOrderAgree(t, t', s.next);
  }

  lemma StepWriteTable(s: State)
    requires Inv(s) && Enabled(s, WriteTable)
    ensures Inv(After(s, WriteTable))
  {
    hide View;
    hide TablesOf;
    hide InOrder;
    hide Recovered;
    hide Replay;
    hide FileOf;
    hide Storable;
    hide Sound;
    AheadBy(s, s.mem);
  }

  lemma StepOpenTable(s: State)
    requires Inv(s) && Enabled(s, OpenTable)
    ensures Inv(After(s, OpenTable))
  {
    hide View;
    hide TablesOf;
    hide InOrder;
    hide Recovered;
    hide Replay;
    hide ToMap;
    hide Sound;
    InOrderStep(T(s), s.next);
    ViewEmptyMem([T(s)[s.next]] + InOrder(T(s), s.next));
  }

  lemma StepTruncateLog(s: State)
    requires Inv(s) && Enabled(s, TruncateLog)
    ensures Inv(After(s, TruncateLog))
  {
    hide View;
    hide TablesOf;
    hide InOrder;
    hide ToMap;
    hide Sound;
  }

  lemma OpenListings(s: State)
    requires AllValid(s.disk.files) && s.open == Descending(T(s).Keys, s.next)
    ensures forall i :: 0 <= i < |s.open| ==> s.open[i] in s.disk.files
    ensures Maps(ListsOf(s.disk.files, s.open)) == InOrder(T(s), s.next)
  {
    hide Contents;
    hide ToMap;
    hide HasMagic;
    OpenFilesExist(s, s.next);
    PickIsInOrder(T(s), s.next);
  }

  lemma ModelNotEmpty(s: State)
    requires s.flight.Some? && s.flight.value.Put?
    ensures Model(s) != map[]
  {
    assert s.flight.value.key in Model(s);
  }

  lemma StepWriteCompacted(s: State)
    requires Inv(s) && Enabled(s, WriteCompacted)
    ensures Inv(After(s, WriteCompacted))
  {
    hide View;
    hide TablesOf;
    hide InOrder;
    hide FileOf;
    hide Storable;
    hide Sound;
    hide Compacted;
    hide ListsOf;
    hide ToMap;
    hide AsLayer;
    hide Apply;
    var es := Compacted(ListsOf(s.disk.files, s.open));
    AheadBy(s, es);
    OpenListings(s);
    ViewEmptyMem(InOrder(T(s), s.next));
    ModelNotEmpty(s);
    CompactedMap(ListsOf(s.disk.files, s.open));
  }

  lemma StepSwapTables(s: State)
    requires Inv(s) && Enabled(s, SwapTables)
    ensures Inv(After(s, SwapTables))
  {
    hide View;
    hide TablesOf;
    hide InOrder;
    hide ToMap;
    hide Sound;
    hide AsLayer;
  }

  lemma StepRemoveOldFile(s: State)
    requires Inv(s) && Enabled(s, RemoveOldFile)
    ensures Inv(After(s, RemoveOldFile))
  {
    hide View;
    hide TablesOf;
    hide InOrder;
    hide ToMap;
    hide Sound;
    hide AsLayer;
    hide AllValid;
    var x, c := s.phase.left[0], s.next - 1;
    DropFile(s.disk.files, x);
    DescendingRange(T(s).Keys, c);
    DescendingTail(T(s).Keys, c);
    NextSeqIs(T(s).Keys - {x}, s.next);
    assert (T(s) - {x}).Keys == T(s).Keys - {x};
  }

  lemma StepAcknowledge(s: State)
    requires Inv(s) && Enabled(s, Acknowledge)
    ensures Inv(After(s, Acknowledge))
  {
    hide View;
    hide TablesOf;
    hide InOrder;
    hide ToMap;
    hide Sound;
    hide Recovered;
    hide Model;
    NothingRecovered();
    if s.phase.Removing? {
      var c := s.next - 1;
      InOrderStep(T(s), c);
      NoneBelow(T(s), c);
      ViewEmptyMem(InOrder(T(s), s.next));
      ViewOfLive(Model(s));
      assert [T(s)[c]] + [] == [T(s)[c]];
    }
  }

  lemma NoneBelow(t: Numbered, n: nat)
    requires Descending(t.Keys, n) == []
    ensures InOrder(t, n) == []
  {
  }

  lemma InvSound(s: State)
    requires Inv(s)
    ensures Sound(s.disk.files)
  {
  }

  lemma CrashedInv(d: Disk, acked: map<Bytes, Bytes>)
    requires Sound(d.files) && DiskView(d) == acked
    ensures Inv(Crashed(d, acked))
  {
    hide Sound;
    hide DiskView;
  }

  lemma StepCrash(s: State)
    requires Inv(s) && Enabled(s, Crash)
    ensures Inv(After(s, Crash))
  {
    hide Inv;
    hide DiskView;
    hide Survives;
    hide Sound;
    hide Crashed;
    InvSound(s);
    CrashView(s);
    CrashedInv(s.disk, Survives(s));
  }

  lemma SameDiskView(d: Disk, e: Disk)
    requires Recovered(d.log) == Recovered(e.log) && TablesOf(d.files) == TablesOf(e.files)
    ensures DiskView(d) == DiskView(e)
  {
    hide View;
    hide TablesOf;
    hide Recovered;
  }

  lemma StepCrashInAppend(s: State, op: Op, n: nat)
    requires Inv(s) && Enabled(s, CrashInAppend(op, n))
    ensures Inv(After(s, CrashInAppend(op, n)))
  {
    hide Inv;
    hide DiskView;
    hide Sound;
    hide Clean;
    hide Encode;
    hide Recoverable;
    hide Recovered;
    hide Crashed;
    InvSound(s);
    CrashWhenReady(s);
    TornAppendToClean(s.disk.log, RecordOf(op), n);
    var d := s.disk.(log := s.disk.log + Encode(RecordOf(op))[..n]);
    SameDiskView(s.disk, d);
    CrashedInv(d, Model(s));
  }

  lemma StepCrashInWrite(s: State, part: Bytes)
    requires Inv(s) && Enabled(s, CrashInWrite(part))
    ensures Inv(After(s, CrashInWrite(part)))
  {
    hide DiskView;
    hide Sound;
    hide HasMagic;
    hide Recovered;
    hide AllValid;
    hide TablesOf;
    if s.phase == Applied {
      CrashWhenReady(s);
    } else {
      CrashWhenFlushed(s);
    }
    PartFile(s.disk.files, s.next, part);
    SameDiskView(s.disk, After(s, CrashInWrite(part)).disk);
  }

  lemma StepRemoveCorruptFile(s: State, i: nat)
    requires Inv(s) && Enabled(s, RemoveCorruptFile(i))
    ensures Inv(After(s, RemoveCorruptFile(i)))
  {
    hide DiskView;
    hide HasMagic;
    hide Recovered;
    hide Sound;
    DropFile(s.disk.files, i);
    assert TablesOf(s.disk.files) - {i} == TablesOf(s.disk.files);
    SameDiskView(s.disk, After(s, RemoveCorruptFile(i)).disk);
  }

  lemma StepRestart(s: State)
    requires Inv(s) && Enabled(s, Restart)
    ensures Inv(After(s, Restart))
  {
    hide DiskView;
    hide View;
    hide TablesOf;
    hide Recovered;
    hide Replay;
    hide InOrder;
    hide Sound;
    DiskViewIs(s);
  }

  lemma StepKeepsInv(s: State, step: Step)
    requires Inv(s) && Enabled(s, step)
    ensures Inv(After(s, step))
  {
    hide *;
    match step
    case AppendLog(op) => StepAppendLog(s, op);
    case UpdateMemtable => StepUpdateMemtable(s);
    case WriteTable => StepWriteTable(s);
    case OpenTable => StepOpenTable(s);
    case TruncateLog => StepTruncateLog(s);
    case WriteCompacted => StepWriteCompacted(s);
    case SwapTables => StepSwapTables(s);
    case RemoveOldFile => StepRemoveOldFile(s);
    case Acknowledge => StepAcknowledge(s);
    case Crash => StepCrash(s);
    case CrashInAppend(op, n) => StepCrashInAppend(s, op, n);
    case CrashInWrite(part) => StepCrashInWrite(s, part);
    case RemoveCorruptFile(i) => StepRemoveCorruptFile(s, i);
    case Restart => StepRestart(s);
  }

  lemma InitialInv()
    ensures Inv(Initial())
  {
    hide View;
    hide Recovered;
    var s := Initial();
    DiskViewIs(s);
    NothingRecovered();
    assert T(s) == map[];
    NextSeqIs(T(s).Keys, 0);
    NoneBelow(T(s), 0);
    ViewEmptyMem([]);
    NoView();
  }

  lemma NoView()
    ensures View([]) == map[]
  {
  }

  /** The invariant holds after every run. */
  lemma {:induction false} RunKeepsInv(steps: seq<Step>)
    requires Legal(steps)
    ensures Inv(Run(steps))
  {
    hide Inv;
    hide Enabled;
    hide After;
    hide Initial;
    if steps == [] {
      InitialInv();
    } else {
      var before := steps[..|steps| - 1];
      RunKeepsInv(before);
      StepKeepsInv(Run(before), steps[|steps| - 1]);
    }
  }

  lemma Extend(trace: seq<Step>, step: Step)
    requires Legal(trace) && Enabled(Run(trace), step)
    ensures Legal(trace + [step]) && Run(trace + [step]) == After(Run(trace), step)
  {
    hide Enabled;
    hide After;
    hide Initial;
    assert (trace + [step])[..|trace|] == trace;
  }

  /** Runs exist: an empty directory is where the empty run ends, and the engine can start on it. */
  lemma FreshDirectory()
    ensures Legal([]) && Legal([Restart, Acknowledge]) && Run([]) == Initial()
    ensures Run([Restart, Acknowledge]).phase == Idle && Run([Restart, Acknowledge]).acked == map[]
  {
    hide Recovered;
    hide DiskView;
    hide Replay;
    assert Legal([]) && Run([]) == Initial();
    assert [Restart][..0] == [] && [Restart, Acknowledge][..1] == [Restart];
    assert Enabled(Initial(), Restart);
    assert Legal([Restart]) && Run([Restart]) == After(Initial(), Restart);
    assert Enabled(Run([Restart]), Acknowledge);
  }

  // ---- The main theorems. ----

  /** Outside an exposed log and unfinished removal, the disk shows the model. */
  lemma DiskShowsModel(steps: seq<Step>)
    requires Legal(steps)
    ensures var s := Run(steps);
      !s.exposed && (s.phase.Removing? ==> s.phase.left == []) ==> DiskView(s.disk) == Model(s)
    ensures !Run(steps).exposed ==> DiskView(Run(steps).disk) == Survives(Run(steps))
  {
    hide Legal;
    hide Run;
    hide After;
    hide Enabled;
    hide InOrder;
    hide AsLayer;
    hide Sound;
    hide Inv;
    hide DiskView;
    hide View;
    hide TablesOf;
    hide Model;
    RunKeepsInv(steps);
    var s := Run(steps);
    if !s.exposed {
      CrashView(s);
      SettledSurvives(s);
    }
  }

  /** With no old table left to remove, exactly the model survives. */
  lemma SettledSurvives(s: State)
    ensures (s.phase.Removing? ==> s.phase.left == []) ==> Survives(s) == Model(s)
  {
    hide View;
    hide TablesOf;
    hide Model;
    assert Pick(T(s), []) == [];
    NoView();
    assert map[] + Model(s) == Model(s);
  }

  /** In the middle of removal, the disk shows the model over what the leftover tables show. */
  lemma DurabilityWhileRemoving(steps: seq<Step>)
    requires Legal(steps) && Run(steps).phase.Removing?
    ensures var s := Run(steps);
      && (forall i :: 0 <= i < |s.phase.left| ==> s.phase.left[i] in T(s))
      && DiskView(s.disk) == View(Pick(T(s), s.phase.left)) + Model(s)
  {
    hide Legal;
    hide Run;
    hide After;
    hide Enabled;
    hide InOrder;
    hide AsLayer;
    hide Sound;
    hide DiskView;
    hide View;
    hide TablesOf;
    RunKeepsInv(steps);
    var s := Run(steps);
    CrashWhenRemoving(s);
    PickIsInOrder(T(s), s.next - 1);
  }

  /** Between operations the running engine shows exactly the acknowledged writes, whether or not
      the log has a torn tail; its tables are in strictly descending order below `next`, and a
      restart rebuilds the same order and the same next number. */
  lemma LiveReads(steps: seq<Step>)
    requires Legal(steps) && Run(steps).phase == Idle
    ensures var s := Run(steps); var keys := TablesOf(s.disk.files).Keys;
      && (forall i :: 0 <= i < |s.open| ==> s.open[i] in T(s) && s.open[i] < s.next)
      && (forall i, j :: 0 <= i < j < |s.open| ==> s.open[i] > s.open[j])
      && LiveView(s) == s.acked
      && s.next == NextSeq(keys) && s.open == Descending(keys, NextSeq(keys))
  {
    hide View;
    hide TablesOf;
    RunKeepsInv(steps);
    var s := Run(steps);
    PickIsInOrder(T(s), s.next);
    DescendingRange(T(s).Keys, s.next);
  }

  /** After any crash and any cleanup, a restart shows exactly what survived. */
  lemma RestartShowsSurvivors(steps: seq<Step>)
    requires Legal(steps) && Legal(steps + [Restart])
    ensures var s := Run(steps + [Restart]);
      && s.acked == Run(steps).acked
      && (forall i :: 0 <= i < |s.open| ==> s.open[i] in T(s))
      && LiveView(s) == s.acked
  {
    hide *;
    var run := steps + [Restart];
    RunStep(steps, Restart);
    RunKeepsInv(run);
    RunKeepsInv(steps);
    DownHasNoFlight(Run(steps));
    RestartedLive(Run(steps));
  }

  lemma RunStep(steps: seq<Step>, step: Step)
    requires Legal(steps + [step])
    ensures Legal(steps) && Enabled(Run(steps), step) && Run(steps + [step]) == After(Run(steps), step)
  {
    hide Enabled;
    hide After;
    hide Initial;
    var run := steps + [step];
    assert run[..|run| - 1] == steps;
  }

  lemma DownHasNoFlight(s: State)
    requires Inv(s) && Enabled(s, Restart)
    ensures s.flight == None
  {
    hide DiskView;
    hide Sound;
    hide AllValid;
    hide Ready;
    hide Shown;
    hide FileAhead;
    hide NothingLogged;
    hide Recorded;
    hide Model;
    hide TablesOf;
    hide View;
    hide InOrder;
    hide Clean;
    hide HasMagic;
    hide Storable;
    hide Compacted;
  }

  lemma RestartedLive(s: State)
    requires Enabled(s, Restart) && Inv(After(s, Restart)) && s.flight == None
    ensures var r := After(s, Restart);
      && r.acked == s.acked
      && (forall i :: 0 <= i < |r.open| ==> r.open[i] in T(r))
      && LiveView(r) == r.acked
  {
    hide View;
    hide TablesOf;
    hide DiskView;
    hide Replay;
    hide Recovered;
    var r := After(s, Restart);
    PickIsInOrder(T(r), r.next);
  }

  // ---- Death during file removal, key by key. ----

  /** The state after the compacted table was opened and m old files were removed, newest first. */
  ghost function Removals(s: State, m: nat): (r: State)
    requires s.phase == CompactWritten && m <= |s.open|
    ensures r.phase == Removing(s.open[m..])
  {
    if m == 0 then After(s, SwapTables) else After(Removals(s, m - 1), RemoveOldFile)
  }

  function Elements(ns: seq<nat>): set<nat> {
    set n | n in ns
  }

  lemma {:induction false} RemovalsInv(s: State, m: nat)
    requires Inv(s) && s.phase == CompactWritten && m <= |s.open|
    ensures Inv(Removals(s, m)) && Model(Removals(s, m)) == Model(s) && Removals(s, m).next == s.next + 1
  {
    hide Inv;
    hide Apply;
    if m == 0 {
      StepSwapTables(s);
    } else {
      RemovalsInv(s, m - 1);
      StepRemoveOldFile(Removals(s, m - 1));
    }
  }

  lemma RemovalsFiles(s: State, m: nat)
    requires s.phase == CompactWritten && m <= |s.open|
    ensures Removals(s, m).disk.files ==
      if m == 0 then s.disk.files else Removals(s, m - 1).disk.files - {s.open[m - 1]}
  {
  }

  lemma {:induction false} RemovalsTables(s: State, m: nat)
    requires Inv(s) && s.phase == CompactWritten && m <= |s.open|
    ensures T(Removals(s, m)) == T(s) - Elements(s.open[..m])
  {
    hide Inv;
    hide TablesOf;
    hide Removals;
    RemovalsFiles(s, m);
    if m == 0 {
      assert T(s) - Elements(s.open[..0]) == T(s);
    } else {
      RemovalsTables(s, m - 1);
      RemovalsInv(s, m - 1);
      InvSound(Removals(s, m - 1));
      DropFile(Removals(s, m - 1).disk.files, s.open[m - 1]);
      OneMore(T(s), s.open, m);
    }
  }

  lemma OneMore(t: Numbered, open: seq<nat>, m: nat)
    requires 0 < m <= |open|
    ensures t - Elements(open[..m - 1]) - {open[m - 1]} == t - Elements(open[..m])
  {
    assert open[..m] == open[..m - 1] + [open[m - 1]];
    assert Elements(open[..m]) == Elements(open[..m - 1]) + {open[m - 1]};
  }

  lemma CompactFacts(s: State)
    requires Inv(s) && s.phase == CompactWritten
    ensures s.next in T(s) && s.next + 1 == NextSeq(T(s).Keys) && s.open == Descending(T(s).Keys, s.next)
    ensures T(s)[s.next] == AsLayer(Model(s)) && View(InOrder(T(s), s.next)) == Model(s)
  {
    hide View;
    hide TablesOf;
    hide InOrder;
    hide Model;
    hide AsLayer;
  }

  lemma MinusIsInterrupted(t: Numbered, n: nat, m: nat)
    requires n in t && (forall i :: i in t ==> i <= n) && m <= |Descending(t.Keys, n)|
    requires t[n] == AsLayer(View(InOrder(t, n)))
    ensures var d := Descending(t.Keys, n);
      && InOrder(t - {n}, n) == InOrder(t, n)
      && t - Elements(d[..m]) == Interrupted(t - {n}, Elements(d[m..]), n)
  {
    hide *;
    var d := Descending(t.Keys, n);
    InOrderMinus(t, n);
    SplitKeys(t.Keys, n, m);
    DescendingRange(t.Keys, n);
    RemovedBelow(d, m, n);
    MinusIsRestrict(t, n, Elements(d[..m]), Elements(d[m..]));
  }

  lemma InOrderMinus(t: Numbered, n: nat)
    ensures InOrder(t - {n}, n) == InOrder(t, n)
  {
    hide InOrder;
    InOrderAgree(t, t - {n}, n);
  }

  lemma RemovedBelow(d: seq<nat>, m: nat, n: nat)
    requires m <= |d| && forall i :: 0 <= i < |d| ==> d[i] < n
    ensures forall k :: k in Elements(d[..m]) ==> k < n
    ensures forall k :: k in Elements(d[m..]) <==> k in d[m..]
  {
  }

  lemma MinusIsRestrict(t: Numbered, n: nat, removed: set<nat>, kept: set<nat>)
    requires n in t && (forall i :: i in t ==> i <= n)
    requires t[n] == AsLayer(View(InOrder(t - {n}, n)))
    requires forall k :: k in removed ==> k < n
    requires forall k :: k in t.Keys && k < n ==> (k in kept <==> k !in removed)
    requires forall k :: k in kept ==> k in t.Keys && k < n
    ensures t - removed == Interrupted(t - {n}, kept, n)
  {
    hide View;
    hide InOrder;
    hide AsLayer;
  }

  /** What is left is the compacted table and the old tables not yet reached. */
  lemma RemovalsAreInterrupted(s: State, m: nat)
    requires Inv(s) && s.phase == CompactWritten && m <= |s.open|
    ensures T(Removals(s, m)) == Interrupted(T(s) - {s.next}, Elements(s.open[m..]), s.next)
    ensures View(InOrder(T(s) - {s.next}, s.next)) == Model(s)
  {
    hide *;
    CompactFacts(s);
    RemovalsTables(s, m);
    assert forall i :: i in T(s) ==> i <= s.next by {
      assert forall i :: i in T(s).Keys ==> i < s.next + 1;
    }
    MinusIsInterrupted(T(s), s.next, m);
  }

  /** The numbers below n are exactly those of the list, without repetition. */
  lemma SplitKeys(keys: set<nat>, n: nat, m: nat)
    requires m <= |Descending(keys, n)|
    ensures var d := Descending(keys, n);
      && (forall k :: k in keys && k < n ==> (k in Elements(d[m..]) <==> k !in Elements(d[..m])))
      && (forall k :: k in Elements(d[m..]) ==> k in keys && k < n)
  {
    hide Descending;
    var d := Descending(keys, n);
    DescendingRange(keys, n);
    forall k | k in keys && k < n ensures k in Elements(d[m..]) <==> k !in Elements(d[..m]) {
      DescendingComplete(keys, n, k);
      var j :| 0 <= j < |d| && d[j] == k;
    }
  }

  /** If the process dies after m removals, a restart differs from the model exactly on the keys whose
      newest version is a tombstone in a removed file and whose newest version left is live. */
  lemma RemovalCrash(s: State, m: nat, k: Bytes)
    requires Inv(s) && s.phase == CompactWritten && m <= |s.open|
    ensures var kept := Elements(s.open[m..]);
      (Layers.Get(DiskView(Removals(s, m).disk), k) != Layers.Get(Model(s), k)) ==
        Resurrected(T(s) - {s.next}, kept, s.next, k)
  {
    hide *;
    var r := Removals(s, m);
    RemovalsInv(s, m);
    RemovalsAreInterrupted(s, m);
    RemovingView(r);
    InterruptedView(T(s) - {s.next}, Elements(s.open[m..]), s.next, k);
  }

  lemma RemovingView(s: State)
    requires Inv(s) && s.phase.Removing?
    ensures DiskView(s.disk) == View(InOrder(T(s), s.next))
  {
    hide View;
    hide TablesOf;
    hide Recovered;
    hide InOrder;
    hide ToMap;
    hide Model;
    DiskViewIs(s);
    NothingRecovered();
    ViewEmptyMem(InOrder(T(s), s.next));
  }
}
