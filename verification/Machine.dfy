/** The engine as a state machine over its disk steps (src/engine/storage_engine.cpp):
    a write-ahead log and numbered table files survive a crash, everything else does
    not. Every step below is one disk effect or one update of volatile state, and the
    process may die between any two of them. */
module Machine {
  import opened Bytes
  import opened Entries
  import opened Layers
  import opened Tables
  import opened Wal
  import opened SSTableFormat
  import opened SSTableReader
  import opened Compaction

  const COMPACTION_THRESHOLD: nat := 4

  // ---- Operations and their records. ----

  datatype Op = Put(key: Bytes, val: Bytes) | Remove(key: Bytes)

  function RecordOf(op: Op): Record {
    match op
    case Put(k, v) => Record(PUT, k, v)
    case Remove(k) => Record(DELETE, k, [])
  }

  function VersionOf(op: Op): Version {
    match op
    case Put(k, v) => Some(v)
    case Remove(k) => None
  }

  /** The operation on the plain map the client thinks of. */
  function Apply(m: map<Bytes, Bytes>, op: Op): map<Bytes, Bytes> {
    match op
    case Put(k, v) => m[k := v]
    case Remove(k) => m - {k}
  }

  /** `StorageEngine::recover`'s loop: the memtable after replaying records; unknown types are skipped. */
  function Replay(rs: seq<Record>): (mem: seq<Entry>)
    ensures StrictlySorted(mem)
  {
    if rs == [] then []
    else
      var t, r := Replay(rs[..|rs| - 1]), rs[|rs| - 1];
      if r.op == PUT then UpsertSorted(t, r.key, Some(r.val)); Upsert(t, r.key, Some(r.val))
      else if r.op == DELETE then UpsertSorted(t, r.key, None); Upsert(t, r.key, None)
      else t
  }

  lemma ReplayAppend(rs: seq<Record>, op: Op)
    ensures Replay(rs + [RecordOf(op)]) == Upsert(Replay(rs), op.key, VersionOf(op))
  {
    hide Upsert;
    hide StrictlySorted;
    assert (rs + [RecordOf(op)])[..|rs|] == rs;
  }

  // ---- The disk. ----

  datatype Disk = Disk(log: Bytes, files: map<nat, Bytes>)

  /** The tables a restart would load: the files that pass `validate`. */
  ghost function TablesOf(files: map<nat, Bytes>): Numbered {
    map n | n in files && HasMagic(files[n]) :: ToMap(Contents(files[n]))
  }

  /** Every file that passes `validate` was completely written by `build`. */
  ghost predicate Sound(files: map<nat, Bytes>) {
    forall n :: n in files && HasMagic(files[n]) ==> IsBuilt(files[n], Contents(files[n]))
  }

  ghost predicate AllValid(files: map<nat, Bytes>) {
    forall n :: n in files ==> HasMagic(files[n])
  }

  /** What a restarted engine would show: the replayed log over the tables, newest first. */
  ghost function DiskView(d: Disk): map<Bytes, Bytes> {
    var t := TablesOf(d.files);
    View([ToMap(Replay(Recovered(d.log)))] + InOrder(t, NextSeq(t.Keys)))
  }

  // ---- States. ----

  /** Where the running operation stands; each phase but the last follows one disk step. */
  datatype Phase =
    | Idle
    | Logged                       // record appended, memtable not yet updated
    | Applied                      // memtable updated; may flush
    | FlushWritten                 // table file written, not yet opened
    | FlushOpened                  // table opened, memtable cleared, log not yet truncated
    | Flushed                      // log truncated; may compact
    | CompactWritten               // compacted file written, not yet opened
    | Removing(left: seq<nat>)     // compacted table opened; old files still to remove
    | Down

  datatype State = State(
    disk: Disk,
    phase: Phase,
    mem: seq<Entry>,
    open: seq<nat>,
    next: nat,
    acked: map<Bytes, Bytes>,      // what to show: writes acknowledged since the last crash, over what that left
    flight: Option<Op>,            // a write whose record is complete but which is not acknowledged
    exposed: bool)                 // a record was appended behind a leftover torn tail

  /** What the engine should show once the write in flight, if its record is complete, is done. */
  function Model(s: State): map<Bytes, Bytes> {
    match s.flight
    case None => s.acked
    case Some(op) => Apply(s.acked, op)
  }

  ghost function T(s: State): Numbered {
    TablesOf(s.disk.files)
  }

  /** What `get` and `scan` see: the memtable over the open tables. */
  ghost function LiveView(s: State): map<Bytes, Bytes>
    requires forall i :: 0 <= i < |s.open| ==> s.open[i] in T(s)
  {
    View([ToMap(s.mem)] + Pick(T(s), s.open))
  }

  ghost function ListsOf(files: map<nat, Bytes>, open: seq<nat>): (ls: seq<seq<Entry>>)
    requires forall i :: 0 <= i < |open| ==> open[i] in files
    ensures |ls| == |open|
  {
    seq(|open|, i requires 0 <= i < |open| => Contents(files[open[i]]))
  }

  // ---- Steps. ----

  datatype Step =
    | AppendLog(op: Op)
    | UpdateMemtable
    | WriteTable
    | OpenTable
    | TruncateLog
    | WriteCompacted
    | SwapTables
    | RemoveOldFile
    | Acknowledge
    | Crash
    | CrashInAppend(op: Op, n: nat)    // only n bytes of the record reached the log
    | CrashInWrite(part: Bytes)        // a table file was left half-written
    | RemoveCorruptFile(i: nat)
    | Restart

  ghost predicate Enabled(s: State, step: Step) {
    match step
    case AppendLog(op) => s.phase == Idle && op.key != [] && Recoverable(RecordOf(op))
    case UpdateMemtable => s.phase == Logged && s.flight.Some? && StrictlySorted(s.mem)
    case WriteTable => s.phase == Applied && s.mem != [] && Storable(s.mem)
    case OpenTable => s.phase == FlushWritten
    case TruncateLog => s.phase == FlushOpened
    case WriteCompacted =>
      && s.phase == Flushed && s.flight.Some? && s.flight.value.Put? && |s.open| >= COMPACTION_THRESHOLD
      && (forall i :: 0 <= i < |s.open| ==> s.open[i] in s.disk.files)
      && Storable(Compacted(ListsOf(s.disk.files, s.open)))
    case SwapTables => s.phase == CompactWritten
    case RemoveOldFile => s.phase.Removing? && s.phase.left != []
    case Acknowledge => s.phase == Applied || s.phase == Flushed || s.phase == Removing([])
    case Crash => s.phase != Down && !s.exposed
    case CrashInAppend(op, n) =>
      s.phase == Idle && !s.exposed && Clean(s.disk.log) && Recoverable(RecordOf(op)) && n < |Encode(RecordOf(op))|
    case CrashInWrite(part) => (s.phase == Applied || s.phase == Flushed) && !s.exposed && !HasMagic(part)
    case RemoveCorruptFile(i) => s.phase == Down && i in s.disk.files && !HasMagic(s.disk.files[i])
    case Restart => s.phase == Down && AllValid(s.disk.files)
  }

  /** What the disk shows after a crash: the model, except that old tables which an interrupted
      compaction left behind show through wherever the model has nothing. */
  ghost function Survives(s: State): map<Bytes, Bytes> {
    if s.phase.Removing? && (forall i :: 0 <= i < |s.phase.left| ==> s.phase.left[i] in T(s))
    then View(Pick(T(s), s.phase.left)) + Model(s)
    else Model(s)
  }

  function Crashed(disk: Disk, acked: map<Bytes, Bytes>): State {
    State(disk, Down, [], [], 0, acked, None, false)
  }

  ghost function After(s: State, step: Step): State
    requires Enabled(s, step)
  {
    var d := s.disk;
    match step
    case AppendLog(op) =>
      s.(disk := d.(log := d.log + Encode(RecordOf(op))), phase := Logged, flight := Some(op),
         exposed := s.exposed || !Clean(d.log))
    case UpdateMemtable =>
      s.(mem := Upsert(s.mem, s.flight.value.key, VersionOf(s.flight.value)), phase := Applied)
    case WriteTable => s.(disk := d.(files := d.files[s.next := FileOf(s.mem)]), phase := FlushWritten)
    case OpenTable => s.(open := [s.next] + s.open, next := s.next + 1, mem := [], phase := FlushOpened)
    case TruncateLog => s.(disk := d.(log := []), phase := Flushed, exposed := false)
    case WriteCompacted =>
      s.(disk := d.(files := d.files[s.next := FileOf(Compacted(ListsOf(d.files, s.open)))]), phase := CompactWritten)
    case SwapTables => s.(open := [s.next], next := s.next + 1, phase := Removing(s.open))
    case RemoveOldFile =>
      s.(disk := d.(files := d.files - {s.phase.left[0]}), phase := Removing(s.phase.left[1..]))
    case Acknowledge => s.(acked := Model(s), flight := None, phase := Idle)
    case Crash => Crashed(d, Survives(s))
    case CrashInAppend(op, n) => Crashed(d.(log := d.log + Encode(RecordOf(op))[..n]), Model(s))
    case CrashInWrite(part) => Crashed(d.(files := d.files[s.next := part]), Model(s))
    case RemoveCorruptFile(i) => s.(disk := d.(files := d.files - {i}))
    case Restart =>
      var keys := TablesOf(d.files).Keys;
      s.(phase := Applied, mem := Replay(Recovered(d.log)), open := Descending(keys, NextSeq(keys)),
        next := NextSeq(keys))
  }

  /** An empty directory, before the first start. */
  function Initial(): State {
    Crashed(Disk([], map[]), map[])
  }

  ghost predicate Legal(steps: seq<Step>)
    decreases |steps|, 0
  {
    steps == [] || (Legal(steps[..|steps| - 1]) && Enabled(Run(steps[..|steps| - 1]), steps[|steps| - 1]))
  }

  /** The state a legal run ends in. */
  ghost function Run(steps: seq<Step>): State
    requires Legal(steps)
    decreases |steps|, 1
  {
    if steps == [] then Initial() else After(Run(steps[..|steps| - 1]), steps[|steps| - 1])
  }

  // ---- The invariant. ----

  ghost predicate Recorded(s: State, mem: seq<Entry>) {
    !s.exposed ==> Replay(Recovered(s.disk.log)) == mem
  }

  /** The open tables are the files on disk, newest first, and the next number is the first free one. */
  ghost predicate Ready(s: State) {
    && AllValid(s.disk.files) && StrictlySorted(s.mem)
    && s.next == NextSeq(T(s).Keys) && s.open == Descending(T(s).Keys, s.next)
  }

  /** One more file than the open ones, numbered `next`. */
  ghost predicate FileAhead(s: State) {
    && AllValid(s.disk.files) && StrictlySorted(s.mem)
    && s.next in T(s) && s.next + 1 == NextSeq(T(s).Keys) && s.open == Descending(T(s).Keys, s.next)
  }

  ghost function Shown(s: State): map<Bytes, Bytes> {
    View([ToMap(s.mem)] + InOrder(T(s), s.next))
  }

  ghost predicate NothingLogged(s: State) {
    s.mem == [] && s.disk.log == [] && !s.exposed
  }

  ghost predicate Inv(s: State) {
    && Sound(s.disk.files)
    && match s.phase
       case Down => s.flight == None && !s.exposed && DiskView(s.disk) == s.acked
       case Idle => Ready(s) && s.flight == None && Shown(s) == s.acked && Recorded(s, s.mem)
       case Logged =>
         && Ready(s) && s.flight.Some? && Shown(s) == s.acked
         && Recorded(s, Upsert(s.mem, s.flight.value.key, VersionOf(s.flight.value)))
       case Applied => Ready(s) && Shown(s) == Model(s) && Recorded(s, s.mem)
       case FlushWritten => FileAhead(s) && T(s)[s.next] == ToMap(s.mem) && Shown(s) == Model(s) && Recorded(s, s.mem)
       case FlushOpened =>
         && Ready(s) && s.mem == [] && Shown(s) == Model(s) && s.next > 0
         && (!s.exposed ==> ToMap(Replay(Recovered(s.disk.log))) == T(s)[s.next - 1])
       case Flushed => Ready(s) && NothingLogged(s) && Shown(s) == Model(s)
       case CompactWritten =>
         && FileAhead(s) && NothingLogged(s) && T(s)[s.next] == AsLayer(Model(s))
         && View(InOrder(T(s), s.next)) == Model(s)
       case Removing(left) =>
         && AllValid(s.disk.files) && NothingLogged(s) && s.next > 0 && s.next == NextSeq(T(s).Keys)
         && s.open == [s.next - 1] && T(s)[s.next - 1] == AsLayer(Model(s))
         && left == Descending(T(s).Keys, s.next - 1)
  }
}
