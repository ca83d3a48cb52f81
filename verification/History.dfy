/** What a client knows: the writes of a run, read off its steps alone, never off the disk. Durability
    is stated against this history. */
module History {
  import opened Bytes
  import opened Entries
  import opened Layers
  import opened Tables
  import opened SSTableFormat
  import SSTableReader
  import opened Compaction
  import opened Machine
  import opened MachineProof

  /** A finished write: acknowledged to the client, or cut off by a crash after its record was complete. */
  datatype Done = Done(op: Op, acknowledged: bool)

  datatype Past = Past(done: seq<Done>, flight: Option<Op>)

  function Settle(p: Past, acknowledged: bool): Past {
    match p.flight
    case None => p
    case Some(op) => Past(p.done + [Done(op, acknowledged)], None)
  }

  /** One step of the run: an append puts a write in flight, the call's return acknowledges it, and a
      crash leaves it unacknowledged. Nothing else matters. */
  function Remember(p: Past, step: Step): Past {
    match step
    case AppendLog(op) => p.(flight := Some(op))
    case Acknowledge => Settle(p, true)
    case Crash => Settle(p, false)
    case CrashInAppend(_, _) => Settle(p, false)
    case CrashInWrite(_) => Settle(p, false)
    case _ => p
  }

  function Recall(steps: seq<Step>): Past {
    if steps == [] then Past([], None) else Remember(Recall(steps[..|steps| - 1]), steps[|steps| - 1])
  }

  /** The plain map that finished writes amount to. */
  function Written(done: seq<Done>): map<Bytes, Bytes> {
    if done == [] then map[] else Apply(Written(done[..|done| - 1]), done[|done| - 1].op)
  }

  /** The same with the write in flight, whose record is complete. */
  function Expected(p: Past): map<Bytes, Bytes> {
    match p.flight
    case None => Written(p.done)
    case Some(op) => Apply(Written(p.done), op)
  }

  lemma Settled(p: Past, acknowledged: bool)
    ensures Written(Settle(p, acknowledged).done) == Expected(p) && Settle(p, acknowledged).flight == None
  {
    if p.flight.Some? {
      var d := p.done + [Done(p.flight.value, acknowledged)];
      assert d[..|d| - 1] == p.done;
    }
  }

  /** No crash in the run came between two file removals. */
  ghost predicate SafeRemovals(steps: seq<Step>)
    requires Legal(steps)
  {
    steps == [] ||
    (SafeRemovals(steps[..|steps| - 1]) &&
     (steps[|steps| - 1] == Crash ==> var s := Run(steps[..|steps| - 1]); s.phase.Removing? ==> s.phase.left == []))
  }

  // ---- The machine follows the history. ----

  /** The part of a map that another one contains. */
  predicate Contained(a: map<Bytes, Bytes>, b: map<Bytes, Bytes>) {
    forall k :: k in a ==> k in b && b[k] == a[k]
  }

  lemma ApplyContained(a: map<Bytes, Bytes>, b: map<Bytes, Bytes>, op: Op)
    requires Contained(a, b)
    ensures Contained(Apply(a, op), Apply(b, op))
  {
  }

  /** The fields of a state that the client's history determines. */
  lemma ClientStep(s: State, step: Step)
    requires Enabled(s, step)
    ensures var r := After(s, step);
      match step
      case AppendLog(op) => r.acked == s.acked && r.flight == Some(op)
      case Acknowledge => r.acked == Model(s) && r.flight == None
      case Crash => r.acked == Survives(s) && r.flight == None
      case CrashInAppend(_, _) => r.acked == Model(s) && r.flight == None
      case CrashInWrite(_) => r.acked == Model(s) && r.flight == None
      case _ => r.acked == s.acked && r.flight == s.flight
  {
    hide Enabled;
    hide Model;
    hide Survives;
    hide FileOf;
    hide Compacted;
    hide TablesOf;
    hide Descending;
    hide Replay;
    hide Wal.Recovered;
    hide Wal.Encode;
    hide Wal.Clean;
    hide Upsert;
  }

  lemma SurvivesContains(s: State)
    ensures Contained(Model(s), Survives(s))
  {
    hide View;
    hide TablesOf;
    hide Model;
  }

  lemma ModelContains(s: State, p: Past)
    requires Contained(Written(p.done), s.acked) && s.flight == p.flight
    ensures Contained(Expected(p), Model(s))
    ensures Written(p.done) == s.acked ==> Expected(p) == Model(s)
  {
    hide Apply;
    hide Contained;
    hide Written;
    if p.flight.Some? {
      ApplyContained(Written(p.done), s.acked, p.flight.value);
    }
  }

  lemma ContainedTrans(a: map<Bytes, Bytes>, b: map<Bytes, Bytes>, c: map<Bytes, Bytes>)
    requires Contained(a, b) && Contained(b, c)
    ensures Contained(a, c)
  {
  }

  /** One step: the machine's map keeps containing the history, and equals it unless a crash interrupts removal. */
  lemma FollowsStep(s: State, p: Past, step: Step)
    requires Enabled(s, step) && Contained(Written(p.done), s.acked) && s.flight == p.flight
    ensures var r, q := After(s, step), Remember(p, step);
      && r.flight == q.flight && Contained(Written(q.done), r.acked)
      && (Written(p.done) == s.acked && (step == Crash ==> s.phase.Removing? ==> s.phase.left == []) ==>
          Written(q.done) == r.acked)
  {
    hide Enabled;
    hide After;
    hide Model;
    hide Survives;
    hide Contained;
    hide Written;
    hide Settle;
    hide Expected;
    ClientStep(s, step);
    ModelContains(s, p);
    Settled(p, true);
    Settled(p, false);
    SurvivesContains(s);
    SettledSurvives(s);
    ContainedTrans(Expected(p), Model(s), Survives(s));
  }

  /** Over every run. */
  lemma {:induction false} Follows(steps: seq<Step>)
    requires Legal(steps)
    ensures var s, p := Run(steps), Recall(steps);
      s.flight == p.flight && Contained(Written(p.done), s.acked) &&
        (SafeRemovals(steps) ==> Written(p.done) == s.acked)
  {
    hide Enabled;
    hide After;
    hide Remember;
    if steps != [] {
      var before := steps[..|steps| - 1];
      Follows(before);
      FollowsStep(Run(before), Recall(before), steps[|steps| - 1]);
    }
  }

  // ---- Durability. ----

  /** Durability: at every point of every run, what a restart would show is exactly the finished writes and
      the one in flight whose record is complete, provided that nothing was appended behind a torn tail and
      that no crash came, or comes now, between two file removals. */
  lemma Durability(steps: seq<Step>)
    requires Legal(steps) && SafeRemovals(steps)
    ensures var s := Run(steps);
      !s.exposed && (s.phase.Removing? ==> s.phase.left == []) ==> DiskView(s.disk) == Expected(Recall(steps))
  {
    hide Legal;
    hide Run;
    hide DiskView;
    hide Model;
    hide Written;
    hide SafeRemovals;
    hide Expected;
    hide Recall;
    hide Contained;
    DiskShowsModel(steps);
    Follows(steps);
    ModelContains(Run(steps), Recall(steps));
  }

  /** With a crash between two removals too, no live write is lost while the log is not exposed: a restart shows
      at least the finished writes and the one in flight. */
  lemma NothingLost(steps: seq<Step>)
    requires Legal(steps) && !Run(steps).exposed
    ensures Contained(Expected(Recall(steps)), DiskView(Run(steps).disk))
  {
    hide Legal;
    hide Run;
    hide DiskView;
    hide Model;
    hide Survives;
    hide Written;
    hide Expected;
    hide Recall;
    hide Contained;
    DiskShowsModel(steps);
    Follows(steps);
    ModelContains(Run(steps), Recall(steps));
    SurvivesContains(Run(steps));
    ContainedTrans(Expected(Recall(steps)), Model(Run(steps)), Survives(Run(steps)));
  }

  /** Between operations the running engine shows exactly the finished writes, torn log tail or not. */
  lemma LiveHistory(steps: seq<Step>)
    requires Legal(steps) && SafeRemovals(steps) && Run(steps).phase == Idle
    ensures forall i :: 0 <= i < |Run(steps).open| ==> Run(steps).open[i] in T(Run(steps))
    ensures LiveView(Run(steps)) == Written(Recall(steps).done)
  {
    hide Legal;
    hide Run;
    hide TablesOf;
    hide View;
    hide Written;
    hide SafeRemovals;
    hide Recall;
    hide Descending;
    LiveReads(steps);
    Follows(steps);
  }

  /** A crash leaves the disk view alone, and turns the write in flight into a finished one that was not
      acknowledged. */
  lemma CrashAdds(steps: seq<Step>)
    requires Legal(steps + [Crash])
    ensures Legal(steps) && DiskView(Run(steps + [Crash]).disk) == DiskView(Run(steps).disk)
    ensures var p, q := Recall(steps), Recall(steps + [Crash]);
      && Written(q.done) == Expected(p) && q.flight == None
      && q.done == if p.flight.None? then p.done else p.done + [Done(p.flight.value, false)]
  {
    hide Legal;
    hide Run;
    hide DiskView;
    hide Written;
    hide Expected;
    RunStep(steps, Crash);
    assert (steps + [Crash])[..|steps|] == steps;
    Settled(Recall(steps), false);
  }

  // ---- Nothing is invented. ----

  /** The operations a run has logged completely, in order. */
  function Logged(steps: seq<Step>): seq<Op> {
    if steps == [] then []
    else
      var ops, step := Logged(steps[..|steps| - 1]), steps[|steps| - 1];
      if step.AppendLog? then ops + [step.op] else ops
  }

  /** Every live version in a table was put. */
  ghost predicate FromPuts(t: Layer, ops: seq<Op>) {
    forall k :: k in t && t[k].Some? ==> Put(k, t[k].value) in ops
  }

  ghost predicate MapFromPuts(m: map<Bytes, Bytes>, ops: seq<Op>) {
    forall k :: k in m ==> Put(k, m[k]) in ops
  }

  ghost predicate TablesFromPuts(t: Numbered, ops: seq<Op>) {
    forall n :: n in t ==> FromPuts(t[n], ops)
  }

  ghost predicate AllFromPuts(s: State, ops: seq<Op>) {
    && TablesFromPuts(T(s), ops) && FromPuts(ToMap(s.mem), ops) && MapFromPuts(s.acked, ops)
    && (s.flight.Some? ==> s.flight.value in ops)
  }

  lemma {:induction false} ViewFromPuts(ts: seq<Layer>, ops: seq<Op>)
    requires forall i :: 0 <= i < |ts| ==> FromPuts(ts[i], ops)
    ensures FromPuts(Merge(ts), ops) && MapFromPuts(View(ts), ops)
  {
    if ts != [] {
      ViewFromPuts(ts[1..], ops);
    }
  }

  lemma ApplyFromPuts(m: map<Bytes, Bytes>, op: Op, ops: seq<Op>)
    requires MapFromPuts(m, ops) && op in ops
    ensures MapFromPuts(Apply(m, op), ops)
  {
  }

  lemma ModelFromPuts(s: State, ops: seq<Op>)
    requires AllFromPuts(s, ops)
    ensures MapFromPuts(Model(s), ops)
  {
    hide Apply;
    hide TablesFromPuts;
    hide FromPuts;
    hide MapFromPuts;
    if s.flight.Some? {
      ApplyFromPuts(s.acked, s.flight.value, ops);
    }
  }

  lemma SurvivesFromPuts(s: State, ops: seq<Op>)
    requires AllFromPuts(s, ops)
    ensures MapFromPuts(Survives(s), ops)
  {
    hide TablesOf;
    hide View;
    hide FromPuts;
    hide ToMap;
    hide Model;
    ModelFromPuts(s, ops);
    if s.phase.Removing? && forall i :: 0 <= i < |s.phase.left| ==> s.phase.left[i] in T(s) {
      ViewFromPuts(Pick(T(s), s.phase.left), ops);
    }
  }

  /** A version in the newest layer is what the view shows. */
  lemma NewestShows(t: Layer, ts: seq<Layer>, k: Bytes)
    requires k in t && t[k].Some?
    ensures k in View([t] + ts) && View([t] + ts)[k] == t[k].value
  {
    MergeCons(t, ts);
  }

  lemma RestartFromPuts(s: State, ops: seq<Op>)
    requires Inv(s) && Enabled(s, Restart) && AllFromPuts(s, ops)
    ensures FromPuts(ToMap(After(s, Restart).mem), ops)
  {
    hide View;
    hide TablesOf;
    hide Replay;
    hide Wal.Recovered;
    hide ToMap;
    hide InOrder;
    hide Sound;
    hide AllValid;
    hide TablesFromPuts;
    DiskViewIs(s);
    var t := ToMap(Replay(Wal.Recovered(s.disk.log)));
    forall k | k in t && t[k].Some? ensures Put(k, t[k].value) in ops {
      NewestShows(t, InOrder(T(s), NextSeq(T(s).Keys)), k);
    }
  }

  lemma LiveFromPuts(m: map<Bytes, Bytes>, ops: seq<Op>)
    requires MapFromPuts(m, ops)
    ensures FromPuts(AsLayer(m), ops)
  {
  }

  lemma MoreOps(s: State, ops: seq<Op>, op: Op)
    requires AllFromPuts(s, ops)
    ensures AllFromPuts(s, ops + [op])
  {
    hide TablesOf;
    hide ToMap;
  }

  /** What each step does to the tables. */
  lemma TablesAfter(s: State, step: Step)
    requires Inv(s) && Enabled(s, step)
    ensures var t, t' := T(s), T(After(s, step));
      match step
      case WriteTable => t' == t[s.next := ToMap(s.mem)]
      case WriteCompacted => t' == t[s.next := AsLayer(Model(s))]
      case _ => forall n :: n in t' ==> n in t && t'[n] == t[n]
  {
    hide TablesOf;
    hide ToMap;
    hide View;
    hide InOrder;
    hide FileOf;
    hide Storable;
    hide Sound;
    hide Compacted;
    hide ListsOf;
    hide Model;
    hide Replay;
    hide Wal.Recovered;
    hide Wal.Clean;
    hide Wal.Encode;
    hide AllValid;
    hide Descending;
    hide Upsert;
    hide AsLayer;
    hide Survives;
    hide Inv;
    InvSound(s);
    match step
    case WriteTable => WriteFile(s.disk.files, s.next, s.mem);
    case WriteCompacted => CompactedTable(s);
    case RemoveOldFile => DropFile(s.disk.files, s.phase.left[0]);
    case RemoveCorruptFile(i) => DropFile(s.disk.files, i);
    case CrashInWrite(part) => HalfFile(s.disk.files, s.next, part);
    case _ =>
  }

  lemma HalfFile(files: map<nat, Bytes>, n: nat, part: Bytes)
    requires !SSTableReader.HasMagic(part)
    ensures TablesOf(files[n := part]) == TablesOf(files) - {n}
  {
    hide SSTableReader.HasMagic;
    hide SSTableReader.Contents;
    hide ToMap;
  }

  lemma CompactedTable(s: State)
    requires Inv(s) && Enabled(s, WriteCompacted)
    ensures T(After(s, WriteCompacted)) == T(s)[s.next := AsLayer(Model(s))]
  {
    hide TablesOf;
    hide ToMap;
    hide View;
    hide InOrder;
    hide FileOf;
    hide Storable;
    hide Sound;
    hide Compacted;
    hide ListsOf;
    hide AsLayer;
    hide Apply;
    InvSound(s);
    WriteFile(s.disk.files, s.next, Compacted(ListsOf(s.disk.files, s.open)));
    StepWriteCompacted(s);
  }

  /** What each step does to the memtable. */
  lemma MemAfter(s: State, step: Step)
    requires Enabled(s, step)
    ensures var r := After(s, step);
      match step
      case UpdateMemtable => ToMap(r.mem) == ToMap(s.mem)[s.flight.value.key := VersionOf(s.flight.value)]
      case Restart => true
      case _ => r.mem == s.mem || r.mem == []
  {
    hide TablesOf;
    hide ToMap;
    hide FileOf;
    hide Storable;
    hide Compacted;
    hide ListsOf;
    hide Replay;
    hide Wal.Recovered;
    hide Wal.Clean;
    hide Wal.Encode;
    hide AllValid;
    hide Descending;
    hide Upsert;
    hide Survives;
    hide Model;
    if step.UpdateMemtable? {
      UpsertMap(s.mem, s.flight.value.key, VersionOf(s.flight.value));
    }
  }

  lemma TablesFromPutsStep(s: State, step: Step, ops: seq<Op>)
    requires Inv(s) && Enabled(s, step) && AllFromPuts(s, ops)
    ensures TablesFromPuts(T(After(s, step)), ops)
  {
    hide Inv;
    hide Enabled;
    hide After;
    hide TablesOf;
    hide ToMap;
    hide Model;
    hide AsLayer;
    hide FromPuts;
    TablesAfter(s, step);
    ModelFromPuts(s, ops);
    LiveFromPuts(Model(s), ops);
  }

  lemma MemFromPutsStep(s: State, step: Step, ops: seq<Op>)
    requires Inv(s) && Enabled(s, step) && AllFromPuts(s, ops)
    ensures FromPuts(ToMap(After(s, step).mem), ops)
  {
    hide Inv;
    hide TablesOf;
    hide ToMap;
    hide TablesFromPuts;
    hide MapFromPuts;
    hide After;
    MemAfter(s, step);
    EmptyMap();
    if step.Restart? {
      RestartFromPuts(s, ops);
    }
  }

  lemma FromPutsStep(s: State, step: Step, ops: seq<Op>)
    requires Inv(s) && Enabled(s, step) && AllFromPuts(s, ops) && (step.AppendLog? ==> step.op in ops)
    ensures AllFromPuts(After(s, step), ops)
  {
    hide Inv;
    hide Enabled;
    hide After;
    hide TablesOf;
    hide ToMap;
    hide Model;
    hide Survives;
    hide FromPuts;
    hide MapFromPuts;
    hide TablesFromPuts;
    TablesFromPutsStep(s, step, ops);
    MemFromPutsStep(s, step, ops);
    ClientStep(s, step);
    ModelFromPuts(s, ops);
    SurvivesFromPuts(s, ops);
  }

  lemma {:induction false} RunFromPuts(steps: seq<Step>)
    requires Legal(steps)
    ensures AllFromPuts(Run(steps), Logged(steps))
  {
    hide Enabled;
    hide After;
    hide AllFromPuts;
    hide Inv;
    if steps == [] {
      NothingYet();
    } else {
      var before, step := steps[..|steps| - 1], steps[|steps| - 1];
      RunFromPuts(before);
      RunKeepsInv(before);
      if step.AppendLog? {
        MoreOps(Run(before), Logged(before), step.op);
      }
      FromPutsStep(Run(before), step, Logged(steps));
    }
  }

  lemma NothingYet()
    ensures AllFromPuts(Initial(), [])
  {
  }

  /** The operations of a history. */
  function OpsOf(p: Past): seq<Op> {
    seq(|p.done|, i requires 0 <= i < |p.done| => p.done[i].op) + if p.flight.Some? then [p.flight.value] else []
  }

  /** The history forgets no logged operation. */
  lemma {:induction false} LoggedIsRecalled(steps: seq<Step>)
    requires Legal(steps)
    ensures Logged(steps) == OpsOf(Recall(steps))
  {
    hide Enabled;
    hide After;
    hide Inv;
    if steps != [] {
      var before, step := steps[..|steps| - 1], steps[|steps| - 1];
      LoggedIsRecalled(before);
      Follows(before);
      RunKeepsInv(before);
      if step.AppendLog? {
        IdleNoFlight(Run(before), step);
      }
    }
  }

  lemma IdleNoFlight(s: State, step: Step)
    requires Inv(s) && Enabled(s, step) && step.AppendLog?
    ensures s.flight == None
  {
    hide View;
    hide TablesOf;
    hide Sound;
    hide Ready;
    hide Shown;
    hide Recorded;
  }

  /** A key that was put and is not there was removed. */
  lemma {:induction false} MissingWasRemoved(done: seq<Done>, k: Bytes, i: nat)
    requires i < |done| && done[i].op.Put? && done[i].op.key == k && k !in Written(done)
    ensures exists j :: 0 <= j < |done| && done[j].op == Remove(k)
  {
    var n := |done| - 1;
    if done[n].op != Remove(k) {
      assert i < n;
      MissingWasRemoved(done[..n], k, i);
      var j :| 0 <= j < n && done[..n][j].op == Remove(k);
      assert done[j].op == Remove(k);
    }
  }

  lemma PutThenMissing(p: Past, k: Bytes, v: Bytes)
    requires Put(k, v) in OpsOf(p) && k !in Expected(p)
    ensures Remove(k) in OpsOf(p)
  {
    hide Written;
    var all := Settle(p, false).done;
    Settled(p, false);
    var ops := OpsOf(p);
    assert |ops| == |all| && forall i :: 0 <= i < |all| ==> ops[i] == all[i].op;
    var i :| 0 <= i < |ops| && ops[i] == Put(k, v);
    MissingWasRemoved(all, k, i);
    var j :| 0 <= j < |all| && all[j].op == Remove(k);
    assert ops[j] == Remove(k);
  }

  /** On every run, what a restart would show was put, with that value, in the run; and a key it shows that
      the history lacks is one the history has removed. */
  lemma NothingInvented(steps: seq<Step>, k: Bytes)
    requires Legal(steps) && !Run(steps).exposed && k in DiskView(Run(steps).disk)
    ensures Put(k, DiskView(Run(steps).disk)[k]) in OpsOf(Recall(steps))
    ensures k !in Expected(Recall(steps)) ==> Remove(k) in OpsOf(Recall(steps))
  {
    hide Legal;
    hide Run;
    hide DiskView;
    hide Survives;
    hide Expected;
    hide Recall;
    hide OpsOf;
    hide Logged;
    hide AllFromPuts;
    RunFromPuts(steps);
    LoggedIsRecalled(steps);
    DiskShowsModel(steps);
    SurvivesFromPuts(Run(steps), Logged(steps));
    if k !in Expected(Recall(steps)) {
      PutThenMissing(Recall(steps), k, DiskView(Run(steps).disk)[k]);
    }
  }

  // ---- The put that triggers compaction. ----

  /** From the memtable update until the log is truncated, the newest layer holds the write in flight. */
  ghost predicate FlightStored(s: State) {
    match s.flight
    case None => true
    case Some(op) =>
      match s.phase
      case Applied => Holds(ToMap(s.mem), op)
      case FlushWritten => Holds(ToMap(s.mem), op)
      case FlushOpened => s.open != [] && s.open[0] in T(s) && Holds(T(s)[s.open[0]], op)
      case Flushed => s.open != [] && s.open[0] in T(s) && Holds(T(s)[s.open[0]], op)
      case _ => true
  }

  predicate Holds(t: Layer, op: Op) {
    op.key in t && t[op.key] == VersionOf(op)
  }

  lemma StoredAfterUpdate(s: State)
    requires Enabled(s, UpdateMemtable)
    ensures FlightStored(After(s, UpdateMemtable))
  {
    hide TablesOf;
    hide ToMap;
    hide Upsert;
    var op := s.flight.value;
    UpsertMap(s.mem, op.key, VersionOf(op));
  }

  lemma StoredAfterOpen(s: State)
    requires Inv(s) && Enabled(s, OpenTable) && FlightStored(s)
    ensures FlightStored(After(s, OpenTable))
  {
    hide TablesOf;
    hide ToMap;
    hide View;
    hide InOrder;
    hide Replay;
    hide Wal.Recovered;
    hide Sound;
  }

  lemma StoredAfterOther(s: State, step: Step)
    requires Inv(s) && Enabled(s, step) && FlightStored(s) && step != UpdateMemtable && step != OpenTable
    ensures FlightStored(After(s, step))
  {
    hide TablesOf;
    hide ToMap;
    hide View;
    hide InOrder;
    hide Replay;
    hide Wal.Recovered;
    hide Wal.Clean;
    hide Wal.Encode;
    hide Sound;
    hide FileOf;
    hide Storable;
    hide Compacted;
    hide Descending;
    hide Holds;
    hide DiskView;
    hide Survives;
    hide Recorded;
    hide Ready;
    hide FileAhead;
  }

  lemma {:induction false} RunStoresFlight(steps: seq<Step>)
    requires Legal(steps)
    ensures FlightStored(Run(steps))
  {
    hide Enabled;
    hide After;
    hide FlightStored;
    hide Inv;
    if steps == [] {
      NoFlight();
    } else {
      var before, step := steps[..|steps| - 1], steps[|steps| - 1];
      RunStoresFlight(before);
      RunKeepsInv(before);
      if step == UpdateMemtable {
        StoredAfterUpdate(Run(before));
      } else if step == OpenTable {
        StoredAfterOpen(Run(before));
      } else {
        StoredAfterOther(Run(before), step);
      }
    }
  }

  lemma NoFlight()
    ensures FlightStored(Initial())
  {
  }

  /** Whenever the engine compacts, the put that triggered it is live in the newest table, so the merged list
      has a live entry and the key `__empty__` is never written. */
  lemma EmptyKeyUnreachable(steps: seq<Step>)
    requires Legal(steps) && Enabled(Run(steps), WriteCompacted)
    ensures var s := Run(steps); var put := s.flight.value; var ls := ListsOf(s.disk.files, s.open);
      && s.open[0] in T(s) && put.key in T(s)[s.open[0]] && T(s)[s.open[0]][put.key] == Some(put.val)
      && LiveEntries(MergeLists(ls)) != [] && Compacted(ls) == LiveEntries(MergeLists(ls))
  {
    hide Legal;
    hide Run;
    hide Inv;
    hide TablesOf;
    hide MergeLists;
    hide LiveEntries;
    hide ListsOf;
    hide Storable;
    hide ToMap;
    RunStoresFlight(steps);
    RunKeepsInv(steps);
    CompactsLive(Run(steps));
  }

  lemma CompactsLive(s: State)
    requires Inv(s) && Enabled(s, WriteCompacted)
    ensures LiveEntries(MergeLists(ListsOf(s.disk.files, s.open))) != []
  {
    hide View;
    hide TablesOf;
    hide InOrder;
    hide Storable;
    hide Sound;
    hide Compacted;
    hide ListsOf;
    hide MergeLists;
    hide ToMap;
    hide AsLayer;
    hide Apply;
    hide LiveEntries;
    var ls := ListsOf(s.disk.files, s.open);
    OpenListings(s);
    ViewEmptyMem(InOrder(T(s), s.next));
    ModelNotEmpty(s);
    LiveListing(ls);
    NotEmptyLive(ls);
  }

  lemma NotEmptyLive(ls: seq<seq<Entry>>)
    requires ToMap(LiveEntries(MergeLists(ls))) == AsLayer(View(Maps(ls))) && View(Maps(ls)) != map[]
    ensures LiveEntries(MergeLists(ls)) != []
  {
    hide View;
    hide MergeLists;
    hide Maps;
    hide LiveEntries;
    assert AsLayer(View(Maps(ls))).Keys == View(Maps(ls)).Keys;
    EmptyMap();
  }
}
