/** Whole runs of the store: every reachable state keeps the invariant, and what that means for
    reads, writers, snapshots and crashes. */
module StoreRuns {
  import opened Keys
  import opened Versions
  import opened Inputs
  import opened VersionBuilder
  import opened Compaction
  import opened Levels
  import opened Store
  import opened StoreWrites
  import opened StoreManifest
  import opened StoreBackground
  import opened StoreInstall
  import opened StoreRecovery
  import opened DbIter
  import Seqs

  /** A freshly created database that nobody has opened yet. */
  ghost predicate Init(s: State) {
    s == Down(Disk([], map[], [Edit({}, [], 0, 2, 0)]), History([], 0, 0, 0, 0), Queue([], 0))
  }

  datatype Step =
    | StepEnqueue(w: Writer) | StepLeadEmpty | StepSwitch | StepGroup(n: nat) | StepAppend | StepInsert | StepFinish
    | StepBuildTable(size: nat) | StepCommitFlush(level: nat) | StepCommitEmptyFlush
    | StepStartJob(level: nat, in0: seq<File>, in1: seq<File>, input: seq<Entry>)
    | StepOpenOutput | StepOutput(o: File) | StepCommitJob
    | StepMove(level: nat, f: File) | StepInstall | StepDeleteTable(n: nat) | StepDeleteLog(i: nat)
    | StepSnapshot | StepRelease(i: nat) | StepBeginRead(snapshot: nat) | StepEndRead(i: nat)
    | StepCrash | StepFailedReopen(n: nat, es: seq<Entry>) | StepReopen(news: seq<File>, starts: seq<nat>, log: nat)

  ghost predicate WriteStep(s: State, s': State, step: Step) {
    match step
    case StepEnqueue(w) => Enqueue(s, s', w)
    case StepLeadEmpty => LeadEmpty(s, s')
    case StepSwitch => SwitchMemTable(s, s')
    case StepGroup(n) => BuildGroup(s, s', n)
    case StepAppend => AppendGroup(s, s')
    case StepInsert => InsertOne(s, s')
    case StepFinish => FinishGroup(s, s')
    case _ => false
  }

  ghost predicate BackgroundStep(s: State, s': State, step: Step) {
    match step
    case StepBuildTable(size) => BuildTable(s, s', size)
    case StepCommitFlush(level) => CommitFlush(s, s', level)
    case StepCommitEmptyFlush => CommitEmptyFlush(s, s')
    case StepStartJob(level, in0, in1, input) => StartJob(s, s', level, in0, in1, input)
    case StepOpenOutput => OpenOutput(s, s')
    case StepOutput(o) => WriteOutput(s, s', o)
    case StepCommitJob => CommitJob(s, s')
    case StepMove(level, f) => CommitMove(s, s', level, f)
    case StepInstall => Install(s, s')
    case StepDeleteTable(n) => DeleteTable(s, s', n)
    case StepDeleteLog(i) => DeleteLog(s, s', i)
    case _ => false
  }

  ghost predicate ReadStep(s: State, s': State, step: Step) {
    match step
    case StepSnapshot => TakeSnapshot(s, s')
    case StepRelease(i) => ReleaseSnapshot(s, s', i)
    case StepBeginRead(snapshot) => BeginRead(s, s', snapshot)
    case StepEndRead(i) => EndRead(s, s', i)
    case _ => false
  }

  ghost predicate CrashStep(s: State, s': State, step: Step) {
    match step
    case StepCrash => Crash(s, s')
    case StepFailedReopen(n, es) => FailedReopen(s, s', n, es)
    case StepReopen(news, starts, log) => Reopen(s, s', news, starts, log)
    case _ => false
  }

  ghost predicate Does(s: State, s': State, step: Step) {
    WriteStep(s, s', step) || BackgroundStep(s, s', step) || ReadStep(s, s', step) || CrashStep(s, s', step)
  }

  // ----- The invariant holds in every reachable state

  lemma InitHolds(s: State)
    requires Init(s)
    ensures Inv(s)
  {
    hide Good, TableInv, ManifestInv, Build, AllPresent;
    var edit := s.disk.manifest[0];
    InitManifest(edit);
    NoTables(EMPTY);
    assert Range([], 0, 0) == [];
  }

  lemma InitManifest(edit: Edit)
    requires edit == Edit({}, [], 0, 2, 0)
    ensures Build(EMPTY, [edit]) == EMPTY && ManifestInv([edit], EMPTY, 0, 0, 0, 2)
  {
    hide Legit, ManifestNumbers, Build, Replayable, ApplyEdit, TidyLevels;
    NothingDescribed();
    EmptyLegit([], EMPTY, edit, 2);
    Committed([], EMPTY, edit, 0, 2);
    assert [] + [edit] == [edit];
    EmptyTidy();
    NothingChanges(EMPTY, edit);
    hide VersionBelow;
    DescribedBelow([edit], EMPTY, 2);
  }

  /** A version without files holds the empty history. */
  lemma NoTables(v: Version)
    requires |v| == NUM_LEVELS && forall l :: 0 <= l < |v| ==> v[l] == []
    ensures TableInv(v, [], 0, 0) && AllPresent(map[], v)
  {
    assert Good(v);
    hide Good;
    assert VersionEntries(v) == {};
    WholeHistoryAgrees([]);
    EmptyRange([], 0, 0);
  }

  lemma WriteStepKeeps(s: State, s': State, step: Step)
    requires Inv(s) && WriteStep(s, s', step)
    ensures Inv(s')
  {
    hide UpInv;
    match step
    case StepEnqueue(w) => EnqueueKeeps(s, s', w);
    case StepLeadEmpty => LeadEmptyKeeps(s, s');
    case StepSwitch => SwitchMemTableKeeps(s, s');
    case StepGroup(n) => BuildGroupKeeps(s, s', n);
    case StepAppend => AppendGroupKeeps(s, s');
    case StepInsert => InsertOneKeeps(s, s');
    case StepFinish => FinishGroupKeeps(s, s');
  }

  lemma BackgroundStepKeeps(s: State, s': State, step: Step)
    requires Inv(s) && BackgroundStep(s, s', step)
    ensures Inv(s')
  {
    hide UpInv;
    match step
    case StepBuildTable(size) => BuildTableKeeps(s, s', size);
    case StepCommitFlush(level) => CommitFlushKeeps(s, s', level);
    case StepCommitEmptyFlush => CommitEmptyFlushKeeps(s, s');
    case StepStartJob(level, in0, in1, input) => StartJobKeeps(s, s', level, in0, in1, input);
    case StepOpenOutput => OpenOutputKeeps(s, s');
    case StepOutput(o) => WriteOutputKeeps(s, s', o);
    case StepCommitJob => CommitJobKeeps(s, s');
    case StepMove(level, f) => CommitMoveKeeps(s, s', level, f);
    case StepInstall => InstallKeeps(s, s');
    case StepDeleteTable(n) => DeleteTableKeeps(s, s', n);
    case StepDeleteLog(i) => DeleteLogKeeps(s, s', i);
  }

  lemma ReadStepKeeps(s: State, s': State, step: Step)
    requires Inv(s) && ReadStep(s, s', step)
    ensures Inv(s')
  {
    hide UpInv;
    match step
    case StepSnapshot => TakeSnapshotKeeps(s, s');
    case StepRelease(i) => ReleaseSnapshotKeeps(s, s', i);
    case StepBeginRead(snapshot) => BeginReadKeeps(s, s', snapshot);
    case StepEndRead(i) => EndReadKeeps(s, s', i);
  }

  lemma CrashStepKeeps(s: State, s': State, step: Step)
    requires Inv(s) && CrashStep(s, s', step)
    ensures Inv(s')
  {
    hide UpInv, DownInv;
    match step
    case StepCrash => CrashKeeps(s, s');
    case StepFailedReopen(n, es) => FailedReopenKeeps(s, s', n, es);
    case StepReopen(news, starts, log) => ReopenKeeps(s, s', news, starts, log);
  }

  /** Every step of every kind keeps the invariant. */
  lemma StepKeeps(s: State, s': State, step: Step)
    requires Inv(s) && Does(s, s', step)
    ensures Inv(s')
  {
    hide Inv, WriteStep, BackgroundStep, ReadStep, CrashStep;
    if WriteStep(s, s', step) {
      WriteStepKeeps(s, s', step);
    } else if BackgroundStep(s, s', step) {
      BackgroundStepKeeps(s, s', step);
    } else if ReadStep(s, s', step) {
      ReadStepKeeps(s, s', step);
    } else {
      CrashStepKeeps(s, s', step);
    }
  }

  ghost predicate IsRun(run: seq<State>, steps: seq<Step>) {
    && |run| == |steps| + 1 && Init(run[0])
    && forall i :: 0 <= i < |steps| ==> Does(run[i], run[i + 1], steps[i])
  }

  /** Safety over whole runs. */
  lemma {:induction false} RunKeepsInv(run: seq<State>, steps: seq<Step>, i: nat)
    requires IsRun(run, steps) && i < |run|
    ensures Inv(run[i])
  {
    hide Inv, Does, Init;
    if i == 0 {
      InitHolds(run[0]);
    } else {
      RunKeepsInv(run, steps, i - 1);
      StepKeeps(run[i - 1], run[i], steps[i - 1]);
    }
  }

  // ----- Reads

  /** A read of the store at the latest or at a registered snapshot returns what the plain map held
      after that many operations. */
  method Read(s: State, k: int, snapshot: nat) returns (r: Option<string>)
    requires s.Up? && Inv(s) && Readable(s, snapshot)
    ensures snapshot <= |s.h.ops| && r == Get(AsOf(s.h.ops, snapshot), k)
  {
    hide MemInv, LogInv, TableInv, ManifestInv, NewNumbers, AllPresent, VersionBelow, FlushInv, JobInv, ChangeInv;
    hide SharedInv, ReadersInv, ApplyEdit, GroupInv;
    hide Searchable, Lookup, Live, AsOf;
    LiveServes(s.mem, s.imm, s.current, s.h);
    LiveSearchable(s.mem, s.imm, s.current, s.h);
    r := DbGet(s.mem, s.imm, s.current, k, snapshot);
  }

  /** A reader that took hold of memtables and version at some earlier moment still reads its snapshot
      exactly, whatever was written, flushed, compacted or deleted since, and finds its tables on disk. */
  method ReadLater(s: State, i: nat, k: int) returns (r: Option<string>)
    requires s.Up? && Inv(s) && i < |s.readers|
    ensures s.readers[i].snapshot <= |s.h.ops| && r == Get(AsOf(s.h.ops, s.readers[i].snapshot), k)
    ensures AllPresent(s.disk.tables, s.readers[i].version)
  {
    hide MemInv, LogInv, TableInv, ManifestInv, NewNumbers, AllPresent, VersionBelow, FlushInv, JobInv, ChangeInv;
    hide SharedInv, ApplyEdit, GroupInv;
    hide Searchable, Lookup, Live, AsOf;
    assert ReaderInv(s.readers[i], s.h.ops, s.disk.tables, s.nextFile);
    r := DbGet(s.readers[i].mem, s.readers[i].imm, s.readers[i].version, k, s.readers[i].snapshot);
  }

  /** An iterator over the merged memtables and tables of the store walks exactly the plain map of its
      snapshot. */
  lemma IteratorSeesSnapshot(s: State, i: nat, es: seq<Entry>)
    requires s.Up? && Inv(s) && i < |s.readers| && Sorted(es)
    requires Members(es) == Live(s.readers[i].mem, s.readers[i].imm, s.readers[i].version)
    ensures Run(es) && s.readers[i].snapshot <= |s.h.ops|
    ensures View(es, s.readers[i].snapshot) == AsOf(s.h.ops, s.readers[i].snapshot)
  {
    hide MemInv, LogInv, TableInv, ManifestInv, NewNumbers, AllPresent, VersionBelow, FlushInv, JobInv, ChangeInv;
    hide SharedInv, ApplyEdit, GroupInv;
    hide Lookup, Live, AsOf, View, ValidVersion, AllNewer;
    var r := s.readers[i];
    assert ReaderInv(r, s.h.ops, s.disk.tables, s.nextFile);
    var m, n := View(es, r.snapshot), AsOf(s.h.ops, r.snapshot);
    forall k
      ensures k in m <==> k in n
      ensures k in m ==> m[k] == n[k]
    {
      assert Lookup(Members(es), k, r.snapshot) == Get(n, k);
    }
  }

  // ----- Crash safety

  /** What recovery would find on disk now: the tables of the manifest and the logs it still needs. */
  ghost function OnDisk(disk: Disk): set<Entry>
    requires disk.manifest != []
  {
    VersionEntries(Build(EMPTY, disk.manifest)) +
        Members(LogEntries(disk.logs, disk.manifest[|disk.manifest| - 1].logNumber))
  }

  /** Manifest tables plus the replay of the needed logs serve the same reads as the memtables plus the
      current version, for every published snapshot from the durable floor on. */
  lemma DiskAgreesWithMemory(s: State, k: int, snapshot: nat)
    requires s.Up? && Inv(s) && DurableFloor(s) <= snapshot <= s.lastSequence
    ensures s.disk.manifest != []
    ensures Lookup(OnDisk(s.disk), k, snapshot) == Lookup(Live(s.mem, s.imm, s.current), k, snapshot)
  {
    hide MemInv, TableInv, AllPresent, VersionBelow, FlushInv, JobInv, ChangeInv, SnapshotInv, SharedInv, ReadersInv;
    hide ApplyEdit, GroupInv, NewNumbers;
    hide Lookup, Live, AsOf, Build, Replayable, ManifestNumbers, Range, LogEntries;
    DurableAlways(s);
    LiveServes(s.mem, s.imm, s.current, s.h);
    DurableServes(DurableVersion(s), s.h.ops, DurableFloor(s), DurableFlushed(s),
        LogEntries(s.disk.logs, DurableLog(s)));
  }

  lemma DurableServes(v: Version, ops: seq<Op>, floor: nat, flushed: nat, replay: seq<Entry>)
    requires TableInv(v, ops, floor, flushed) && replay == Range(ops, flushed, |ops|)
    ensures Agrees(VersionEntries(v) + Members(replay), ops, floor, |ops|)
  {
    hide Good, Agrees;
    RangeIsSpan(ops, flushed, |ops|);
    AgreesRange(VersionEntries(v), ops, floor, flushed, |ops|);
  }

  /** Every table of the current version and of the manifest is on disk, and so is every log that
      recovery needs to bring back the rest of the history. */
  lemma NothingNeededIsDeleted(s: State)
    requires s.Up? && Inv(s)
    ensures s.disk.manifest != [] && AllPresent(s.disk.tables, s.current)
    ensures AllPresent(s.disk.tables, Build(EMPTY, s.disk.manifest))
    ensures Replays(s.disk.logs, s.disk.manifest[|s.disk.manifest| - 1].logNumber, s.h.ops, DurableFlushed(s))
  {
    hide MemInv, TableInv, AllPresent, VersionBelow, FlushInv, JobInv, ChangeInv, SnapshotInv, SharedInv, ReadersInv;
    hide ApplyEdit, GroupInv, NewNumbers;
    hide Build, Replayable, ManifestNumbers, Range, LogEntries;
    DurableAlways(s);
  }

  // ----- Writers

  /** Nothing once logged is ever lost, and the writers that are done stay done, in their order. */
  ghost predicate Remembers(s: State, s': State) {
    && s.h.ops <= s'.h.ops
    && s.q.finished <= s'.q.finished <= |s'.q.arrived|
    && s.q.finished <= |s.q.arrived| && s.q.arrived[..s.q.finished] <= s'.q.arrived
  }

  lemma WriteStepRemembers(s: State, s': State, step: Step)
    requires s.q.finished <= |s.q.arrived|
    requires (s.Up? ==> GroupSize(s.phase) <= |s.writers| == |s.q.arrived| - s.q.finished) && WriteStep(s, s', step)
    ensures Remembers(s, s')
  {
    hide Selection, MergedInput, Connected, NextLevelClosed, LiveNumber, PiecesOf, RisingNumbers, Fits, JobEdit;
    hide JobKept, Flatten, IsGroup, InstallEdit, Build, MaxSequence;
  }

  lemma BackgroundStepRemembers(s: State, s': State, step: Step)
    requires s.q.finished <= |s.q.arrived|
    requires (s.Up? ==> GroupSize(s.phase) <= |s.writers| == |s.q.arrived| - s.q.finished)
    requires BackgroundStep(s, s', step)
    ensures Remembers(s, s')
  {
    hide Selection, MergedInput, Connected, NextLevelClosed, LiveNumber, PiecesOf, RisingNumbers, Fits, JobEdit;
    hide JobKept, Flatten, IsGroup, InstallEdit, Build, MaxSequence;
  }

  lemma ReadStepRemembers(s: State, s': State, step: Step)
    requires s.q.finished <= |s.q.arrived|
    requires (s.Up? ==> GroupSize(s.phase) <= |s.writers| == |s.q.arrived| - s.q.finished) && ReadStep(s, s', step)
    ensures Remembers(s, s')
  {
    hide Selection, MergedInput, Connected, NextLevelClosed, LiveNumber, PiecesOf, RisingNumbers, Fits, JobEdit;
    hide JobKept, Flatten, IsGroup, InstallEdit, Build, MaxSequence;
  }

  lemma CrashStepRemembers(s: State, s': State, step: Step)
    requires s.q.finished <= |s.q.arrived|
    requires (s.Up? ==> GroupSize(s.phase) <= |s.writers| == |s.q.arrived| - s.q.finished) && CrashStep(s, s', step)
    ensures Remembers(s, s')
  {
    hide Selection, MergedInput, Connected, NextLevelClosed, LiveNumber, PiecesOf, RisingNumbers, Fits, JobEdit;
    hide JobKept, Flatten, IsGroup, InstallEdit, Build, MaxSequence;
  }

  lemma StepRemembers(s: State, s': State, step: Step)
    requires Inv(s) && Does(s, s', step)
    ensures Remembers(s, s')
  {
    hide WriteStep, BackgroundStep, ReadStep, CrashStep, Remembers, Inv;
    QueueShape(s);
    if WriteStep(s, s', step) {
      WriteStepRemembers(s, s', step);
    } else if BackgroundStep(s, s', step) {
      BackgroundStepRemembers(s, s', step);
    } else if ReadStep(s, s', step) {
      ReadStepRemembers(s, s', step);
    } else {
      CrashStepRemembers(s, s', step);
    }
  }

  lemma {:induction false} RunRemembers(run: seq<State>, steps: seq<Step>, i: nat, j: nat)
    requires IsRun(run, steps) && i <= j < |run|
    ensures Remembers(run[i], run[j])
  {
    hide Inv, Does, Init;
    if i == j {
      RunKeepsInv(run, steps, i);
      QueueShape(run[i]);
    } else {
      RunRemembers(run, steps, i, j - 1);
      RunKeepsInv(run, steps, j - 1);
      StepRemembers(run[j - 1], run[j], steps[j - 1]);
    }
  }

  /** Writers whose batches are in the history: those that are done, and the group in the log. */
  function InHistory(s: State): nat {
    s.q.finished + (if s.Up? then LoggedSize(s.phase) else 0)
  }

  lemma QueueShape(s: State)
    requires Inv(s)
    ensures s.q.finished <= |s.q.arrived|
    ensures s.Up? ==> GroupSize(s.phase) <= |s.writers| == |s.q.arrived| - s.q.finished
    ensures InHistory(s) <= |s.q.arrived| && s.h.ops == Ops(s.q.arrived[..InHistory(s)])
  {
    Seqs.WholeSlice(s.q.arrived);
    hide Counters, MemInv, LogInv, TableInv, ManifestInv, AllPresent, VersionBelow, FlushInv, JobInv, ChangeInv;
    hide SnapshotInv, SharedInv, ReadersInv, ApplyEdit, NewNumbers;
  }

  /** Each finished writer's batch occupies its own range of sequence numbers: ranges are contiguous and
      in queue order, and every batch is in the history exactly once. */
  lemma BatchRanges(s: State, i: nat)
    requires Inv(s) && i < s.q.finished && s.q.finished <= |s.q.arrived|
    ensures var before, after := |Ops(s.q.arrived[..i])|, |Ops(s.q.arrived[..i + 1])|;
            && before <= after <= |s.h.ops|
            && s.h.ops[before..after] == (if s.q.arrived[i].batch.Some? then s.q.arrived[i].batch.value else [])
  {
    hide Inv, Ops;
    QueueShape(s);
    OpsAt(s.q.arrived, i, InHistory(s));
  }

  lemma OpsAt(ws: seq<Writer>, i: nat, n: nat)
    requires i < n <= |ws|
    ensures var before, after := |Ops(ws[..i])|, |Ops(ws[..i + 1])|;
            && before <= after <= |Ops(ws[..n])|
            && Ops(ws[..n])[before..after] == (if ws[i].batch.Some? then ws[i].batch.value else [])
  {
    hide Ops;
    assert ws[..i + 1] == ws[..i] + [ws[i]];
    OpsConcat(ws[..i], [ws[i]]);
    OpsOne(ws[i]);
    assert ws[..n] == ws[..i + 1] + ws[i + 1..n];
    OpsConcat(ws[..i + 1], ws[i + 1..n]);
  }

  lemma OpsOne(w: Writer)
    ensures Ops([w]) == if w.batch.Some? then w.batch.value else []
  {
    assert [w][..0] == [] && Ops([]) == [];
  }
}
