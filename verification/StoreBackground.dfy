/** The background thread up to the manifest: tables are built, changes are committed, obsolete files
    are deleted. Each step keeps the store's invariant. */
module StoreBackground {
  import opened Keys
  import opened Versions
  import opened Inputs
  import opened VersionBuilder
  import opened Compaction
  import opened Levels
  import opened Store
  import opened StoreWrites
  import opened StoreManifest

  // ----- A new table on disk disturbs nothing

  lemma PresentMore(tables: map<nat, seq<Entry>>, v: Version, n: nat, es: seq<Entry>)
    requires AllPresent(tables, v) && VersionBelow(v, n)
    ensures AllPresent(tables[n := es], v)
  {
    forall l, f | 0 <= l < |v| && f in v[l]
      ensures Present(tables[n := es], f)
    {
      assert f.number < n && Present(tables, f);
    }
  }

  lemma ReadersMoreTables(readers: seq<Reader>, ops: seq<Op>, tables: map<nat, seq<Entry>>, nextFile: nat,
                          es: seq<Entry>)
    requires ReadersInv(readers, ops, tables, nextFile)
    ensures ReadersInv(readers, ops, tables[nextFile := es], nextFile + 1)
  {
    hide Lookup, Live, Searchable, AllPresent, VersionBelow;
    forall i | 0 <= i < |readers|
      ensures ReaderInv(readers[i], ops, tables[nextFile := es], nextFile + 1)
    {
      assert ReaderInv(readers[i], ops, tables, nextFile);
      PresentMore(tables, readers[i].version, nextFile, es);
      BelowMore(readers[i].version, nextFile, nextFile + 1);
    }
  }

  lemma JobMoreTables(job: Option<Job>, v: Version, tables: map<nat, seq<Entry>>, nextFile: nat, lastSequence: nat,
                      snapshots: seq<nat>, es: seq<Entry>)
    requires JobInv(job, v, tables, nextFile, lastSequence, snapshots)
    ensures JobInv(job, v, tables[nextFile := es], nextFile + 1, lastSequence, snapshots)
  {
    hide Pending, Connected, MergedInput, AllPresent, VersionBelow, Kept, Flatten, EntriesOf, ValidFile, NumbersApart;
    if job.Some? {
      PresentMore(tables, job.value.from, nextFile, es);
      BelowMore(job.value.from, nextFile, nextFile + 1);
    }
  }

  // ----- Building tables

  lemma BuildTableKeeps(s: State, s': State, size: nat)
    requires s.Up? && UpInv(s) && BuildTable(s, s', size)
    ensures UpInv(s')
  {
    hide MemInv, LogInv, TableInv, ManifestInv, NewNumbers, AllPresent, VersionBelow, FlushInv, JobInv, ChangeInv;
    hide SnapshotInv, SharedInv, ReadersInv, ApplyEdit;
    hide GroupInv;
    var f, es := s'.flushing.value, s.imm.value;
    PresentMore(s.disk.tables, s.current, s.nextFile, es);
    BelowMore(s.current, s.nextFile, s.nextFile + 1);
    ReadersMoreTables(s.readers, s.h.ops, s.disk.tables, s.nextFile, es);
    JobMoreTables(s.job, s.current, s.disk.tables, s.nextFile, s.lastSequence, s.snapshots, es);
    ManifestMoreFiles(s.disk.manifest, DurableVersion(s), DurableLog(s), DurableFlushed(s), |s.h.ops|, s.nextFile,
        s.nextFile + 1);
    BuiltNumbers(s.disk.manifest, s.current, s.logNumber, s.h.flushed, |s.h.ops|, s.nextFile, f, s.job, s.disk.tables,
        s.lastSequence, s.snapshots);
    BuiltTable(s.mem, s.imm, s.h.ops, s.h.flushed, s.h.frozen, s.h.applied, s.current, s.disk.tables, s.nextFile, f);
    MoreFilesInLogs(s.disk.logs, s.logNumber, s.logfile, s.nextFile, s.h.ops, s.h.flushed, s.h.frozen);
  }

  lemma MoreFilesInLogs(logs: seq<LogFile>, logNumber: nat, logfile: nat, nextFile: nat, ops: seq<Op>, flushed: nat,
                        frozen: nat)
    requires LogInv(logs, logNumber, logfile, nextFile, ops, flushed, frozen)
    ensures LogInv(logs, logNumber, logfile, nextFile + 1, ops, flushed, frozen)
  {
    hide Replays;
  }

  lemma BuiltTable(mem: seq<Entry>, imm: Option<seq<Entry>>, ops: seq<Op>, flushed: nat, frozen: nat, applied: nat,
                   v: Version, tables: map<nat, seq<Entry>>, nextFile: nat, f: File)
    requires MemInv(mem, imm, ops, flushed, frozen, applied) && |ops| <= MAX_SEQUENCE && VersionBelow(v, nextFile)
    requires imm.Some? && imm.value != [] && f.number == nextFile && f.entries == imm.value
    requires f.smallest == f.entries[0].key && f.largest == f.entries[|f.entries| - 1].key
    ensures FlushInv(Some(f), imm, v, tables[nextFile := f.entries], nextFile + 1)
  {
    forall i | 0 <= i < |f.entries|
      ensures f.entries[i].key.sn <= MAX_SEQUENCE
    {
      assert f.entries[i] in Members(imm.value);
    }
  }

  /** A number just taken from the counter is in no manifest record. */
  lemma NextIsUnused(manifest: seq<Edit>, v: Version, logNumber: nat, flushed: nat, ops: nat, nextFile: nat, f: File)
    requires ManifestInv(manifest, v, logNumber, flushed, ops, nextFile) && f.number == nextFile
    ensures Unused([f], manifest)
  {
    assert |v| == |EMPTY|;
    hide Replayable, Build, VersionBelow;
  }

  lemma BuiltNumbers(manifest: seq<Edit>, v: Version, logNumber: nat, flushed: nat, ops: nat, nextFile: nat, f: File,
                     job: Option<Job>, tables: map<nat, seq<Entry>>, lastSequence: nat, snapshots: seq<nat>)
    requires ManifestInv(manifest, v, logNumber, flushed, ops, nextFile) && f.number == nextFile
    requires JobInv(job, v, tables, nextFile, lastSequence, snapshots) && NewNumbers(manifest, None, None, job)
    ensures NewNumbers(manifest, Some(f), None, job)
  {
    NextIsUnused(manifest, v, logNumber, flushed, ops, nextFile, f);
    hide ManifestInv, Unused, Pending, Connected, MergedInput, AllPresent, VersionBelow, Kept, Flatten, EntriesOf;
    hide ValidFile, NumbersApart;
  }

  // ----- Compactions: start and output

  lemma StartJobKeeps(s: State, s': State, level: nat, in0: seq<File>, in1: seq<File>, input: seq<Entry>)
    requires s.Up? && UpInv(s) && StartJob(s, s', level, in0, in1, input)
    ensures UpInv(s')
  {
    hide MemInv, LogInv, TableInv, ManifestInv, NewNumbers, AllPresent, VersionBelow, FlushInv, JobInv, ChangeInv;
    hide SnapshotInv, SharedInv, ReadersInv, ApplyEdit;
    hide GroupInv;
    StartPending(s.current, s.h.ops, s.h.floor, s.h.flushed, level, in0, in1);
    CurrentValid(s.current, s.h.ops, s.h.floor, s.h.flushed);
    StartedJob(s'.job.value, s.current, s.disk.tables, s.nextFile, s.h.floor, s.lastSequence, s.snapshots);
    StartedNumbers(s.disk.manifest, s'.job);
  }

  /** The sequence number up to which a compaction may drop is the least that a snapshot, or a new read, sees. */
  lemma OldestIsLeast(snapshots: seq<nat>, floor: nat, lastSequence: nat)
    requires SnapshotInv(snapshots, floor, lastSequence)
    ensures var oldest := OldestSnapshot(snapshots, lastSequence);
            && oldest <= lastSequence && (forall i :: 0 <= i < |snapshots| ==> oldest <= snapshots[i])
            && (oldest == lastSequence || oldest in snapshots)
  {
  }

  lemma StartedNumbers(manifest: seq<Edit>, job: Option<Job>)
    requires job.Some? && job.value.outputs == [] && job.value.open.None?
    ensures NewNumbers(manifest, None, None, job)
  {
  }

  lemma StartPending(v: Version, ops: seq<Op>, floor: nat, flushed: nat, level: nat, in0: seq<File>, in1: seq<File>)
    requires TableInv(v, ops, floor, flushed) && Selection(v, level, in0, in1) && NextLevelClosed(v, level, in0, in1)
    ensures Pending(v, v, level, in0, in1)
  {
    hide Selection, NextLevelClosed, Installable, Agrees;
    GoodIsValid(v);
    SelectionIsInstallable(v, level, in0, in1);
  }

  lemma StartedJob(j: Job, v: Version, tables: map<nat, seq<Entry>>, nextFile: nat, floor: nat, lastSequence: nat,
                   snapshots: seq<nat>)
    requires SnapshotInv(snapshots, floor, lastSequence) && AllPresent(tables, v) && VersionBelow(v, nextFile)
    requires j.from == v && Pending(v, v, j.level, j.in0, j.in1) && Connected(j.in0 + j.in1)
    requires MergedInput(j.input, j.in0, j.in1)
    requires j.outputs == [] && j.open.None? && j.oldest == OldestSnapshot(snapshots, lastSequence) && FilesValid(v)
    ensures JobInv(Some(j), v, tables, nextFile, lastSequence, snapshots)
  {
    hide Pending, Connected, MergedInput, Kept, AllPresent, VersionBelow;
  }

  lemma OpenOutputKeeps(s: State, s': State)
    requires s.Up? && UpInv(s) && OpenOutput(s, s')
    ensures UpInv(s')
  {
    hide MemInv, LogInv, TableInv, ManifestInv, NewNumbers, AllPresent, VersionBelow, JobInv, ChangeInv, SnapshotInv;
    hide SharedInv, ReadersInv, ApplyEdit;
    hide GroupInv;
    assert s.job == Some(s.job.value);
    PresentMore(s.disk.tables, s.current, s.nextFile, []);
    BelowMore(s.current, s.nextFile, s.nextFile + 1);
    ReadersMoreTables(s.readers, s.h.ops, s.disk.tables, s.nextFile, []);
    JobMoreTables(s.job, s.current, s.disk.tables, s.nextFile, s.lastSequence, s.snapshots, []);
    OutputOpened(s.job.value, s.current, s'.disk.tables, s'.nextFile, s.lastSequence, s.snapshots);
    ManifestMoreFiles(s.disk.manifest, DurableVersion(s), DurableLog(s), DurableFlushed(s), |s.h.ops|, s.nextFile,
        s.nextFile + 1);
    OpenedNumber(s.disk.manifest, s.current, s.logNumber, s.h.flushed, |s.h.ops|, s.nextFile, s.job.value);
    MoreFilesInLogs(s.disk.logs, s.logNumber, s.logfile, s.nextFile, s.h.ops, s.h.flushed, s.h.frozen);
  }

  lemma OutputOpened(j: Job, v: Version, tables: map<nat, seq<Entry>>, nextFile: nat, lastSequence: nat,
                     snapshots: seq<nat>)
    requires JobInv(Some(j), v, tables, nextFile, lastSequence, snapshots)
    requires nextFile > 0 && nextFile - 1 in tables && tables[nextFile - 1] == []
    ensures JobInv(Some(j.(open := Some(nextFile - 1))), v, tables, nextFile, lastSequence, snapshots)
  {
    hide Pending, Connected, MergedInput, Kept, AllPresent, VersionBelow, OutputsInv, FilesValid;
  }

  lemma OpenedNumber(manifest: seq<Edit>, v: Version, logNumber: nat, flushed: nat, ops: nat, nextFile: nat, j: Job)
    requires ManifestInv(manifest, v, logNumber, flushed, ops, nextFile) && NewNumbers(manifest, None, None, Some(j))
    ensures NewNumbers(manifest, None, None, Some(j.(open := Some(nextFile))))
  {
    assert |v| == |EMPTY|;
    hide Replayable, Build, VersionBelow;
  }

  /** A table without contents belongs to no version, so writing it disturbs none. */
  lemma PresentFilled(tables: map<nat, seq<Entry>>, v: Version, n: nat, es: seq<Entry>)
    requires AllPresent(tables, v) && FilesValid(v) && n in tables && tables[n] == []
    ensures AllPresent(tables[n := es], v) && forall l, f :: 0 <= l < |v| && f in v[l] ==> f.number != n
  {
    forall l, f | 0 <= l < |v| && f in v[l]
      ensures Present(tables[n := es], f) && f.number != n
    {
      assert ValidFile(f) && Present(tables, f);
    }
  }

  lemma ReadersFilled(readers: seq<Reader>, ops: seq<Op>, tables: map<nat, seq<Entry>>, nextFile: nat, n: nat,
                      es: seq<Entry>)
    requires ReadersInv(readers, ops, tables, nextFile) && n in tables && tables[n] == []
    ensures ReadersInv(readers, ops, tables[n := es], nextFile)
  {
    hide Lookup, Live, AllPresent, VersionBelow, FilesValid;
    forall i | 0 <= i < |readers|
      ensures ReaderInv(readers[i], ops, tables[n := es], nextFile)
    {
      assert ReaderInv(readers[i], ops, tables, nextFile);
      PresentFilled(tables, readers[i].version, n, es);
    }
  }

  lemma WriteOutputKeeps(s: State, s': State, o: File)
    requires s.Up? && UpInv(s) && WriteOutput(s, s', o)
    ensures UpInv(s')
  {
    hide MemInv, LogInv, TableInv, ManifestInv, NewNumbers, AllPresent, VersionBelow, JobInv, ChangeInv, SnapshotInv;
    hide SharedInv, ReadersInv, ApplyEdit;
    hide GroupInv;
    assert s.job == Some(s.job.value);
    OpenIsEmpty(s.job.value, s.current, s.disk.tables, s.nextFile, s.lastSequence, s.snapshots);
    CurrentValid(s.current, s.h.ops, s.h.floor, s.h.flushed);
    PresentFilled(s.disk.tables, s.current, o.number, o.entries);
    ReadersFilled(s.readers, s.h.ops, s.disk.tables, s.nextFile, o.number, o.entries);
    MoreOutput(s.job.value, s.current, s.disk.tables, s.nextFile, s.lastSequence, s.snapshots, o);
    OutputNumbers(s.disk.manifest, o, s.job.value);
  }

  lemma OpenIsEmpty(j: Job, v: Version, tables: map<nat, seq<Entry>>, nextFile: nat, lastSequence: nat,
                    snapshots: seq<nat>)
    requires JobInv(Some(j), v, tables, nextFile, lastSequence, snapshots) && j.open.Some?
    ensures j.open.value < nextFile && j.open.value in tables && tables[j.open.value] == []
  {
    hide Pending, Connected, MergedInput, Kept, AllPresent, VersionBelow, OutputsInv, FilesValid;
  }

  lemma CurrentValid(v: Version, ops: seq<Op>, floor: nat, flushed: nat)
    requires TableInv(v, ops, floor, flushed)
    ensures FilesValid(v)
  {
    hide Agrees, FromHistory;
  }

  lemma OutputNumbers(manifest: seq<Edit>, o: File, j: Job)
    requires j.open == Some(o.number) && NewNumbers(manifest, None, None, Some(j))
    ensures NewNumbers(manifest, None, None, Some(j.(outputs := j.outputs + [o], open := None)))
  {
  }

  lemma MoreOutput(j: Job, v: Version, tables: map<nat, seq<Entry>>, nextFile: nat, lastSequence: nat,
                   snapshots: seq<nat>, o: File)
    requires JobInv(Some(j), v, tables, nextFile, lastSequence, snapshots) && AllPresent(tables, v) && FilesValid(v)
    requires ValidFile(o) && j.open == Some(o.number) && Flatten(EntriesOf(j.outputs + [o])) <= JobKept(j)
    ensures JobInv(Some(j.(outputs := j.outputs + [o], open := None)), v, tables[o.number := o.entries], nextFile,
              lastSequence, snapshots)
  {
    hide Pending, Connected, MergedInput, Kept, AllPresent, VersionBelow, OutputsInv, FilesValid;
    PresentFilled(tables, j.from, o.number, o.entries);
    PresentFilled(tables, v, o.number, o.entries);
    OutputsGrow(j.outputs, JobKept(j), v, tables, nextFile, o);
  }

  lemma OutputsGrow(outputs: seq<File>, kept: seq<Entry>, v: Version, tables: map<nat, seq<Entry>>, nextFile: nat,
                    o: File)
    requires OutputsInv(outputs, kept, v, tables, nextFile)
    requires forall l, f :: 0 <= l < |v| && f in v[l] ==> f.number != o.number
    requires o.number < nextFile && o.number in tables && tables[o.number] == []
    requires ValidFile(o) && Flatten(EntriesOf(outputs + [o])) <= kept
    ensures OutputsInv(outputs + [o], kept, v, tables[o.number := o.entries], nextFile)
  {
    forall f | f in outputs
      ensures f.number != o.number
    {
      assert ValidFile(f) && Present(tables, f);
    }
    hide ValidFile, Flatten, EntriesOf;
  }

  // ----- Committing a change to the manifest

  lemma FlushLegitAt(manifest: seq<Edit>, v: Version, f: File, level: nat, edit: Edit, n: nat, l: nat)
    requires l < |v| == |EMPTY| && f.number < n && VersionBelow(v, f.number) && Unused([f], manifest)
    requires forall m: nat :: AddedAt(edit, m) == if m == level then [f] else []
    ensures LegitAt(manifest, v, edit, n, l)
  {
    hide AddedAt, AddedAfter, DeletedAt;
    if l == level {
      assert AddedAt(edit, l) == [f] && f in [f];
      assert forall m: nat :: m < l ==> AddedAt(edit, m) == [];
    } else {
      assert AddedAt(edit, l) == [];
    }
  }

  lemma FlushLegit(manifest: seq<Edit>, v: Version, f: File, level: nat, edit: Edit, n: nat)
    requires edit.added == [(level, f)] && Unused([f], manifest) && f.number < n && VersionBelow(v, f.number)
    requires |v| == |EMPTY|
    ensures Legit(manifest, v, edit, n)
  {
    forall m: nat
      ensures AddedAt(edit, m) == if m == level then [f] else []
    {
      OneAdded(f, level, edit, m);
    }
    hide AddedAt, AddedAfter, DeletedAt;
    assert f in [f];
    forall l | 0 <= l < |v|
      ensures LegitAt(manifest, v, edit, n, l)
    {
      FlushLegitAt(manifest, v, f, level, edit, n, l);
    }
  }

  lemma {:induction false} InstallLegit(manifest: seq<Edit>, v: Version, level: nat, in0: seq<File>, in1: seq<File>,
                                        outs: seq<File>, edit: Edit, n: nat)
    requires edit == InstallEdit(level, in0, in1, outs, edit.logNumber, edit.nextFile, edit.lastSequence)
    requires DistinctNumbers(outs) && forall f :: f in outs ==> f.number < n
    requires forall f, m, g :: f in outs && level < m < |v| && g in AddedAfter(manifest, m) ==> f.number != g.number
    requires forall f, m, g :: f in outs && 0 <= m < |v| && g in v[m] && !(m == level && g in in0) ==>
               f.number != g.number
    ensures Legit(manifest, v, edit, n)
  {
    forall m: nat
      ensures AddedAt(edit, m) == if m == level + 1 then outs else []
      ensures m == level ==> DeletedAt(edit, m) == Numbers(in0)
    {
      InstallEditParts(level, in0, in1, outs, edit, m);
    }
    hide AddedAt, AddedAfter, DeletedAt, InstallEdit;
    forall l | 0 <= l < |v|
      ensures LegitAt(manifest, v, edit, n, l)
    {
    }
  }

  lemma CommitFlushKeeps(s: State, s': State, level: nat)
    requires s.Up? && UpInv(s) && CommitFlush(s, s', level)
    ensures UpInv(s')
  {
    hide MemInv, LogInv, TableInv, ManifestInv, AllPresent, VersionBelow, JobInv, SnapshotInv, SharedInv, ReadersInv;
    hide ApplyEdit;
    hide GroupInv, Fits, Unused, Present, ValidFile, Legit;
    var c := s'.installing.value;
    ManifestShape(s.disk.manifest, s.current, s.logNumber, s.h.flushed, |s.h.ops|, s.nextFile);
    FlushLegit(s.disk.manifest, s.current, c.f, level, c.edit, s.nextFile);
    ManifestCommitted(s.disk.manifest, s.current, c.edit, s.logNumber, s.h.flushed, s.h.frozen, |s.h.ops|, s.nextFile);
    if s.job.Some? {
      StillUnused(s.job.value.outputs, s.disk.manifest, c.edit, c.f, level);
      StillOpen(s.job.value, s.current, s.disk.tables, s.nextFile, s.lastSequence, s.snapshots, s.imm, s.disk.manifest,
          c.edit, c.f, level);
    }
  }

  lemma ManifestShape(manifest: seq<Edit>, v: Version, logNumber: nat, flushed: nat, ops: nat, nextFile: nat)
    requires ManifestInv(manifest, v, logNumber, flushed, ops, nextFile)
    ensures |v| == |EMPTY|
  {
  }

  lemma StillUnused(outputs: seq<File>, manifest: seq<Edit>, edit: Edit, f: File, level: nat)
    requires Unused(outputs, manifest) && edit.added == [(level, f)]
    requires forall o :: o in outputs ==> o.number != f.number
    ensures Unused(outputs, manifest + [edit])
  {
    hide AddedAfter, AddedAt;
    forall l, o, g | o in outputs && 0 <= l < |EMPTY| && g in AddedAfter(manifest + [edit], l)
      ensures o.number != g.number
    {
      AddedAfterOneMore(manifest, edit, l);
      OneAdded(f, level, edit, l);
    }
  }

  /** The flushed table has contents, the output being written has none: their numbers differ. */
  lemma StillOpen(j: Job, v: Version, tables: map<nat, seq<Entry>>, nextFile: nat, lastSequence: nat,
                  snapshots: seq<nat>,
                  imm: Option<seq<Entry>>, manifest: seq<Edit>, edit: Edit, f: File, level: nat)
    requires JobInv(Some(j), v, tables, nextFile, lastSequence, snapshots) && BuiltInv(f, imm, v, tables, nextFile)
    requires NewNumbers(manifest, Some(f), None, Some(j)) && edit.added == [(level, f)]
    ensures j.open.Some? ==> NumberUnused(j.open.value, manifest + [edit])
  {
    if j.open.Some? {
      OpenIsEmpty(j, v, tables, nextFile, lastSequence, snapshots);
      assert f.number != j.open.value;
      hide JobInv, BuiltInv, AddedAfter, AddedAt;
      forall l, g | 0 <= l < |EMPTY| && g in AddedAfter(manifest + [edit], l)
        ensures g.number != j.open.value
      {
        AddedAfterOneMore(manifest, edit, l);
        OneAdded(f, level, edit, l);
      }
    }
  }

  lemma NoNumberAdded(n: nat, manifest: seq<Edit>, edit: Edit)
    requires NumberUnused(n, manifest) && edit.added == []
    ensures NumberUnused(n, manifest + [edit])
  {
    forall l, g | 0 <= l < |EMPTY| && g in AddedAfter(manifest + [edit], l)
      ensures g.number != n
    {
      AddedAfterOneMore(manifest, edit, l);
    }
  }

  lemma CommitEmptyFlushKeeps(s: State, s': State)
    requires s.Up? && UpInv(s) && CommitEmptyFlush(s, s')
    ensures UpInv(s')
  {
    hide MemInv, LogInv, TableInv, ManifestInv, AllPresent, VersionBelow, JobInv, SnapshotInv, SharedInv, ReadersInv;
    hide ApplyEdit;
    hide GroupInv, Unused, Legit;
    var edit := s'.installing.value.edit;
    EmptyLegit(s.disk.manifest, s.current, edit, s.nextFile);
    ManifestCommitted(s.disk.manifest, s.current, edit, s.logNumber, s.h.flushed, s.h.frozen, |s.h.ops|, s.nextFile);
    if s.job.Some? {
      NothingAdded(s.job.value.outputs, s.disk.manifest, edit);
      if s.job.value.open.Some? {
        NoNumberAdded(s.job.value.open.value, s.disk.manifest, edit);
      }
    }
  }

  lemma EmptyLegit(manifest: seq<Edit>, v: Version, edit: Edit, n: nat)
    requires edit.added == []
    ensures Legit(manifest, v, edit, n)
  {
    forall l | 0 <= l < |v|
      ensures LegitAt(manifest, v, edit, n, l)
    {
      assert AddedAt(edit, l) == [];
      hide AddedAt, AddedAfter;
    }
  }

  lemma NothingAdded(outputs: seq<File>, manifest: seq<Edit>, edit: Edit)
    requires Unused(outputs, manifest) && edit.added == []
    ensures Unused(outputs, manifest + [edit])
  {
    forall l, o, g | o in outputs && 0 <= l < |EMPTY| && g in AddedAfter(manifest + [edit], l)
      ensures o.number != g.number
    {
      AddedAfterOneMore(manifest, edit, l);
    }
  }

  lemma CommitJobKeeps(s: State, s': State)
    requires s.Up? && UpInv(s) && CommitJob(s, s')
    ensures UpInv(s')
  {
    hide MemInv, LogInv, TableInv, ManifestInv, AllPresent, VersionBelow, SnapshotInv, SharedInv, ReadersInv, ApplyEdit;
    hide GroupInv, Unused, Legit, Pending, Connected, MergedInput, OutputsInv, Kept, Flatten, EntriesOf;
    var edit, j := s'.installing.value.edit, s.job.value;
    ManifestShape(s.disk.manifest, s.current, s.logNumber, s.h.flushed, |s.h.ops|, s.nextFile);
    OutputsLegit(s.disk.manifest, s.current, j, JobKept(j), s.disk.tables, edit, s.nextFile);
    ManifestCommitted(s.disk.manifest, s.current, edit, s.logNumber, s.h.flushed, s.h.flushed, |s.h.ops|, s.nextFile);
  }

  lemma OutputsLegit(manifest: seq<Edit>, v: Version, j: Job, kept: seq<Entry>, tables: map<nat, seq<Entry>>,
                     edit: Edit, n: nat)
    requires OutputsInv(j.outputs, kept, v, tables, n) && Unused(j.outputs, manifest) && |v| == |EMPTY|
    requires edit == JobEdit(j, edit.logNumber, edit.nextFile, edit.lastSequence)
    ensures Legit(manifest, v, edit, n)
  {
    hide Legit, InstallEdit, ValidFile, Flatten, EntriesOf, Present;
    InstallLegit(manifest, v, j.level, j.in0, j.in1, j.outputs, edit, n);
  }

  lemma CommitMoveKeeps(s: State, s': State, level: nat, f: File)
    requires s.Up? && UpInv(s) && CommitMove(s, s', level, f)
    ensures UpInv(s')
  {
    hide MemInv, LogInv, TableInv, ManifestInv, AllPresent, VersionBelow, JobInv, SnapshotInv, SharedInv, ReadersInv;
    hide ApplyEdit;
    hide GroupInv, Unused, Legit, Selection;
    var edit := s'.installing.value.edit;
    MoveLegit(s.disk.manifest, s.current, s.h, s.logNumber, s.nextFile, level, f, edit);
    ManifestCommitted(s.disk.manifest, s.current, edit, s.logNumber, s.h.flushed, s.h.flushed, |s.h.ops|, s.nextFile);
  }

  lemma MoveLegit(manifest: seq<Edit>, v: Version, h: History, logNumber: nat, nextFile: nat, level: nat, f: File,
                  edit: Edit)
    requires ManifestInv(manifest, v, logNumber, h.flushed, |h.ops|, nextFile) && TableInv(v, h.ops, h.floor, h.flushed)
    requires Selection(v, level, [f], [])
    requires edit == InstallEdit(level, [f], [], [f], edit.logNumber, edit.nextFile, edit.lastSequence)
    requires VersionBelow(v, nextFile)
    ensures Legit(manifest, v, edit, nextFile)
  {
    hide Legit, InstallEdit, Selection, Build, Replayable, FromHistory, Agrees, FilesValid, TidyLevels, DisjointLevels;
    hide NewerByNumber, LevelsOrdered;
    SelectionIsPicked(v, level, [f], []);
    assert f in [f] && f in v[level];
    InstallLegit(manifest, v, level, [f], [], [f], edit, nextFile);
  }

  // ----- Deleting obsolete files

  lemma StaysPresent(tables: map<nat, seq<Entry>>, v: Version, n: nat)
    requires AllPresent(tables, v) && !HasNumber(v, n)
    ensures AllPresent(tables - {n}, v)
  {
    forall l, f | 0 <= l < |v| && f in v[l]
      ensures Present(tables - {n}, f)
    {
      assert f.number != n && Present(tables, f);
    }
  }

  lemma DeleteTableKeeps(s: State, s': State, n: nat)
    requires s.Up? && UpInv(s) && DeleteTable(s, s', n)
    ensures UpInv(s')
  {
    hide MemInv, LogInv, TableInv, ManifestInv, NewNumbers, AllPresent, VersionBelow, SnapshotInv, ApplyEdit;
    hide HasNumber, SharedInv, Searchable;
    hide GroupInv, Pending, Connected, MergedInput, Lookup, Live, Kept, Flatten, EntriesOf, ValidFile, NumbersApart;
    StaysPresent(s.disk.tables, s.current, n);
    forall i | 0 <= i < |s.readers|
      ensures ReaderInv(s.readers[i], s.h.ops, s'.disk.tables, s.nextFile)
    {
      assert ReaderInv(s.readers[i], s.h.ops, s.disk.tables, s.nextFile);
      StaysPresent(s.disk.tables, s.readers[i].version, n);
    }
    if s.job.Some? {
      StaysPresent(s.disk.tables, s.job.value.from, n);
    }
  }

  lemma DeleteLogKeeps(s: State, s': State, i: nat)
    requires s.Up? && UpInv(s) && DeleteLog(s, s', i)
    ensures UpInv(s')
  {
    hide MemInv, TableInv, ManifestInv, NewNumbers, AllPresent, VersionBelow, FlushInv, JobInv, ChangeInv, SnapshotInv;
    hide SharedInv, ReadersInv, ApplyEdit;
    hide GroupInv;
    LogDeleted(s.disk.logs, i, s.logNumber);
    LogDeleted(s.disk.logs, i, s.logfile);
  }

  /** Removing a log below `from` removes nothing a replay from `from` would see. */
  lemma {:induction false} LogDeleted(logs: seq<LogFile>, i: nat, from: nat)
    requires i < |logs| && logs[i].number < from
    ensures LogEntries(logs[..i] + logs[i + 1..], from) == LogEntries(logs, from)
  {
    var n := |logs| - 1;
    var rest := logs[..i] + logs[i + 1..];
    if i == n {
      assert rest == logs[..n];
    } else {
      LogDeleted(logs[..n], i, from);
      assert rest[..|rest| - 1] == logs[..n][..i] + logs[..n][i + 1..];
    }
  }
}
