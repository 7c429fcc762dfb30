/** A committed change becomes the current version: every kind keeps the store's invariant, and the
    version that the manifest describes serves every read the history promises. */
module StoreInstall {
  import opened Keys
  import opened Versions
  import opened Inputs
  import opened VersionBuilder
  import opened Compaction
  import opened Levels
  import opened Store
  import opened StoreWrites
  import opened StoreManifest

  // ----- A flushed memtable

  lemma FlushedIsNewer(v: Version, ops: seq<Op>, floor: nat, flushed: nat, frozen: nat, f: File)
    requires TableInv(v, ops, floor, flushed) && flushed <= frozen <= |ops|
    requires Members(f.entries) == Span(ops, flushed, frozen)
    requires VersionBelow(v, f.number)
    ensures NewerThanAll(v, f)
  {
    hide Good, Agrees, FromHistory;
    forall l, g | 0 <= l < |v| && g in v[l]
      ensures g.number < f.number && FileNewer(f, g)
    {
      forall x, y | x in f.entries && y in g.entries && x.key.user == y.key.user
        ensures x.key.sn > y.key.sn
      {
        assert x in Members(f.entries) && y in VersionEntries(v);
      }
    }
  }

  /** Tables plus the memtable's range of the history serve reads up to its end. */
  lemma FlushServes(v: Version, w: Version, ops: seq<Op>, floor: nat, flushed: nat, frozen: nat, f: File, level: nat)
    requires TableInv(v, ops, floor, flushed) && flushed <= frozen <= |ops|
    requires Members(f.entries) == Span(ops, flushed, frozen)
    requires AddsFile(v, w, f, level) && Good(w)
    ensures TableInv(w, ops, floor, frozen)
  {
    hide Good, Agrees, AddsFile;
    FlushEntries(v, w, f, level);
    AgreesRange(VersionEntries(v), ops, floor, flushed, frozen);
    assert VersionEntries(w) == VersionEntries(v) + Span(ops, flushed, frozen);
  }

  lemma FlushInstalls(v: Version, ops: seq<Op>, floor: nat, flushed: nat, frozen: nat, f: File, level: nat, edit: Edit)
    requires TableInv(v, ops, floor, flushed) && flushed <= frozen <= |ops|
    requires Members(f.entries) == Span(ops, flushed, frozen)
    requires VersionBelow(v, f.number) && ValidFile(f) && Fits(v, f, level) && edit.added == [(level, f)]
    requires edit.deleted == {}
    ensures var w := ApplyEdit(v, edit);
            NewerThanAll(v, f) && AddsFile(v, w, f, level) && TableInv(w, ops, floor, frozen)
  {
    hide Agrees, FromHistory, FilesValid, NumbersUnique, DisjointLevels, NewerByNumber, LevelsOrdered, Tidy, Fits;
    hide ApplyEdit, NewerThanAll, ValidFile;
    FlushIsFresh(v, f, level, edit);
    FlushedIsNewer(v, ops, floor, flushed, frozen, f);
    assert level < |v| by {
      FitsInside(v, f, level);
    }
    FlushAddsFile(v, f, level, edit);
    FlushKeepsGood(v, ApplyEdit(v, edit), f, level);
    FlushServes(v, ApplyEdit(v, edit), ops, floor, flushed, frozen, f, level);
  }

  lemma FitsInside(v: Version, f: File, level: nat)
    requires Fits(v, f, level)
    ensures level < |v|
  {
  }

  lemma AddedPresent(tables: map<nat, seq<Entry>>, v: Version, w: Version, f: File, level: nat)
    requires AddsFile(v, w, f, level) && AllPresent(tables, v) && Present(tables, f)
    ensures AllPresent(tables, w)
  {
  }

  // ----- An empty memtable

  lemma EmptyRange(ops: seq<Op>, flushed: nat, frozen: nat)
    requires flushed <= frozen <= |ops|
    ensures Span(ops, flushed, frozen) == {} <==> flushed == frozen
  {
    if flushed < frozen {
      assert EntryOf(ops, flushed) in Span(ops, flushed, frozen);
    }
  }

  lemma NothingChanges(v: Version, edit: Edit)
    requires TidyLevels(v) && edit.added == [] && edit.deleted == {}
    ensures ApplyEdit(v, edit) == v
  {
    var w := ApplyEdit(v, edit);
    forall l | 0 <= l < |v|
      ensures |w| == |v| && w[l] == v[l]
    {
      assert Tidy(v[l]);
      assert AddedAt(edit, l) == [] && DeletedAt(edit, l) == {};
      ApplyEditLevel(v, edit, l);
      TidyIsUnique(w[l], v[l]);
    }
  }

  // ----- A compaction

  lemma UniqueEntries(v: Version, ops: seq<Op>, floor: nat, flushed: nat)
    requires TableInv(v, ops, floor, flushed)
    ensures Unique(VersionEntries(v))
  {
    hide Good, Agrees;
  }

  lemma InputFromVersion(v: Version, ops: seq<Op>, floor: nat, flushed: nat, level: nat, in0: seq<File>,
                         in1: seq<File>, input: seq<Entry>)
    requires TableInv(v, ops, floor, flushed) && Picked(v, level, in0, in1) && MergedInput(input, in0, in1)
    ensures forall e :: e in input ==> e.key.sn <= flushed
  {
    hide Good, Agrees, FromHistory;
    forall e | e in input
      ensures e.key.sn <= flushed
    {
      assert e in Members(input);
      var m, g := HomeOf(v, level, in0, in1, e);
      assert e in VersionEntries(v);
    }
  }

  /** Dropping what the rules drop serves every read from the oldest snapshot on. */
  lemma CompactionServes(v: Version, w: Version, ops: seq<Op>, floor: nat, flushed: nat, level: nat, in0: seq<File>,
                         in1: seq<File>, input: seq<Entry>, oldest: nat)
    requires TableInv(v, ops, floor, flushed) && Good(w) && oldest <= flushed
    requires Picked(v, level, in0, in1) && MergedInput(input, in0, in1) && NextLevelClosed(v, level, in0, in1)
    requires VersionEntries(w) == Remaining(v, level, input, oldest)
    ensures TableInv(w, ops, Max(floor, oldest), flushed)
  {
    hide Picked, MergedInput, NextLevelClosed, Good, Dropped;
    GoodIsValid(v);
    UniqueEntries(v, ops, floor, flushed);
    ClosedNothingResurrects(v, level, in0, in1, oldest);
    CompactionPreservesReads(v, level, in0, in1, input, oldest);
    hide Lookup;
    assert forall e :: e in VersionEntries(w) ==> e in VersionEntries(v);
  }

  lemma CompactInstalls(j: Job, v: Version, ops: seq<Op>, floor: nat, flushed: nat, edit: Edit)
    requires TableInv(v, ops, floor, flushed) && Pending(j.from, v, j.level, j.in0, j.in1)
    requires MergedInput(j.input, j.in0, j.in1)
    requires AllValid(j.outputs) && DistinctNumbers(j.outputs) && NumbersApart(j.outputs, v)
    requires Flatten(EntriesOf(j.outputs)) == JobKept(j)
    requires edit == JobEdit(j, edit.logNumber, edit.nextFile, edit.lastSequence)
    ensures var w := ApplyEdit(v, edit);
            && Replaces(v, w, j.level, j.in0, j.in1, j.outputs)
            && TableInv(w, ops, Max(floor, Clip(j.oldest, flushed)), flushed)
  {
    hide FromHistory, Agrees, FilesValid, TidyLevels, NumbersUnique, DisjointLevels, NewerByNumber, LevelsOrdered;
    hide SameBase, NextLevelClosed, Picked, Separated, MergedInput, ValidFile, DistinctNumbers, NumbersApart, Kept;
    hide Flatten, EntriesOf;
    hide InstallEdit, ApplyEdit, Replaces, OutputsOf, Remaining, VersionEntries, LevelEntries;
    var w, oldest := ApplyEdit(v, edit), Clip(j.oldest, flushed);
    InputFromVersion(v, ops, floor, flushed, j.level, j.in0, j.in1, j.input);
    DecisionsHold(j.from, v, j.level, j.in0, j.in1, j.input, j.oldest, flushed);
    JobOutputsOf(v, v, j.level, j.in0, j.in1, j.input, oldest, j.outputs);
    InstallReplaces(v, j.level, j.in0, j.in1, j.outputs, edit);
    InstallKeepsGood(v, w, j.level, j.in0, j.in1, j.outputs);
    GoodIsValid(v);
    InstallEntries(v, w, j.level, j.in0, j.in1, j.outputs, j.input, oldest);
    CompactionServes(v, w, ops, floor, flushed, j.level, j.in0, j.in1, j.input, oldest);
  }

  lemma ReplacedPresent(tables: map<nat, seq<Entry>>, v: Version, w: Version, level: nat, in0: seq<File>,
                        in1: seq<File>, outs: seq<File>)
    requires Replaces(v, w, level, in0, in1, outs) && AllPresent(tables, v)
    requires forall f :: f in outs ==> Present(tables, f)
    ensures AllPresent(tables, w)
  {
    hide Tidy;
  }

  // ----- A file that moves down

  lemma MoveOutputsOf(v: Version, level: nat, f: File)
    requires FilesValid(v) && NumbersUnique(v) && level < |v| && f in v[level]
    ensures OutputsOf(v, level, [f], [], [f])
  {
    hide ValidFile;
    assert f in [f];
  }

  lemma MoveEntries(v: Version, w: Version, level: nat, f: File)
    requires Replaces(v, w, level, [f], [], [f]) && f in v[level]
    ensures VersionEntries(w) == VersionEntries(v)
  {
    hide Tidy;
    assert f in [f];
    forall e | e in VersionEntries(w)
      ensures e in VersionEntries(v)
    {
      var l, g :| 0 <= l < |w| && g in w[l] && e in g.entries;
      assert g in v[l] || g in v[level];
    }
    forall e | e in VersionEntries(v)
      ensures e in VersionEntries(w)
    {
      var l, g :| 0 <= l < |v| && g in v[l] && e in g.entries;
      assert g in w[l] || f in w[level + 1];
    }
  }

  lemma MoveInstalls(v: Version, ops: seq<Op>, floor: nat, flushed: nat, level: nat, f: File, edit: Edit)
    requires TableInv(v, ops, floor, flushed) && Selection(v, level, [f], [])
    requires edit == InstallEdit(level, [f], [], [f], edit.logNumber, edit.nextFile, edit.lastSequence)
    ensures var w := ApplyEdit(v, edit);
            Replaces(v, w, level, [f], [], [f]) && TableInv(w, ops, floor, flushed) && f in v[level]
  {
    hide FromHistory, Agrees, FilesValid, TidyLevels, NumbersUnique, DisjointLevels, NewerByNumber, LevelsOrdered;
    hide Separated;
    hide Selection, InstallEdit, ApplyEdit, Replaces, OutputsOf, VersionEntries, LevelEntries;
    GoodIsValid(v);
    SelectionIsInstallable(v, level, [f], []);
    assert f in [f] && f in v[level];
    MoveOutputsOf(v, level, f);
    InstallReplaces(v, level, [f], [], [f], edit);
    InstallKeepsGood(v, ApplyEdit(v, edit), level, [f], [], [f]);
    MoveEntries(v, ApplyEdit(v, edit), level, f);
  }

  // ----- The version that the manifest describes

  /** What the manifest describes serves every read that the history promises. */
  ghost predicate Durable(s: State)
    requires s.Up?
  {
    && TableInv(DurableVersion(s), s.h.ops, DurableFloor(s), DurableFlushed(s))
    && AllPresent(s.disk.tables, DurableVersion(s))
  }

  lemma DurableFlush(s: State)
    requires s.Up? && UpInv(s) && s.installing.Some? && s.installing.value.Flush?
    ensures Durable(s)
    ensures var c := s.installing.value;
            AddsFile(s.current, DurableVersion(s), c.f, c.level) && NewerThanAll(s.current, c.f)
  {
    hide LogInv, TableInv, ManifestInv, NewNumbers, AllPresent, VersionBelow, JobInv, SnapshotInv, SharedInv;
    hide ReadersInv, ApplyEdit, GroupInv;
    hide ValidFile, Fits, Present, AddsFile, NewerThanAll;
    var c := s.installing.value;
    FlushInstalls(s.current, s.h.ops, s.h.floor, s.h.flushed, s.h.frozen, c.f, c.level, c.edit);
    AddedPresent(s.disk.tables, s.current, DurableVersion(s), c.f, c.level);
  }

  lemma DurableEmpty(s: State)
    requires s.Up? && UpInv(s) && s.installing.Some? && s.installing.value.FlushEmpty?
    ensures Durable(s) && DurableVersion(s) == s.current
  {
    hide LogInv, ManifestInv, NewNumbers, AllPresent, VersionBelow, FlushInv, JobInv, SnapshotInv, SharedInv;
    hide ReadersInv, ApplyEdit, GroupInv;
    hide FromHistory, Agrees, FilesValid, NumbersUnique, DisjointLevels, NewerByNumber, LevelsOrdered, Tidy;
    EmptyRange(s.h.ops, s.h.flushed, s.h.frozen);
    NothingChanges(s.current, s.installing.value.edit);
  }

  lemma DurableCompact(s: State)
    requires s.Up? && UpInv(s) && s.installing.Some? && s.installing.value.Compact?
    ensures Durable(s)
  {
    hide MemInv, LogInv, TableInv, ManifestInv, NewNumbers, AllPresent, VersionBelow, FlushInv, SnapshotInv, SharedInv;
    hide ReadersInv, ApplyEdit, GroupInv;
    hide Pending, Connected, MergedInput, Kept, Flatten, EntriesOf, ValidFile, NumbersApart, DistinctNumbers, Present;
    hide Replaces;
    var j := s.job.value;
    CompactInstalls(j, s.current, s.h.ops, s.h.floor, s.h.flushed, s.installing.value.edit);
    ReplacedPresent(s.disk.tables, s.current, DurableVersion(s), j.level, j.in0, j.in1, j.outputs);
  }

  lemma DurableMove(s: State)
    requires s.Up? && UpInv(s) && s.installing.Some? && s.installing.value.Move?
    ensures Durable(s)
  {
    hide MemInv, LogInv, TableInv, ManifestInv, NewNumbers, VersionBelow, FlushInv, JobInv, SnapshotInv, SharedInv;
    hide ReadersInv, ApplyEdit, GroupInv;
    hide Selection, ReplacesAt, TidyLevels, Present;
    var c := s.installing.value;
    MoveInstalls(s.current, s.h.ops, s.h.floor, s.h.flushed, c.level, c.f, c.edit);
    assert |s.current| > c.level && c.f in s.current[c.level];
    hide AllPresent;
    ReplacedPresent(s.disk.tables, s.current, DurableVersion(s), c.level, [c.f], [], [c.f]);
  }

  lemma DurableAlways(s: State)
    requires s.Up? && UpInv(s)
    ensures Durable(s)
  {
    hide Durable;
    if s.installing.Some? {
      match s.installing.value
      case Flush(_, _, _) => DurableFlush(s);
      case FlushEmpty(_) => DurableEmpty(s);
      case Compact(_) => DurableCompact(s);
      case Move(_, _, _) => DurableMove(s);
    } else {
      DurableNow(s);
    }
  }

  lemma DurableNow(s: State)
    requires s.Up? && UpInv(s) && s.installing.None?
    ensures Durable(s)
  {
    hide MemInv, LogInv, TableInv, ManifestInv, NewNumbers, AllPresent, VersionBelow, FlushInv, JobInv, SnapshotInv;
    hide SharedInv, ReadersInv, ApplyEdit, GroupInv;
  }

  // ----- Installing

  /** A compaction that runs while a memtable is flushed can still be finished. */
  lemma FlushKeepsJob(j: Job, v: Version, w: Version, f: File, level: nat, tables: map<nat, seq<Entry>>,
                      nextFile: nat, lastSequence: nat, snapshots: seq<nat>)
    requires Good(v) && ValidFile(f) && Fits(v, f, level) && NewerThanAll(v, f) && AddsFile(v, w, f, level)
    requires RunningInv(j, v, tables, nextFile, lastSequence, snapshots)
    requires forall o :: o in j.outputs ==> o.number != f.number
    ensures RunningInv(j, w, tables, nextFile, lastSequence, snapshots)
  {
    hide Pending, Connected, MergedInput, Kept, Flatten, EntriesOf, ValidFile, AllPresent, VersionBelow, Fits;
    hide NewerThanAll;
    hide TidyLevels, NumbersUnique, DisjointLevels, NewerByNumber, LevelsOrdered, FilesValid, Present, DistinctNumbers;
    FlushKeepsPending(j.from, v, w, f, level, j.level, j.in0, j.in1);
  }

  lemma InstalledJob(s: State)
    requires s.Up? && UpInv(s) && s.installing.Some? && IsFlush(s.installing.value)
    ensures JobInv(s.job, DurableVersion(s), s.disk.tables, s.nextFile, s.lastSequence, s.snapshots)
  {
    hide MemInv, LogInv, ManifestInv, AllPresent, VersionBelow, SnapshotInv, SharedInv, ReadersInv, ApplyEdit, GroupInv;
    hide Fits, ValidFile, Present, AddsFile, NewerThanAll, RunningInv, Durable, Unused, Good, FromHistory, Agrees;
    if s.installing.value.Flush? {
      DurableFlush(s);
      if s.job.Some? {
        var c := s.installing.value;
        FlushKeepsJob(s.job.value, s.current, DurableVersion(s), c.f, c.level, s.disk.tables, s.nextFile,
            s.lastSequence, s.snapshots);
      }
    } else {
      DurableEmpty(s);
    }
  }

  lemma InstalledBelow(manifest: seq<Edit>, v: Version, logNumber: nat, flushed: nat, ops: nat, nextFile: nat)
    requires ManifestInv(manifest, v, logNumber, flushed, ops, nextFile)
    ensures VersionBelow(v, nextFile)
  {
    BelowMore(v, manifest[|manifest| - 1].nextFile, nextFile);
  }

  lemma InstallFlushKeeps(s: State, s': State)
    requires s.Up? && UpInv(s) && Install(s, s') && IsFlush(s.installing.value)
    ensures UpInv(s')
  {
    hide TableInv, ManifestInv, AllPresent, VersionBelow, JobInv, SnapshotInv, SharedInv, ReadersInv, ApplyEdit;
    hide GroupInv;
    hide Unused, Replays, Fits;
    DurableAlways(s);
    InstalledJob(s);
    InstalledBelow(s.disk.manifest, DurableVersion(s), DurableLog(s), DurableFlushed(s), |s.h.ops|, s.nextFile);
  }

  lemma InstallOtherKeeps(s: State, s': State)
    requires s.Up? && UpInv(s) && Install(s, s') && !IsFlush(s.installing.value)
    ensures UpInv(s')
  {
    hide MemInv, LogInv, TableInv, ManifestInv, AllPresent, VersionBelow, SharedInv, ReadersInv, ApplyEdit, GroupInv;
    hide Unused, Pending, Connected, MergedInput, OutputsInv, Kept, Flatten, EntriesOf, InstallEdit, Selection;
    DurableAlways(s);
    InstalledBelow(s.disk.manifest, DurableVersion(s), DurableLog(s), DurableFlushed(s), |s.h.ops|, s.nextFile);
  }

  lemma InstallKeeps(s: State, s': State)
    requires s.Up? && UpInv(s) && Install(s, s')
    ensures UpInv(s')
  {
    if IsFlush(s.installing.value) {
      InstallFlushKeeps(s, s');
    } else {
      InstallOtherKeeps(s, s');
    }
  }
}
