/** The store as a step machine: writers queue up and commit in groups, the memtable is switched and
    flushed, files are compacted, moved and deleted, snapshots and readers come and go, the process
    crashes and reopens. Every place where the source releases its mutex is a step boundary. */
module Store {
  import opened Keys
  import opened Versions
  import opened Inputs
  import opened VersionBuilder
  import opened Compaction
  import opened Levels

  // ----- State

  /** A queued write. No batch means the caller only wants the memtable switched. */
  datatype Writer = Writer(sync: bool, batch: Option<seq<Op>>, bytes: nat)

  datatype LogFile = LogFile(number: nat, entries: seq<Entry>)

  /** What survives a crash. */
  datatype Disk = Disk(logs: seq<LogFile>, tables: map<nat, seq<Entry>>, manifest: seq<Edit>)

  /** A running compaction, the output files it has written, and the number of the one it is writing. */
  datatype Job = Job(level: nat, in0: seq<File>, in1: seq<File>, input: seq<Entry>, oldest: nat, from: Version,
                     outputs: seq<File>, open: Option<nat>)

  /** A change that is in the manifest but not yet in the version in memory. */
  datatype Change =
    | Flush(edit: Edit, f: File, level: nat)
    | FlushEmpty(edit: Edit)
    | Compact(edit: Edit)
    | Move(edit: Edit, f: File, level: nat)

  /** Memtables and version that a read or an iterator has taken hold of. While `shared`, its memtable
      is the one that writers still insert into. */
  datatype Reader = Reader(snapshot: nat, mem: seq<Entry>, shared: bool, imm: Option<seq<Entry>>, version: Version)

  /** The leader of the writer queue: no group yet, a group of `n` writers, that group in the log. */
  datatype Phase = Idle | Grouped(n: nat) | Logged(n: nat)

  /** The abstract history and where the store stands in it: operations up to `flushed` are in tables,
      up to `frozen` also in the immutable memtable, up to `applied` also in the memtable. Reads
      below `floor` are no longer served. */
  datatype History = History(ops: seq<Op>, flushed: nat, frozen: nat, applied: nat, floor: nat)

  /** All writers in the order they came; the first `finished` are done. */
  datatype Queue = Queue(arrived: seq<Writer>, finished: nat)

  datatype State =
    | Down(disk: Disk, h: History, q: Queue)
    | Up(disk: Disk, h: History, q: Queue,
         mem: seq<Entry>, imm: Option<seq<Entry>>, current: Version,
         logNumber: nat, logfile: nat, nextFile: nat, lastSequence: nat,
         snapshots: seq<nat>, readers: seq<Reader>,
         flushing: Option<File>, installing: Option<Change>, job: Option<Job>,
         writers: seq<Writer>, phase: Phase)

  const EMPTY: Version := [[], [], [], [], [], [], []]

  // ----- Logs and memtables

  /** Entries of the logs numbered from `from` on, oldest log first. */
  function LogEntries(logs: seq<LogFile>, from: nat): seq<Entry> {
    if logs == [] then []
    else
      var last := logs[|logs| - 1];
      LogEntries(logs[..|logs| - 1], from) + (if last.number >= from then last.entries else [])
  }

  function AppendLog(logs: seq<LogFile>, es: seq<Entry>): seq<LogFile>
    requires logs != []
  {
    var n := |logs| - 1;
    logs[..n] + [logs[n].(entries := logs[n].entries + es)]
  }

  predicate Increasing(logs: seq<LogFile>) {
    forall i, j :: 0 <= i < j < |logs| ==> logs[i].number < logs[j].number
  }

  /** Sorted insertion into a memtable. */
  function MemAdd(mem: seq<Entry>, e: Entry): seq<Entry> {
    if mem == [] || Less(e.key, mem[0].key) then [e] + mem else [mem[0]] + MemAdd(mem[1..], e)
  }

  // ----- Group commit

  function Ops(ws: seq<Writer>): seq<Op> {
    if ws == [] then []
    else
      var w := ws[|ws| - 1];
      Ops(ws[..|ws| - 1]) + (if w.batch.Some? then w.batch.value else [])
  }

  const SMALL_WRITE: nat := 0x2_0000
  const MAX_GROUP: nat := 0x10_0000

  function GroupLimit(first: Writer): nat {
    if first.bytes <= SMALL_WRITE then first.bytes + SMALL_WRITE else MAX_GROUP
  }

  function GroupBytes(ws: seq<Writer>, n: nat): nat
    requires n <= |ws|
  {
    if n == 0 then 0 else GroupBytes(ws, n - 1) + (if ws[n - 1].batch.Some? then ws[n - 1].bytes else 0)
  }

  /** Sizes add up, and a writer without a batch has none. */
  lemma {:induction false} GroupBytesAdd(a: seq<Writer>, b: seq<Writer>)
    ensures GroupBytes(a + b, |a + b|) == GroupBytes(a, |a|) + GroupBytes(b, |b|)
    ensures forall w :: GroupBytes([w], 1) == if w.batch.Some? then w.bytes else 0
    decreases |b|
  {
    GroupBytesPrefix(a, b, |a|);
    GroupBytesShift(a, b, |b|);
    forall w
      ensures GroupBytes([w], 1) == if w.batch.Some? then w.bytes else 0
    {
      assert GroupBytes([w], 0) == 0;
    }
  }

  lemma {:induction false} GroupBytesPrefix(a: seq<Writer>, b: seq<Writer>, n: nat)
    requires n <= |a|
    ensures GroupBytes(a + b, n) == GroupBytes(a, n)
  {
    if n > 0 {
      GroupBytesPrefix(a, b, n - 1);
    }
  }

  lemma {:induction false} GroupBytesShift(a: seq<Writer>, b: seq<Writer>, n: nat)
    requires n <= |b|
    ensures GroupBytes(a + b, |a| + n) == GroupBytes(a, |a|) + GroupBytes(b, n)
  {
    if n > 0 {
      GroupBytesShift(a, b, n - 1);
    } else {
      GroupBytesPrefix(a, b, |a|);
    }
  }

  /** May writer `i` join the group led by writer 0? */
  predicate Joins(ws: seq<Writer>, i: nat)
    requires 0 < i < |ws|
  {
    && !(ws[i].sync && !ws[0].sync)
    && (ws[i].batch.Some? ==> GroupBytes(ws, i + 1) <= GroupLimit(ws[0]))
  }

  /** The group the leader builds: the longest prefix of the queue in which every follower may join. */
  predicate IsGroup(ws: seq<Writer>, n: nat) {
    && 0 < n <= |ws|
    && ws[0].batch.Some?
    && (forall i :: 0 < i < n ==> Joins(ws, i))
    && (n < |ws| ==> !Joins(ws, n))
  }

  /** The scan of the writer queue, collecting the operations of the group. */
  method BuildBatchGroup(ws: seq<Writer>) returns (n: nat, ops: seq<Op>)
    requires ws != [] && ws[0].batch.Some?
    ensures IsGroup(ws, n) && ops == Ops(ws[..n])
    ensures forall i :: 0 <= i < n && ws[i].sync ==> ws[0].sync
    ensures GroupBytes(ws, n) == ws[0].bytes ||
            GroupBytes(ws, n) <= if ws[0].bytes <= 131072 then ws[0].bytes + 131072 else 1048576
    ensures n < |ws| ==>
              || (ws[n].sync && !ws[0].sync)
              || (ws[n].batch.Some? &&
                  GroupBytes(ws, n) + ws[n].bytes > if ws[0].bytes <= 131072 then ws[0].bytes + 131072 else 1048576)
  {
    var size, limit := ws[0].bytes, GroupLimit(ws[0]);
    assert ws[..1] == [ws[0]] && [ws[0]][..0] == [] && Ops([]) == [];
    n, ops := 1, ws[0].batch.value;
    assert GroupBytes(ws, 1) == GroupBytes(ws, 0) + ws[0].bytes;
    while n < |ws|
      invariant 0 < n <= |ws|
      invariant size == ws[0].bytes || size <= limit
      invariant size == GroupBytes(ws, n) && ops == Ops(ws[..n])
      invariant forall i :: 0 < i < n ==> Joins(ws, i)
      invariant forall i :: 0 <= i < n && ws[i].sync ==> ws[0].sync
    {
      var w := ws[n];
      if w.sync && !ws[0].sync {
        break;
      }
      assert ws[..n + 1][..n] == ws[..n];
      if w.batch.Some? {
        size := size + w.bytes;
        if size > limit {
          break;
        }
        ops := ops + w.batch.value;
      }
      n := n + 1;
    }
  }

  // ----- Invariants, each over the fields it needs

  ghost predicate Counters(h: History, lastSequence: nat) {
    && h.floor <= h.flushed <= h.frozen <= lastSequence <= h.applied <= |h.ops| <= MAX_SEQUENCE
  }

  /** The memtables hold exactly their ranges of the history. */
  ghost predicate MemInv(mem: seq<Entry>, imm: Option<seq<Entry>>, ops: seq<Op>, flushed: nat, frozen: nat,
                         applied: nat) {
    && flushed <= frozen <= applied <= |ops|
    && Sorted(mem) && Members(mem) == Span(ops, frozen, applied)
    && (imm.Some? ==> Sorted(imm.value) && Members(imm.value) == Span(ops, flushed, frozen))
    && (imm.None? ==> flushed == frozen)
  }

  /** The logs from `from` on replay to the operations from `start` on. */
  ghost predicate Replays(logs: seq<LogFile>, from: nat, ops: seq<Op>, start: nat) {
    start <= |ops| && LogEntries(logs, from) == Range(ops, start, |ops|)
  }

  ghost predicate LogInv(logs: seq<LogFile>, logNumber: nat, logfile: nat, nextFile: nat, ops: seq<Op>, flushed: nat,
                         frozen: nat) {
    && logs != [] && Increasing(logs) && logs[|logs| - 1].number == logfile < nextFile
    && logNumber <= logfile
    && Replays(logs, logNumber, ops, flushed)
    && Replays(logs, logfile, ops, frozen)
  }

  /** The tables of a version hold only what history wrote, and serve every read from `floor` on. */
  ghost predicate TableInv(v: Version, ops: seq<Op>, floor: nat, flushed: nat) {
    && floor <= flushed <= |ops| <= MAX_SEQUENCE
    && Good(v)
    && FromHistory(VersionEntries(v), ops)
    && (forall e :: e in VersionEntries(v) ==> e.key.sn <= flushed)
    && Agrees(VersionEntries(v), ops, floor, flushed)
  }

  /** A table is on disk with its contents. */
  predicate Present(tables: map<nat, seq<Entry>>, f: File) {
    f.number in tables && tables[f.number] == f.entries
  }

  ghost predicate AllPresent(tables: map<nat, seq<Entry>>, v: Version) {
    forall l, f :: 0 <= l < |v| && f in v[l] ==> Present(tables, f)
  }

  /** File numbers ever added stay below `n`, and a file of the version was never below its level. */
  ghost predicate ManifestNumbers(manifest: seq<Edit>, v: Version, n: nat) {
    && (forall l, g :: 0 <= l < |v| && g in AddedAfter(manifest, l) ==> g.number < n)
    && (forall l, m, f, g :: 0 <= l < m < |v| && f in v[l] && g in AddedAfter(manifest, m) ==> f.number != g.number)
  }

  /** Replaying the manifest yields `v`; its last record names the oldest log still needed. */
  ghost predicate ManifestInv(manifest: seq<Edit>, v: Version, logNumber: nat, flushed: nat, ops: nat, nextFile: nat) {
    && manifest != []
    && Replayable(EMPTY, manifest) && Build(EMPTY, manifest) == v
    && var last := manifest[|manifest| - 1];
       && last.logNumber == logNumber && last.nextFile <= nextFile && flushed <= last.lastSequence <= ops
       && VersionBelow(v, last.nextFile)
       && ManifestNumbers(manifest, v, last.nextFile)
  }

  ghost predicate OutputsInv(outputs: seq<File>, kept: seq<Entry>, v: Version, tables: map<nat, seq<Entry>>,
                             nextFile: nat) {
    && AllValid(outputs) && DistinctNumbers(outputs) && NumbersApart(outputs, v)
    && (forall f :: f in outputs ==> f.number < nextFile && Present(tables, f))
    && Flatten(EntriesOf(outputs)) <= kept
  }

  /** The output being written is on disk, still without contents. */
  ghost predicate OpenInv(open: Option<nat>, tables: map<nat, seq<Entry>>, nextFile: nat) {
    open.Some? ==> open.value < nextFile && open.value in tables && tables[open.value] == []
  }

  ghost predicate JobInv(job: Option<Job>, v: Version, tables: map<nat, seq<Entry>>, nextFile: nat, lastSequence: nat,
                         snapshots: seq<nat>) {
    job.Some? ==> RunningInv(job.value, v, tables, nextFile, lastSequence, snapshots)
  }

  ghost predicate RunningInv(j: Job, v: Version, tables: map<nat, seq<Entry>>, nextFile: nat, lastSequence: nat,
                             snapshots: seq<nat>) {
    && Pending(j.from, v, j.level, j.in0, j.in1) && Connected(j.in0 + j.in1)
    && MergedInput(j.input, j.in0, j.in1)
    && j.oldest <= lastSequence && (forall i :: 0 <= i < |snapshots| ==> j.oldest <= snapshots[i])
    && AllPresent(tables, j.from) && VersionBelow(j.from, nextFile) && FilesValid(j.from)
    && OpenInv(j.open, tables, nextFile)
    && OutputsInv(j.outputs, Kept(j.from, j.level, j.input, j.oldest, |j.input|), v, tables, nextFile)
  }

  ghost predicate FlushInv(flushing: Option<File>, imm: Option<seq<Entry>>, v: Version, tables: map<nat, seq<Entry>>,
                           nextFile: nat) {
    flushing.Some? ==> BuiltInv(flushing.value, imm, v, tables, nextFile)
  }

  ghost predicate BuiltInv(f: File, imm: Option<seq<Entry>>, v: Version, tables: map<nat, seq<Entry>>, nextFile: nat) {
    && imm.Some? && f.entries == imm.value && ValidFile(f)
    && Present(tables, f) && VersionBelow(v, f.number) && f.number < nextFile
  }

  /** What makes a change legitimate while it is being installed. */
  ghost predicate ChangeInv(c: Change, flushing: Option<File>, imm: Option<seq<Entry>>, job: Option<Job>, v: Version,
                            logNumber: nat, logfile: nat) {
    match c
    case Flush(edit, f, level) =>
      && flushing == Some(f) && Fits(v, f, level)
      && edit == FlushEdit(f, level, logfile, edit.nextFile, edit.lastSequence)
    case FlushEmpty(edit) =>
      && flushing.None? && imm == Some([])
      && edit == Edit({}, [], logfile, edit.nextFile, edit.lastSequence)
    case Compact(edit) =>
      && flushing.None? && job.Some? && job.value.open.None?
      && Flatten(EntriesOf(job.value.outputs)) == JobKept(job.value)
      && edit == JobEdit(job.value, logNumber, edit.nextFile, edit.lastSequence)
    case Move(edit, f, level) =>
      && flushing.None? && job.None? && Selection(v, level, [f], [])
      && edit == InstallEdit(level, [f], [], [f], logNumber, edit.nextFile, edit.lastSequence)
  }

  ghost function JobKept(j: Job): seq<Entry> {
    Kept(j.from, j.level, j.input, j.oldest, |j.input|)
  }

  ghost function JobEdit(j: Job, logNumber: nat, nextFile: nat, lastSequence: nat): Edit {
    InstallEdit(j.level, j.in0, j.in1, j.outputs, logNumber, nextFile, lastSequence)
  }

  /** No manifest record has added a file under the number of any of these. */
  ghost predicate Unused(files: seq<File>, manifest: seq<Edit>) {
    forall l, f, g :: f in files && 0 <= l < |EMPTY| && g in AddedAfter(manifest, l) ==> f.number != g.number
  }

  ghost predicate NumberUnused(n: nat, manifest: seq<Edit>) {
    forall l, g :: 0 <= l < |EMPTY| && g in AddedAfter(manifest, l) ==> g.number != n
  }

  /** Tables that are built but not yet in the manifest carry numbers of their own. */
  ghost predicate NewNumbers(manifest: seq<Edit>, flushing: Option<File>, installing: Option<Change>,
                             job: Option<Job>) {
    && (flushing.Some? && installing.None? ==> Unused([flushing.value], manifest))
    && (job.Some? && !(installing.Some? && installing.value.Compact?) ==> Unused(job.value.outputs, manifest))
    && (job.Some? && job.value.open.Some? ==> NumberUnused(job.value.open.value, manifest))
    && (flushing.Some? && job.Some? ==> forall o :: o in job.value.outputs ==> o.number != flushing.value.number)
  }

  ghost predicate SnapshotInv(snapshots: seq<nat>, floor: nat, lastSequence: nat) {
    && (forall i :: 0 <= i < |snapshots| ==> floor <= snapshots[i] <= lastSequence)
    && (forall i, j :: 0 <= i < j < |snapshots| ==> snapshots[i] <= snapshots[j])
  }

  /** A reader sees the plain map as of its snapshot, and its tables are on disk. */
  ghost predicate ReaderInv(r: Reader, ops: seq<Op>, tables: map<nat, seq<Entry>>, nextFile: nat) {
    && r.snapshot <= |ops|
    && (forall k :: Lookup(Live(r.mem, r.imm, r.version), k, r.snapshot) == Get(AsOf(ops, r.snapshot), k))
    && Searchable(r.mem, r.imm, r.version)
    && AllPresent(tables, r.version) && VersionBelow(r.version, nextFile)
  }

  ghost predicate ReadersInv(readers: seq<Reader>, ops: seq<Op>, tables: map<nat, seq<Entry>>, nextFile: nat) {
    forall i :: 0 <= i < |readers| ==> ReaderInv(readers[i], ops, tables, nextFile)
  }

  /** A shared memtable is the store's own; nothing a reader holds is beyond what has been inserted. */
  ghost predicate SharedInv(readers: seq<Reader>, mem: seq<Entry>, applied: nat) {
    forall i :: 0 <= i < |readers| ==> SharedAt(readers[i], mem, applied)
  }

  ghost predicate SharedAt(r: Reader, mem: seq<Entry>, applied: nat) {
    && (r.shared ==> r.mem == mem)
    && r.snapshot <= applied
    && forall e :: e in Live(r.mem, r.imm, r.version) ==> e.key.sn <= applied
  }

  /** Readers that share the memtable see an insertion into it. */
  function SeeInsert(readers: seq<Reader>, e: Entry): seq<Reader> {
    seq(|readers|, i requires 0 <= i < |readers| =>
      if readers[i].shared then readers[i].(mem := MemAdd(readers[i].mem, e)) else readers[i])
  }

  /** Readers keep the memtable that is switched out. */
  function Unshare(readers: seq<Reader>): seq<Reader> {
    seq(|readers|, i requires 0 <= i < |readers| => readers[i].(shared := false))
  }

  function GroupSize(phase: Phase): nat {
    if phase.Idle? then 0 else phase.n
  }

  function LoggedSize(phase: Phase): nat {
    if phase.Logged? then phase.n else 0
  }

  /** Writers leave the queue in the order they came, and the history is the concatenation of the
      batches of the writers that are done or whose group is in the log. */
  ghost predicate GroupInv(writers: seq<Writer>, phase: Phase, q: Queue, ops: seq<Op>, applied: nat,
                           lastSequence: nat) {
    && q.finished <= |q.arrived| && writers == q.arrived[q.finished..]
    && GroupSize(phase) <= |writers|
    && (!phase.Idle? ==> phase.n > 0 && writers[0].batch.Some? && forall i :: 0 <= i < phase.n && writers[i].sync ==>
        writers[0].sync)
    && ops == Ops(q.arrived[..q.finished + LoggedSize(phase)])
    && lastSequence == |Ops(q.arrived[..q.finished])|
    && (!phase.Logged? ==> applied == |ops| == lastSequence)
  }

  predicate IsFlush(c: Change) {
    c.Flush? || c.FlushEmpty?
  }

  ghost function DurableVersion(s: State): Version
    requires s.Up?
  {
    if s.installing.Some? then ApplyEdit(s.current, s.installing.value.edit) else s.current
  }

  ghost function DurableLog(s: State): nat
    requires s.Up?
  {
    if s.installing.Some? && IsFlush(s.installing.value) then s.logfile else s.logNumber
  }

  ghost function DurableFlushed(s: State): nat
    requires s.Up?
  {
    if s.installing.Some? && IsFlush(s.installing.value) then s.h.frozen else s.h.flushed
  }

  ghost predicate UpInv(s: State)
    requires s.Up?
  {
    && Counters(s.h, s.lastSequence)
    && MemInv(s.mem, s.imm, s.h.ops, s.h.flushed, s.h.frozen, s.h.applied)
    && LogInv(s.disk.logs, s.logNumber, s.logfile, s.nextFile, s.h.ops, s.h.flushed, s.h.frozen)
    && TableInv(s.current, s.h.ops, s.h.floor, s.h.flushed)
    && ManifestInv(s.disk.manifest, DurableVersion(s), DurableLog(s), DurableFlushed(s), |s.h.ops|, s.nextFile)
    && AllPresent(s.disk.tables, s.current) && VersionBelow(s.current, s.nextFile)
    && FlushInv(s.flushing, s.imm, s.current, s.disk.tables, s.nextFile)
    && JobInv(s.job, s.current, s.disk.tables, s.nextFile, s.lastSequence, s.snapshots)
    && (s.installing.Some? ==>
        ChangeInv(s.installing.value, s.flushing, s.imm, s.job, s.current, s.logNumber, s.logfile))
    && NewNumbers(s.disk.manifest, s.flushing, s.installing, s.job)
    && SnapshotInv(s.snapshots, s.h.floor, s.lastSequence)
    && ReadersInv(s.readers, s.h.ops, s.disk.tables, s.nextFile)
    && SharedInv(s.readers, s.mem, s.h.applied)
    && GroupInv(s.writers, s.phase, s.q, s.h.ops, s.h.applied, s.lastSequence)
  }

  /** A crashed store can be reopened to exactly its history. */
  ghost predicate DownInv(disk: Disk, h: History, q: Queue) {
    && disk.manifest != [] && Increasing(disk.logs)
    && var v, last := Build(EMPTY, disk.manifest), disk.manifest[|disk.manifest| - 1];
       && ManifestInv(disk.manifest, v, last.logNumber, h.flushed, |h.ops|, last.nextFile)
       && TableInv(v, h.ops, h.floor, h.flushed) && AllPresent(disk.tables, v)
       && Replays(disk.logs, last.logNumber, h.ops, h.flushed)
       && q.finished == |q.arrived| && h.ops == Ops(q.arrived)
  }

  ghost predicate Inv(s: State) {
    if s.Up? then UpInv(s) else DownInv(s.disk, s.h, s.q)
  }

  // ----- Steps: the write path

  ghost predicate Enqueue(s: State, s': State, w: Writer) {
    s.Up? && s' == s.(writers := s.writers + [w], q := s.q.(arrived := s.q.arrived + [w]))
  }

  /** A leader without a batch only waited for room, and leaves. */
  ghost predicate LeadEmpty(s: State, s': State) {
    && s.Up? && s.phase.Idle? && s.writers != [] && s.writers[0].batch.None?
    && s' == s.(writers := s.writers[1..], q := s.q.(finished := s.q.finished + 1))
  }

  /** The leader makes room: the memtable becomes immutable and a new log begins. */
  ghost predicate SwitchMemTable(s: State, s': State) {
    && s.Up? && s.phase.Idle? && s.writers != [] && s.imm.None?
    && s' == s.(imm := Some(s.mem), mem := [], readers := Unshare(s.readers), logfile := s.nextFile,
        nextFile := s.nextFile + 1,
                disk := s.disk.(logs := s.disk.logs + [LogFile(s.nextFile, [])]),
                h := s.h.(frozen := s.h.applied))
  }

  ghost predicate BuildGroup(s: State, s': State, n: nat) {
    && s.Up? && s.phase.Idle? && IsGroup(s.writers, n)
    && s' == s.(phase := Grouped(n))
  }

  /** The group's operations get the next sequence numbers and go to the log as one record. */
  ghost predicate AppendGroup(s: State, s': State) {
    && s.Up? && s.phase.Grouped? && s.phase.n <= |s.writers| && s.disk.logs != []
    && var ops := s.h.ops + Ops(s.writers[..s.phase.n]);
       && |ops| <= MAX_SEQUENCE
       && s' == s.(phase := Logged(s.phase.n), h := s.h.(ops := ops),
                   disk := s.disk.(logs := AppendLog(s.disk.logs, Range(ops, |s.h.ops|, |ops|))))
  }

  ghost predicate InsertOne(s: State, s': State) {
    && s.Up? && s.phase.Logged? && s.h.applied < |s.h.ops|
    && var e := EntryOf(s.h.ops, s.h.applied);
       s' == s.(mem := MemAdd(s.mem, e), readers := SeeInsert(s.readers, e), h := s.h.(applied := s.h.applied + 1))
  }

  /** The new sequence number is published and the group leaves the queue. */
  ghost predicate FinishGroup(s: State, s': State) {
    && s.Up? && s.phase.Logged? && s.phase.n <= |s.writers| && s.h.applied == |s.h.ops|
    && s' == s.(lastSequence := |s.h.ops|, writers := s.writers[s.phase.n..], phase := Idle,
                q := s.q.(finished := s.q.finished + s.phase.n))
  }

  // ----- Steps: the background thread

  ghost predicate BackgroundFree(s: State) {
    s.Up? && s.flushing.None? && s.installing.None?
  }

  ghost predicate BuildTable(s: State, s': State, size: nat) {
    && BackgroundFree(s) && s.imm.Some? && s.imm.value != []
    && var es := s.imm.value;
       var f := File(s.nextFile, size, es[0].key, es[|es| - 1].key, es);
       s' == s.(flushing := Some(f), nextFile := s.nextFile + 1,
                disk := s.disk.(tables := s.disk.tables[s.nextFile := es]))
  }

  ghost predicate Commits(s: State, s': State, c: Change) {
    && s.Up? && s.installing.None?
    && s' == s.(installing := Some(c), disk := s.disk.(manifest := s.disk.manifest + [c.edit]))
  }

  ghost predicate CommitFlush(s: State, s': State, level: nat) {
    && s.Up? && s.flushing.Some? && Fits(s.current, s.flushing.value, level)
    && Commits(s, s', Flush(FlushEdit(s.flushing.value, level, s.logfile, s.nextFile, s.lastSequence),
        s.flushing.value, level))
  }

  /** An empty memtable leaves no table behind. */
  ghost predicate CommitEmptyFlush(s: State, s': State) {
    && s.Up? && s.flushing.None? && s.imm == Some([])
    && Commits(s, s', FlushEmpty(Edit({}, [], s.logfile, s.nextFile, s.lastSequence)))
  }

  function OldestSnapshot(snapshots: seq<nat>, lastSequence: nat): nat {
    if snapshots == [] then lastSequence else snapshots[0]
  }

  /** A compaction begins. Two hypotheses on its inputs are not enforced by the source for every
      selection: no gap between their ranges, and no older entry left behind at the output level. */
  ghost predicate StartJob(s: State, s': State, level: nat, in0: seq<File>, in1: seq<File>, input: seq<Entry>) {
    && BackgroundFree(s) && s.job.None?
    && Selection(s.current, level, in0, in1) && MergedInput(input, in0, in1)
    && Connected(in0 + in1) && NextLevelClosed(s.current, level, in0, in1)
    && s' == s.(job := Some(Job(level, in0, in1, input, OldestSnapshot(s.snapshots, s.lastSequence),
        s.current, [], None)))
  }

  /** An output gets its number when it is opened; the memtable may be switched and flushed before it is
      finished. */
  ghost predicate OpenOutput(s: State, s': State) {
    && BackgroundFree(s) && s.job.Some? && s.job.value.open.None?
    && s' == s.(job := Some(s.job.value.(open := Some(s.nextFile))), nextFile := s.nextFile + 1,
                disk := s.disk.(tables := s.disk.tables[s.nextFile := []]))
  }

  ghost predicate WriteOutput(s: State, s': State, o: File) {
    && BackgroundFree(s) && s.job.Some? && ValidFile(o) && s.job.value.open == Some(o.number)
    && Flatten(EntriesOf(s.job.value.outputs + [o])) <= JobKept(s.job.value)
    && s' == s.(job := Some(s.job.value.(outputs := s.job.value.outputs + [o], open := None)),
                disk := s.disk.(tables := s.disk.tables[o.number := o.entries]))
  }

  ghost predicate CommitJob(s: State, s': State) {
    && BackgroundFree(s) && s.job.Some? && s.job.value.open.None?
    && Flatten(EntriesOf(s.job.value.outputs)) == JobKept(s.job.value)
    && Commits(s, s', Compact(JobEdit(s.job.value, s.logNumber, s.nextFile, s.lastSequence)))
  }

  /** A single file with nothing below it in the next level moves down as it is. */
  ghost predicate CommitMove(s: State, s': State, level: nat, f: File) {
    && BackgroundFree(s) && s.job.None? && Selection(s.current, level, [f], [])
    && Commits(s, s', Move(InstallEdit(level, [f], [], [f], s.logNumber, s.nextFile, s.lastSequence), f, level))
  }

  function Max(a: nat, b: nat): nat {
    if a < b then b else a
  }

  /** The floor once the change is in. */
  function DurableFloor(s: State): nat
    requires s.Up?
  {
    if s.installing.Some? && s.installing.value.Compact? && s.job.Some?
    then Max(s.h.floor, Clip(s.job.value.oldest, s.h.flushed)) else s.h.floor
  }

  /** The version of the manifest becomes the version in memory. */
  ghost predicate Install(s: State, s': State) {
    && s.Up? && s.installing.Some?
    && var c := s.installing.value;
       s' == s.(current := ApplyEdit(s.current, c.edit), installing := None,
                imm := if IsFlush(c) then None else s.imm,
                flushing := if IsFlush(c) then None else s.flushing,
                logNumber := if IsFlush(c) then s.logfile else s.logNumber,
                job := if c.Compact? then None else s.job,
                h := s.h.(flushed := DurableFlushed(s), floor := DurableFloor(s)))
  }

  ghost predicate HasNumber(v: Version, n: nat) {
    exists l, f :: 0 <= l < |v| && f in v[l] && f.number == n
  }

  /** A version still in use names the file, or a running compaction has written or opened it. */
  ghost predicate LiveNumber(s: State, n: nat)
    requires s.Up?
  {
    || HasNumber(s.current, n)
    || (exists i :: 0 <= i < |s.readers| && HasNumber(s.readers[i].version, n))
    || (s.job.Some? && s.job.value.open == Some(n))
    || (s.job.Some? && (HasNumber(s.job.value.from, n) || exists f :: f in s.job.value.outputs && f.number == n))
  }

  ghost predicate DeleteTable(s: State, s': State, n: nat) {
    && BackgroundFree(s) && !LiveNumber(s, n)
    && s' == s.(disk := s.disk.(tables := s.disk.tables - {n}))
  }

  ghost predicate DeleteLog(s: State, s': State, i: nat) {
    && BackgroundFree(s) && i < |s.disk.logs| && s.disk.logs[i].number < s.logNumber
    && s' == s.(disk := s.disk.(logs := s.disk.logs[..i] + s.disk.logs[i + 1..]))
  }

  // ----- Steps: snapshots and readers

  ghost predicate TakeSnapshot(s: State, s': State) {
    s.Up? && s' == s.(snapshots := s.snapshots + [s.lastSequence])
  }

  ghost predicate ReleaseSnapshot(s: State, s': State, i: nat) {
    s.Up? && i < |s.snapshots| && s' == s.(snapshots := s.snapshots[..i] + s.snapshots[i + 1..])
  }

  ghost predicate Readable(s: State, snapshot: nat)
    requires s.Up?
  {
    snapshot == s.lastSequence || snapshot in s.snapshots
  }

  ghost predicate BeginRead(s: State, s': State, snapshot: nat) {
    && s.Up? && Readable(s, snapshot)
    && s' == s.(readers := s.readers + [Reader(snapshot, s.mem, true, s.imm, s.current)])
  }

  ghost predicate EndRead(s: State, s': State, i: nat) {
    s.Up? && i < |s.readers| && s' == s.(readers := s.readers[..i] + s.readers[i + 1..])
  }

  // ----- Steps: crash and reopen

  /** The process dies. A group whose record is complete in the log survives, any other queued write
      is gone. */
  ghost predicate Crash(s: State, s': State) {
    && s.Up?
    && var kept := s.q.finished + LoggedSize(s.phase);
       && kept <= |s.q.arrived|
       && s' == Down(s.disk, s.h.(flushed := DurableFlushed(s), floor := DurableFloor(s)),
           Queue(s.q.arrived[..kept], kept))
  }

  /** An attempt to reopen that dies before its manifest is in place leaves a stray table or an empty log. */
  ghost predicate FailedReopen(s: State, s': State, n: nat, es: seq<Entry>) {
    && s.Down? && s.disk.manifest != [] && s.disk.manifest[|s.disk.manifest| - 1].nextFile <= n
    && (|| s' == s.(disk := s.disk.(tables := s.disk.tables[n := es]))
        || (&& (forall i :: 0 <= i < |s.disk.logs| ==> s.disk.logs[i].number < n)
            && s' == s.(disk := s.disk.(logs := s.disk.logs + [LogFile(n, [])]))))
  }

  /** Tables made from the replayed log: consecutive pieces of it, each sorted. Piece `i` begins at
      `starts[i]`; the log of each memtable ends a piece, and so does a full memtable. */
  ghost predicate PiecesOf(news: seq<File>, starts: seq<nat>, replay: seq<Entry>) {
    && |starts| == |news|
    && if news == [] then replay == []
       else
         var n := |news| - 1;
         && starts[n] <= |replay| && ValidFile(news[n])
         && Members(news[n].entries) == Members(replay[starts[n]..])
         && PiecesOf(news[..n], starts[..n], replay[..starts[n]])
  }

  ghost predicate RisingNumbers(news: seq<File>, from: nat, to: nat) {
    && (forall i :: 0 <= i < |news| ==> from <= news[i].number < to)
    && (forall i, j :: 0 <= i < j < |news| ==> news[i].number < news[j].number)
  }

  function MaxSequence(es: seq<Entry>): nat {
    if es == [] then 0 else Max(MaxSequence(es[..|es| - 1]), es[|es| - 1].key.sn)
  }

  ghost function AtLevel0(news: seq<File>): seq<(nat, File)> {
    AtLevel(0, news)
  }

  function AddTables(tables: map<nat, seq<Entry>>, news: seq<File>): map<nat, seq<Entry>> {
    if news == [] then tables
    else AddTables(tables, news[..|news| - 1])[news[|news| - 1].number := news[|news| - 1].entries]
  }

  /** All files of a version as one manifest record. */
  ghost function SnapshotAdded(v: Version, n: nat): seq<(nat, File)>
    requires n <= |v|
  {
    if n == 0 then []
    else SnapshotAdded(v, n - 1) + AtLevel(n - 1, v[n - 1])
  }

  ghost function AtLevel(level: nat, files: seq<File>): seq<(nat, File)> {
    seq(|files|, i requires 0 <= i < |files| => (level, files[i]))
  }

  /** Reopening replays the manifest, turns the logs it needs into level-0 tables, starts a new log and
      switches to a new manifest. */
  ghost predicate Reopen(s: State, s': State, news: seq<File>, starts: seq<nat>, log: nat) {
    && s.Down? && s.disk.manifest != []
    && var v, last := Build(EMPTY, s.disk.manifest), s.disk.manifest[|s.disk.manifest| - 1];
       var replay := LogEntries(s.disk.logs, last.logNumber);
       var lastSequence := Max(last.lastSequence, MaxSequence(replay));
       var edit := Edit({}, AtLevel0(news), log, log + 1, lastSequence);
       && PiecesOf(news, starts, replay) && RisingNumbers(news, last.nextFile + 1, log) && last.nextFile < log
       && (forall i :: 0 <= i < |s.disk.logs| ==> s.disk.logs[i].number < log)
       && s' == Up(Disk(s.disk.logs + [LogFile(log, [])], AddTables(s.disk.tables, news),
                        [Edit({}, SnapshotAdded(v, |v|), 0, 0, 0), edit]),
                   s.h.(flushed := |s.h.ops|, frozen := |s.h.ops|, applied := |s.h.ops|), s.q,
                   [], None, ApplyEdit(v, edit), log, log, log + 1, lastSequence, [], [], None, None, None, [], Idle)
  }
}
