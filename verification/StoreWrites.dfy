/** The write path keeps the store's invariant. */
module StoreWrites {
  import opened Keys
  import opened Versions
  import opened Inputs
  import opened Compaction
  import opened VersionBuilder
  import opened Levels
  import opened Store
  import Seqs

  // ----- Facts about queues, logs and memtables

  lemma {:induction false} OpsConcat(a: seq<Writer>, b: seq<Writer>)
    ensures Ops(a + b) == Ops(a) + Ops(b)
  {
    if b == [] {
      assert a + b == a;
    } else {
      var n := |b| - 1;
      OpsConcat(a, b[..n]);
      assert (a + b)[..|a + b| - 1] == a + b[..n];
      Seqs.Assoc(Ops(a), Ops(b[..n]), if b[n].batch.Some? then b[n].batch.value else []);
    }
  }

  lemma {:induction false} MemAddKeeps(mem: seq<Entry>, e: Entry)
    requires Sorted(mem) && forall i :: 0 <= i < |mem| ==> mem[i].key.sn != e.key.sn
    ensures Sorted(MemAdd(mem, e)) && Members(MemAdd(mem, e)) == Members(mem) + {e}
  {
    if mem == [] {
    } else if Less(e.key, mem[0].key) {
      MemPrepend(mem, e);
    } else {
      MemAddKeeps(mem[1..], e);
      var r := MemAdd(mem[1..], e);
      assert Less(mem[0].key, e.key);
      forall i | 0 <= i < |r|
        ensures Less(mem[0].key, r[i].key)
      {
        assert r[i] in Members(r);
        if r[i] != e {
          var j :| 0 <= j < |mem[1..]| && mem[1..][j] == r[i];
          assert mem[j + 1] == r[i];
        }
      }
      assert mem == [mem[0]] + mem[1..];
      assert Members([mem[0]] + r) == {mem[0]} + Members(r);
    }
  }

  lemma MemPrepend(mem: seq<Entry>, e: Entry)
    requires Sorted(mem) && mem != [] && Less(e.key, mem[0].key)
    ensures Sorted([e] + mem) && Members([e] + mem) == Members(mem) + {e}
  {
    var r := [e] + mem;
    forall i, j | 0 <= i < j < |r|
      ensures Less(r[i].key, r[j].key)
    {
      if i == 0 && j > 1 {
        assert Less(mem[0].key, mem[j - 1].key);
      }
    }
  }

  lemma {:induction false} LogAppended(logs: seq<LogFile>, es: seq<Entry>, from: nat)
    requires logs != [] && from <= logs[|logs| - 1].number
    ensures LogEntries(AppendLog(logs, es), from) == LogEntries(logs, from) + es
  {
    var r := AppendLog(logs, es);
    assert r[..|r| - 1] == logs[..|logs| - 1];
  }

  lemma {:induction false} LogStarted(logs: seq<LogFile>, number: nat, from: nat)
    ensures LogEntries(logs + [LogFile(number, [])], from) == LogEntries(logs, from)
  {
    var r := logs + [LogFile(number, [])];
    assert r[..|r| - 1] == logs;
  }

  /** Logs older than `from` do not matter. */
  lemma {:induction false} NoSuchLogs(logs: seq<LogFile>, from: nat)
    requires forall i :: 0 <= i < |logs| ==> logs[i].number < from
    ensures LogEntries(logs, from) == []
  {
    if logs != [] {
      NoSuchLogs(logs[..|logs| - 1], from);
    }
  }

  lemma RangeGrows(ops: seq<Op>, more: seq<Op>, from: nat, to: nat)
    requires from <= to <= |ops|
    ensures Range(ops + more, from, to) == Range(ops, from, to) && Span(ops + more, from, to) == Span(ops, from, to)
  {
    forall i: nat | i < |ops|
      ensures EntryOf(ops + more, i) == EntryOf(ops, i)
    {
    }
  }

  lemma RangeSplits(ops: seq<Op>, a: nat, b: nat, c: nat)
    requires a <= b <= c <= |ops|
    ensures Range(ops, a, c) == Range(ops, a, b) + Range(ops, b, c)
  {
  }

  /** More history changes nothing for the tables, the memtables and the readers. */
  lemma TableInvExtends(v: Version, ops: seq<Op>, floor: nat, flushed: nat, more: seq<Op>)
    requires TableInv(v, ops, floor, flushed) && |ops + more| <= MAX_SEQUENCE
    ensures TableInv(v, ops + more, floor, flushed)
  {
    hide Good;
    AgreesExtends(VersionEntries(v), ops, more, floor, flushed);
    forall e | e in VersionEntries(v)
      ensures 0 < e.key.sn <= |ops + more| && e == EntryOf(ops + more, e.key.sn - 1)
    {
    }
  }

  lemma ReadersInvExtends(readers: seq<Reader>, ops: seq<Op>, more: seq<Op>, tables: map<nat, seq<Entry>>,
                          nextFile: nat)
    requires ReadersInv(readers, ops, tables, nextFile)
    ensures ReadersInv(readers, ops + more, tables, nextFile)
  {
    hide AllPresent, VersionBelow, Lookup, Live, AsOf, Searchable;
    forall i | 0 <= i < |readers|
      ensures ReaderInv(readers[i], ops + more, tables, nextFile)
    {
      assert ReaderInv(readers[i], ops, tables, nextFile);
      AsOfExtends(ops, more, readers[i].snapshot);
    }
  }

  // ----- Allocating a file number keeps every bound

  lemma ManifestMoreFiles(manifest: seq<Edit>, v: Version, logNumber: nat, flushed: nat, ops: nat, nextFile: nat,
                          more: nat)
    requires ManifestInv(manifest, v, logNumber, flushed, ops, nextFile) && nextFile <= more
    ensures ManifestInv(manifest, v, logNumber, flushed, ops, more)
  {
    hide Replayable, Build, VersionBelow, ManifestNumbers;
  }

  lemma JobMoreFiles(job: Option<Job>, v: Version, tables: map<nat, seq<Entry>>, nextFile: nat, lastSequence: nat,
                     snapshots: seq<nat>)
    requires JobInv(job, v, tables, nextFile, lastSequence, snapshots)
    ensures JobInv(job, v, tables, nextFile + 1, lastSequence, snapshots)
  {
    hide Pending, Connected, MergedInput, AllPresent, Kept, Flatten, EntriesOf, ValidFile, NumbersApart;
  }

  lemma ReadersMoreFiles(readers: seq<Reader>, ops: seq<Op>, tables: map<nat, seq<Entry>>, nextFile: nat)
    requires ReadersInv(readers, ops, tables, nextFile)
    ensures ReadersInv(readers, ops, tables, nextFile + 1)
  {
    hide Lookup, Live, Searchable, AllPresent;
    forall i | 0 <= i < |readers|
      ensures ReaderInv(readers[i], ops, tables, nextFile + 1)
    {
      assert ReaderInv(readers[i], ops, tables, nextFile);
    }
  }

  // ----- The steps

  lemma EnqueueKeeps(s: State, s': State, w: Writer)
    requires s.Up? && UpInv(s) && Enqueue(s, s', w)
    ensures UpInv(s')
  {
    hide Counters, MemInv, LogInv, TableInv, ManifestInv, NewNumbers, AllPresent, VersionBelow, FlushInv, JobInv;
    hide ChangeInv, SnapshotInv, SharedInv, ReadersInv;
    hide ApplyEdit;
    var n := s.q.finished + LoggedSize(s.phase);
    assert s'.q.arrived[..n] == s.q.arrived[..n];
    assert s'.q.arrived[..s.q.finished] == s.q.arrived[..s.q.finished];
  }

  lemma LeadEmptyKeeps(s: State, s': State)
    requires s.Up? && UpInv(s) && LeadEmpty(s, s')
    ensures UpInv(s')
  {
    hide Counters, MemInv, LogInv, TableInv, ManifestInv, NewNumbers, AllPresent, VersionBelow, FlushInv, JobInv;
    hide ChangeInv, SnapshotInv, SharedInv, ReadersInv;
    hide ApplyEdit;
    var done := s.q.arrived[..s.q.finished];
    assert s.q.arrived[..s.q.finished + 1] == done + [s.writers[0]];
    OpsConcat(done, [s.writers[0]]);
    assert [s.writers[0]][..0] == [] && Ops([]) == [];
    assert Ops([s.writers[0]]) == [];
  }

  lemma BuildGroupKeeps(s: State, s': State, n: nat)
    requires s.Up? && UpInv(s) && BuildGroup(s, s', n)
    ensures UpInv(s')
  {
    hide Counters, MemInv, LogInv, TableInv, ManifestInv, NewNumbers, AllPresent, VersionBelow, FlushInv, JobInv;
    hide ChangeInv, SnapshotInv, SharedInv, ReadersInv;
    hide ApplyEdit;
    forall i | 0 <= i < n && s.writers[i].sync
      ensures s.writers[0].sync
    {
      assert 0 < i ==> Joins(s.writers, i);
    }
  }

  lemma FinishGroupKeeps(s: State, s': State)
    requires s.Up? && UpInv(s) && FinishGroup(s, s')
    ensures UpInv(s')
  {
    hide MemInv, LogInv, TableInv, ManifestInv, NewNumbers, AllPresent, VersionBelow, FlushInv, ChangeInv, SharedInv;
    hide ReadersInv, ApplyEdit;
    hide Pending, Connected, MergedInput, OutputsInv, Ops;
  }

  lemma InsertOneKeeps(s: State, s': State)
    requires s.Up? && UpInv(s) && InsertOne(s, s')
    ensures UpInv(s')
  {
    hide MemInv, LogInv, TableInv, ManifestInv, NewNumbers, AllPresent, VersionBelow, FlushInv, JobInv, ChangeInv;
    hide SnapshotInv, SharedInv, ReadersInv, ApplyEdit;
    hide MemAdd, SeeInsert;
    MemInsert(s.mem, s.imm, s.h.ops, s.h.flushed, s.h.frozen, s.h.applied);
    ReadersSeeInsert(s.readers, s.mem, s.h.ops, s.h.applied, s.disk.tables, s.nextFile);
  }

  /** An insertion into a memtable that readers share changes nothing they see at their snapshots. */
  lemma {:induction false} ReadersSeeInsert(readers: seq<Reader>, mem: seq<Entry>, ops: seq<Op>, applied: nat,
                                            tables: map<nat, seq<Entry>>, nextFile: nat)
    requires ReadersInv(readers, ops, tables, nextFile) && SharedInv(readers, mem, applied) && applied < |ops|
    ensures var e := EntryOf(ops, applied);
            var readers' := SeeInsert(readers, e);
            ReadersInv(readers', ops, tables, nextFile) && SharedInv(readers', MemAdd(mem, e), applied + 1)
  {
    var e := EntryOf(ops, applied);
    hide ReaderInv, SharedAt, MemAdd;
    forall i | 0 <= i < |readers|
      ensures ReaderInv(SeeInsert(readers, e)[i], ops, tables, nextFile)
      ensures SharedAt(SeeInsert(readers, e)[i], MemAdd(mem, e), applied + 1)
    {
      assert ReaderInv(readers[i], ops, tables, nextFile) && SharedAt(readers[i], mem, applied);
      ReaderSeesInsert(readers[i], mem, ops, applied, tables, nextFile);
    }
  }

  lemma {:induction false} ReaderSeesInsert(r: Reader, mem: seq<Entry>, ops: seq<Op>, applied: nat, tables: map<nat,
                                            seq<Entry>>, nextFile: nat)
    requires ReaderInv(r, ops, tables, nextFile) && SharedAt(r, mem, applied) && applied < |ops|
    ensures var e := EntryOf(ops, applied);
            var r' := if r.shared then r.(mem := MemAdd(r.mem, e)) else r;
            ReaderInv(r', ops, tables, nextFile) && SharedAt(r', MemAdd(mem, e), applied + 1)
  {
    hide AllPresent, VersionBelow, ValidVersion, AsOf;
    if r.shared {
      var e := EntryOf(ops, applied);
      var r' := r.(mem := MemAdd(r.mem, e));
      LateInsert(r.mem, r.imm, r.version, e, applied);
      var live, live' := Live(r.mem, r.imm, r.version), Live(r'.mem, r.imm, r.version);
      hide Live, Searchable, Lookup;
      forall k
        ensures Lookup(live', k, r.snapshot) == Lookup(live, k, r.snapshot)
      {
        LookupSameVisible(live', live, k, r.snapshot, r.snapshot);
      }
    }
  }

  lemma {:induction false} LateInsert(mem: seq<Entry>, imm: Option<seq<Entry>>, v: Version, e: Entry, applied: nat)
    requires Searchable(mem, imm, v) && e.key.sn > applied && forall x :: x in Live(mem, imm, v) ==> x.key.sn <= applied
    ensures Searchable(MemAdd(mem, e), imm, v) && Live(MemAdd(mem, e), imm, v) == Live(mem, imm, v) + {e}
    ensures Unique(Live(mem, imm, v)) && Unique(Live(MemAdd(mem, e), imm, v))
  {
    hide ValidVersion;
    forall i | 0 <= i < |mem|
      ensures mem[i].key.sn != e.key.sn
    {
      assert mem[i] in Members(mem);
    }
    MemAddKeeps(mem, e);
    hide MemAdd, Sorted;
    var mem' := MemAdd(mem, e);
    assert Live(mem', imm, v) == Live(mem, imm, v) + {e};
  }

  lemma {:induction false} MemInsert(mem: seq<Entry>, imm: Option<seq<Entry>>, ops: seq<Op>, flushed: nat,
                                     frozen: nat, applied: nat)
    requires MemInv(mem, imm, ops, flushed, frozen, applied) && applied < |ops|
    ensures MemInv(MemAdd(mem, EntryOf(ops, applied)), imm, ops, flushed, frozen, applied + 1)
  {
    var e := EntryOf(ops, applied);
    forall i | 0 <= i < |mem|
      ensures mem[i].key.sn != e.key.sn
    {
      assert mem[i] in Members(mem);
    }
    MemAddKeeps(mem, e);
  }

  lemma AppendGroupKeeps(s: State, s': State)
    requires s.Up? && UpInv(s) && AppendGroup(s, s')
    ensures UpInv(s')
  {
    hide MemInv, LogInv, TableInv, ManifestInv, NewNumbers, AllPresent, VersionBelow, FlushInv, JobInv, ChangeInv;
    hide SnapshotInv, SharedInv, ReadersInv, ApplyEdit;
    hide Ops, Range, AppendLog;
    var more := Ops(s.writers[..s.phase.n]);
    GroupAppended(s.writers, s.phase.n, s.q, s.h.ops);
    TableInvExtends(s.current, s.h.ops, s.h.floor, s.h.flushed, more);
    ReadersInvExtends(s.readers, s.h.ops, more, s.disk.tables, s.nextFile);
    LogsAppended(s.disk.logs, s.logNumber, s.logfile, s.nextFile, s.h.ops, more, s.h.flushed, s.h.frozen);
    MemExtends(s.mem, s.imm, s.h.ops, more, s.h.flushed, s.h.frozen, s.h.applied);
    ManifestExtends(s.disk.manifest, DurableVersion(s), DurableLog(s), DurableFlushed(s), |s.h.ops|,
        |s.h.ops + more|, s.nextFile);
  }

  lemma MemExtends(mem: seq<Entry>, imm: Option<seq<Entry>>, ops: seq<Op>, more: seq<Op>, flushed: nat, frozen: nat,
                   applied: nat)
    requires MemInv(mem, imm, ops, flushed, frozen, applied)
    ensures MemInv(mem, imm, ops + more, flushed, frozen, applied)
  {
    RangeGrows(ops, more, frozen, applied);
    RangeGrows(ops, more, flushed, frozen);
    hide Sorted, Members, Span;
  }

  lemma ManifestExtends(manifest: seq<Edit>, v: Version, logNumber: nat, flushed: nat, ops: nat, ops': nat,
                        nextFile: nat)
    requires ManifestInv(manifest, v, logNumber, flushed, ops, nextFile) && ops <= ops'
    ensures ManifestInv(manifest, v, logNumber, flushed, ops', nextFile)
  {
    hide Replayable, Build, VersionBelow, ManifestNumbers;
  }

  lemma GroupAppended(writers: seq<Writer>, n: nat, q: Queue, ops: seq<Op>)
    requires q.finished <= |q.arrived| && writers == q.arrived[q.finished..] && n <= |writers|
    requires ops == Ops(q.arrived[..q.finished])
    ensures ops + Ops(writers[..n]) == Ops(q.arrived[..q.finished + n])
  {
    OpsConcat(q.arrived[..q.finished], writers[..n]);
    assert q.arrived[..q.finished] + writers[..n] == q.arrived[..q.finished + n];
  }

  lemma LogsAppended(logs: seq<LogFile>, logNumber: nat, logfile: nat, nextFile: nat, ops: seq<Op>, more: seq<Op>,
                     flushed: nat, frozen: nat)
    requires LogInv(logs, logNumber, logfile, nextFile, ops, flushed, frozen)
    ensures LogInv(AppendLog(logs, Range(ops + more, |ops|, |ops + more|)), logNumber, logfile, nextFile, ops + more,
              flushed, frozen)
  {
    var ops', es := ops + more, Range(ops + more, |ops|, |ops + more|);
    LogAppended(logs, es, logNumber);
    LogAppended(logs, es, logfile);
    RangeGrows(ops, more, flushed, |ops|);
    RangeGrows(ops, more, frozen, |ops|);
    RangeSplits(ops', flushed, |ops|, |ops'|);
    RangeSplits(ops', frozen, |ops|, |ops'|);
    hide Range, LogEntries;
  }

  lemma SwitchMemTableKeeps(s: State, s': State)
    requires s.Up? && UpInv(s) && SwitchMemTable(s, s')
    ensures UpInv(s')
  {
    hide MemInv, LogInv, TableInv, ManifestInv, NewNumbers, AllPresent, VersionBelow, FlushInv, JobInv, ChangeInv;
    hide SnapshotInv, SharedInv, ReadersInv, ApplyEdit;
    LogsSwitched(s.disk.logs, s.logNumber, s.logfile, s.nextFile, s.h.ops, s.h.flushed, s.h.frozen);
    MemSwitched(s.mem, s.h.ops, s.h.flushed, s.h.frozen, s.h.applied);
    hide Unshare;
    ReadersMoreFiles(s.readers, s.h.ops, s.disk.tables, s.nextFile);
    ReadersUnshared(s.readers, s.mem, s.h.applied, s.h.ops, s.disk.tables, s.nextFile + 1);
    JobMoreFiles(s.job, s.current, s.disk.tables, s.nextFile, s.lastSequence, s.snapshots);
    NoFlushWithoutImm(s.flushing, s.imm, s.current, s.disk.tables, s.nextFile, s.mem);
    if s.installing.Some? {
      ChangeSwitched(s.installing.value, s.flushing, s.job, s.current, s.logNumber, s.logfile, s.nextFile, s.mem);
    }
    ManifestMoreFiles(s.disk.manifest, DurableVersion(s), DurableLog(s), DurableFlushed(s), |s.h.ops|, s.nextFile,
        s.nextFile + 1);
    BelowMore(s.current, s.nextFile, s.nextFile + 1);
  }

  lemma ReadersUnshared(readers: seq<Reader>, mem: seq<Entry>, applied: nat, ops: seq<Op>, tables: map<nat,
                        seq<Entry>>, nextFile: nat)
    requires ReadersInv(readers, ops, tables, nextFile) && SharedInv(readers, mem, applied)
    ensures ReadersInv(Unshare(readers), ops, tables, nextFile) && SharedInv(Unshare(readers), [], applied)
  {
    hide AllPresent, VersionBelow, Searchable, Lookup, Live, AsOf;
    var readers' := Unshare(readers);
    forall i | 0 <= i < |readers|
      ensures ReaderInv(readers'[i], ops, tables, nextFile) && SharedAt(readers'[i], [], applied)
    {
      assert ReaderInv(readers[i], ops, tables, nextFile) && SharedAt(readers[i], mem, applied);
    }
  }

  lemma BelowMore(v: Version, n: nat, more: nat)
    requires VersionBelow(v, n) && n <= more
    ensures VersionBelow(v, more)
  {
  }

  lemma NoFlushWithoutImm(flushing: Option<File>, imm: Option<seq<Entry>>, v: Version, tables: map<nat, seq<Entry>>,
                          nextFile: nat, mem: seq<Entry>)
    requires FlushInv(flushing, imm, v, tables, nextFile) && imm.None?
    ensures flushing.None? && FlushInv(flushing, Some(mem), v, tables, nextFile + 1)
  {
  }

  lemma ChangeSwitched(c: Change, flushing: Option<File>, job: Option<Job>, v: Version, logNumber: nat, logfile: nat,
                       logfile': nat, mem: seq<Entry>)
    requires ChangeInv(c, flushing, None, job, v, logNumber, logfile) && flushing.None?
    ensures !IsFlush(c) && ChangeInv(c, flushing, Some(mem), job, v, logNumber, logfile')
  {
    hide Fits, JobKept, JobEdit, InstallEdit, Selection, FlushEdit;
  }

  lemma MemSwitched(mem: seq<Entry>, ops: seq<Op>, flushed: nat, frozen: nat, applied: nat)
    requires MemInv(mem, None, ops, flushed, frozen, applied)
    ensures MemInv([], Some(mem), ops, flushed, applied, applied)
  {
    assert Span(ops, applied, applied) == {};
  }

  lemma LogsSwitched(logs: seq<LogFile>, logNumber: nat, logfile: nat, nextFile: nat, ops: seq<Op>, flushed: nat,
                     frozen: nat)
    requires LogInv(logs, logNumber, logfile, nextFile, ops, flushed, frozen)
    ensures LogInv(logs + [LogFile(nextFile, [])], logNumber, nextFile, nextFile + 1, ops, flushed, |ops|)
  {
    LogStarted(logs, nextFile, logNumber);
    LogStarted(logs, nextFile, nextFile);
    NoSuchLogs(logs, nextFile);
    assert Range(ops, |ops|, |ops|) == [];
  }
}
