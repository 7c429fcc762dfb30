/** Which log records are on stable storage. The store's state is accompanied by a list of where the records of
    each log end and how many of them are synced; a leader that asks for it syncs its record before it
    inserts. In every state of every run, each operation of a finished sync write is in a table or in a
    synced record. */
module StoreSync {
  import opened Keys
  import opened Versions
  import opened Inputs
  import opened VersionBuilder
  import opened Compaction
  import opened Levels
  import opened Store
  import opened StoreWrites
  import opened StoreManifest
  import opened StoreInstall
  import opened StoreRecovery
  import opened StoreRuns
  import Seqs

  // ----- The records of the logs

  /** A log that begins after `start` operations; record `r` ends after `ends[r]` operations; the first
      `synced` records are on stable storage. */
  datatype Marks = Marks(number: nat, start: nat, ends: seq<nat>, synced: nat)

  datatype Tracked = Tracked(s: State, logs: seq<Marks>)

  /** The operations up to the end of the first `n` records. */
  function CutAt(m: Marks, n: nat): nat
    requires n <= |m.ends|
  {
    if n == 0 then m.start else m.ends[n - 1]
  }

  function EndOf(m: Marks): nat {
    CutAt(m, |m.ends|)
  }

  ghost predicate Ascending(m: Marks) {
    forall a, b :: 0 <= a <= b <= |m.ends| ==> CutAt(m, a) <= CutAt(m, b)
  }

  /** The log holds exactly the operations of its records. */
  ghost predicate MarksFit(m: Marks, f: LogFile, ops: seq<Op>) {
    && Ascending(m) && m.synced <= |m.ends| && m.start <= EndOf(m) <= |ops|
    && f.entries == Range(ops, m.start, EndOf(m))
  }

  ghost predicate SameNumbers(ms: seq<Marks>, logs: seq<LogFile>) {
    |ms| == |logs| && forall i :: 0 <= i < |ms| ==> ms[i].number == logs[i].number
  }

  ghost predicate FirstFrom(ms: seq<Marks>, from: nat, i: nat) {
    i < |ms| && ms[i].number >= from && (i > 0 ==> ms[i - 1].number < from)
  }

  /** The logs from number `from` on follow each other without a gap, from `flushed` to the last operation. */
  ghost predicate Follows(ms: seq<Marks>, from: nat, flushed: nat, ops: nat) {
    && ms != [] && EndOf(ms[|ms| - 1]) == ops
    && (forall i: nat :: FirstFrom(ms, from, i) ==> ms[i].start == flushed)
    && (forall i :: 0 < i < |ms| && ms[i - 1].number >= from ==> ms[i].start == EndOf(ms[i - 1]))
  }

  ghost predicate LogsFit(ms: seq<Marks>, logs: seq<LogFile>, from: nat, ops: seq<Op>) {
    SameNumbers(ms, logs) && forall i :: 0 <= i < |ms| && ms[i].number >= from ==> MarksFit(ms[i], logs[i], ops)
  }

  // ----- Sync writes

  /** Operation `x` belongs to a sync write that is done. */
  ghost predicate SyncOp(q: Queue, x: nat) {
    exists j :: 0 <= j < q.finished <= |q.arrived| && q.arrived[j].sync
        && |Ops(q.arrived[..j])| <= x < |Ops(q.arrived[..j + 1])|
  }

  /** Operation `x` is in a synced record of a log numbered from `from` on. */
  ghost predicate SyncedAt(ms: seq<Marks>, from: nat, x: nat) {
    exists i :: 0 <= i < |ms| && ms[i].number >= from && SyncedIn(ms[i], x)
  }

  ghost predicate SyncedIn(m: Marks, x: nat) {
    m.synced <= |m.ends| && m.start <= x < CutAt(m, m.synced)
  }

  ghost predicate SyncsKept(ms: seq<Marks>, from: nat, flushed: nat, q: Queue) {
    forall x: nat :: SyncOp(q, x) ==> x < flushed || SyncedAt(ms, from, x)
  }

  /** A sync leader inserts only after its record is synced. */
  ghost predicate LeaderSynced(s: State, ms: seq<Marks>)
    requires s.Up?
  {
    s.phase.Logged? && s.writers != [] && s.writers[0].sync && ms != [] ==>
      var m := ms[|ms| - 1];
      m.synced == |m.ends|
  }

  ghost predicate TrackInv(t: Tracked) {
    if t.s.Up? then
      && LogsFit(t.logs, t.s.disk.logs, t.s.logNumber, t.s.h.ops)
      && Follows(t.logs, t.s.logNumber, t.s.h.flushed, |t.s.h.ops|)
      && t.logs[|t.logs| - 1].start == t.s.h.frozen
      && SyncsKept(t.logs, t.s.logNumber, t.s.h.flushed, t.s.q)
    else
      SameNumbers(t.logs, t.s.disk.logs)
  }

  // ----- Steps

  datatype TStep = Do(step: Step) | Sync

  function NewLog(number: nat, ops: nat): Marks {
    Marks(number, ops, [], 0)
  }

  function AddRecord(ms: seq<Marks>, end: nat): seq<Marks>
    requires ms != []
  {
    var m := ms[|ms| - 1];
    ms[..|ms| - 1] + [m.(ends := m.ends + [end])]
  }

  function SyncLast(ms: seq<Marks>): seq<Marks>
    requires ms != []
  {
    var m := ms[|ms| - 1];
    ms[..|ms| - 1] + [m.(synced := |m.ends|)]
  }

  /** The records after a step: a new log without records, one more record, a log less, or no change. */
  ghost function MarksAfter(t: Tracked, s': State, step: Step): seq<Marks> {
    match step
    case StepSwitch => if t.s.Up? then t.logs + [NewLog(t.s.nextFile, |t.s.h.ops|)] else t.logs
    case StepAppend => if t.logs != [] then AddRecord(t.logs, |s'.h.ops|) else t.logs
    case StepDeleteLog(i) => if i < |t.logs| then t.logs[..i] + t.logs[i + 1..] else t.logs
    case StepReopen(_, _, log) => t.logs + [NewLog(log, |t.s.h.ops|)]
    case StepFailedReopen(n, _) => if s'.disk.logs == t.s.disk.logs then t.logs else t.logs + [NewLog(n, |t.s.h.ops|)]
    case _ => t.logs
  }

  ghost predicate TDoes(t: Tracked, t': Tracked, step: TStep) {
    match step
    case Sync => t.s.Up? && t.s.phase.Logged? && t.logs != [] && t' == t.(logs := SyncLast(t.logs))
    case Do(d) =>
      && Does(t.s, t'.s, d) && t'.logs == MarksAfter(t, t'.s, d)
      && ((d.StepInsert? || d.StepFinish?) && t.s.Up? ==> LeaderSynced(t.s, t.logs))
  }

  ghost predicate IsTrackedRun(run: seq<Tracked>, steps: seq<TStep>) {
    && |run| == |steps| + 1 && Init(run[0].s) && run[0].logs == []
    && forall i :: 0 <= i < |steps| ==> TDoes(run[i], run[i + 1], steps[i])
  }

  // ----- Facts about the records

  /** A log ends before every later needed one begins. */
  lemma {:induction false} EndsBefore(ms: seq<Marks>, logs: seq<LogFile>, from: nat, flushed: nat, ops: seq<Op>,
                                      i: nat, j: nat)
    requires LogsFit(ms, logs, from, ops) && Follows(ms, from, flushed, |ops|) && Increasing(logs)
    requires i < j < |ms| && ms[i].number >= from
    ensures EndOf(ms[i]) <= ms[j].start
  {
    hide MarksFit;
    assert ms[j - 1].number >= from by {
      assert i == j - 1 || logs[i].number < logs[j - 1].number;
    }
    if i < j - 1 {
      EndsBefore(ms, logs, from, flushed, ops, i, j - 1);
      LogBounds(ms, logs, from, ops, j - 1);
    }
  }

  lemma LogBounds(ms: seq<Marks>, logs: seq<LogFile>, from: nat, ops: seq<Op>, i: nat)
    requires LogsFit(ms, logs, from, ops) && i < |ms| && ms[i].number >= from
    ensures ms[i].synced <= |ms[i].ends| && ms[i].start <= CutAt(ms[i], ms[i].synced) <= EndOf(ms[i]) <= |ops|
  {
    var m := ms[i];
    assert MarksFit(m, logs[i], ops);
    assert CutAt(m, 0) <= CutAt(m, m.synced) <= CutAt(m, |m.ends|);
  }

  lemma {:induction false} OpsPrefix(ws: seq<Writer>, n: nat)
    requires n <= |ws|
    ensures |Ops(ws[..n])| <= |Ops(ws)|
  {
    assert ws == ws[..n] + ws[n..];
    OpsConcat(ws[..n], ws[n..]);
  }

  lemma SyncOpBound(q: Queue, x: nat)
    requires SyncOp(q, x) && q.finished <= |q.arrived|
    ensures x < |Ops(q.arrived[..q.finished])|
  {
    var j :| 0 <= j < q.finished <= |q.arrived| && q.arrived[j].sync
        && |Ops(q.arrived[..j])| <= x < |Ops(q.arrived[..j + 1])|;
    OpsPrefix(q.arrived[..q.finished], j + 1);
    assert q.arrived[..q.finished][..j + 1] == q.arrived[..j + 1];
  }

  // ----- Each step

  /** What the steps need of the store's invariant. */
  ghost predicate Basics(s: State)
    requires s.Up?
  {
    && Increasing(s.disk.logs) && s.disk.logs != [] && s.disk.logs[|s.disk.logs| - 1].number == s.logfile < s.nextFile
    && s.logNumber <= s.logfile
    && s.h.flushed <= s.h.frozen <= s.lastSequence <= |s.h.ops|
    && s.q.finished <= |s.q.arrived| && s.writers == s.q.arrived[s.q.finished..]
    && GroupSize(s.phase) <= |s.writers|
    && (!s.phase.Idle? ==> s.phase.n > 0 && forall i :: 0 <= i < s.phase.n && s.writers[i].sync ==> s.writers[0].sync)
    && s.h.ops == Ops(s.q.arrived[..s.q.finished + LoggedSize(s.phase)])
    && s.lastSequence == |Ops(s.q.arrived[..s.q.finished])|
    && (!s.phase.Logged? ==> s.h.applied == |s.h.ops| == s.lastSequence)
  }

  lemma UpBasics(s: State)
    requires s.Up? && UpInv(s)
    ensures Basics(s)
  {
    hide MemInv, TableInv, ManifestInv, NewNumbers, AllPresent, VersionBelow, FlushInv, JobInv, ChangeInv, SnapshotInv;
    hide SharedInv, ReadersInv, ApplyEdit;
    hide Replays, Ops;
  }

  /** Steps that touch neither logs nor history nor queue. */
  ghost predicate Untouched(s: State, s': State) {
    && s.Up? && s'.Up? && s'.disk.logs == s.disk.logs && s'.logNumber == s.logNumber && s'.q == s.q
    && s'.h.ops == s.h.ops && s'.h.flushed == s.h.flushed && s'.h.frozen == s.h.frozen
  }

  lemma UntouchedKeeps(t: Tracked, t': Tracked)
    requires TrackInv(t) && Untouched(t.s, t'.s) && t'.logs == t.logs
    ensures TrackInv(t')
  {
    hide LogsFit, Follows, SyncsKept;
  }

  /** The finished writers are the same, or one without a batch joins them. */
  lemma SameSyncOps(q: Queue, q': Queue, x: nat)
    requires q.finished <= |q.arrived| && q.arrived <= q'.arrived && SyncOp(q', x)
    requires || q'.finished == q.finished
             || (q'.finished == q.finished + 1 <= |q.arrived| && q.arrived[q.finished].batch.None?)
    ensures SyncOp(q, x)
  {
    hide SyncOp;
    var j := SyncWriter(q', x);
    assert q'.arrived[..j] == q.arrived[..j] && q'.arrived[..j + 1] == q.arrived[..j + 1];
    NoOps(q.arrived, j);
    hide Ops;
    IsSyncOp(q, j, x);
  }

  lemma NoOps(ws: seq<Writer>, j: nat)
    requires j < |ws|
    ensures ws[j].batch.None? ==> Ops(ws[..j + 1]) == Ops(ws[..j])
  {
    assert ws[..j + 1][..j] == ws[..j];
  }

  lemma QueueKeeps(t: Tracked, t': Tracked)
    requires TrackInv(t) && t.s.Up? && t'.s.Up? && t'.logs == t.logs && Untouched(t.s, t'.s.(q := t.s.q))
    requires t.s.q.finished <= |t.s.q.arrived| && t.s.q.arrived <= t'.s.q.arrived
    requires || t'.s.q.finished == t.s.q.finished
             || (t'.s.q.finished == t.s.q.finished + 1 <= |t.s.q.arrived| && t.s.q.arrived[t.s.q.finished].batch.None?)
    ensures TrackInv(t')
  {
    hide LogsFit, Follows, SyncedAt, SyncOp;
    forall x: nat | SyncOp(t'.s.q, x)
      ensures SyncOp(t.s.q, x)
    {
      SameSyncOps(t.s.q, t'.s.q, x);
    }
  }

  // ----- A new log

  lemma NewLogFits(ms: seq<Marks>, logs: seq<LogFile>, from: nat, ops: seq<Op>, number: nat)
    requires LogsFit(ms, logs, from, ops)
    ensures LogsFit(ms + [NewLog(number, |ops|)], logs + [LogFile(number, [])], from, ops)
  {
    var ms', logs' := ms + [NewLog(number, |ops|)], logs + [LogFile(number, [])];
    forall i | 0 <= i < |ms'| && ms'[i].number >= from
      ensures MarksFit(ms'[i], logs'[i], ops)
    {
      if i < |ms| {
        assert ms'[i] == ms[i] && logs'[i] == logs[i];
        hide MarksFit;
      } else {
        assert Range(ops, |ops|, |ops|) == [];
      }
    }
  }

  lemma NewLogFollows(ms: seq<Marks>, from: nat, flushed: nat, ops: nat, number: nat)
    requires Follows(ms, from, flushed, ops) && ms[|ms| - 1].number >= from
    ensures Follows(ms + [NewLog(number, ops)], from, flushed, ops)
  {
    assert EndOf(NewLog(number, ops)) == ops;
  }

  lemma MoreLogs(ms: seq<Marks>, m: Marks, from: nat, flushed: nat, q: Queue)
    requires SyncsKept(ms, from, flushed, q)
    ensures SyncsKept(ms + [m], from, flushed, q)
  {
    hide SyncOp, SyncedIn;
    forall x: nat | SyncedAt(ms, from, x)
      ensures SyncedAt(ms + [m], from, x)
    {
      var i :| 0 <= i < |ms| && ms[i].number >= from && SyncedIn(ms[i], x);
      assert (ms + [m])[i] == ms[i];
    }
  }

  lemma SwitchTracked(t: Tracked, t': Tracked)
    requires TrackInv(t) && t.s.Up? && Basics(t.s) && SwitchMemTable(t.s, t'.s)
    requires t'.logs == t.logs + [NewLog(t.s.nextFile, |t.s.h.ops|)]
    ensures TrackInv(t')
  {
    hide SyncsKept, MarksFit, Follows, Ops;
    assert t.logs[|t.logs| - 1].number >= t.s.logNumber;
    NewLogFits(t.logs, t.s.disk.logs, t.s.logNumber, t.s.h.ops, t.s.nextFile);
    NewLogFollows(t.logs, t.s.logNumber, t.s.h.flushed, |t.s.h.ops|, t.s.nextFile);
    MoreLogs(t.logs, NewLog(t.s.nextFile, |t.s.h.ops|), t.s.logNumber, t.s.h.flushed, t.s.q);
  }

  /** Every log before a reopening is obsolete, and everything is in tables. */
  lemma ReopenTracked(t: Tracked, t': Tracked, news: seq<File>, starts: seq<nat>, log: nat)
    requires TrackInv(t) && t.s.Down? && DownInv(t.s.disk, t.s.h, t.s.q) && Reopen(t.s, t'.s, news, starts, log)
    requires t'.logs == t.logs + [NewLog(log, |t.s.h.ops|)]
    ensures TrackInv(t')
  {
    hide ManifestInv, TableInv, AllPresent, Replays, Build, PiecesOf, RisingNumbers, SnapshotAdded, ApplyEdit;
    hide MaxSequence, LogEntries;
    var ms, ops := t.logs, t.s.h.ops;
    assert forall i :: 0 <= i < |ms| ==> ms[i].number < log;
    assert LogsFit(ms, t.s.disk.logs, log, ops);
    NewLogFits(ms, t.s.disk.logs, log, ops, log);
    assert forall i: nat :: FirstFrom(t'.logs, log, i) ==> i == |ms|;
    forall x: nat | SyncOp(t.s.q, x)
      ensures x < |ops|
    {
      SyncOpBound(t.s.q, x);
      Seqs.WholeSlice(t.s.q.arrived);
    }
    hide SyncOp, LogsFit;
  }

  // ----- One more record

  lemma RecordFits(ms: seq<Marks>, logs: seq<LogFile>, from: nat, ops: seq<Op>, more: seq<Op>)
    requires LogsFit(ms, logs, from, ops) && ms != [] && ms[|ms| - 1].number >= from && EndOf(ms[|ms| - 1]) == |ops|
    ensures LogsFit(AddRecord(ms, |ops + more|), AppendLog(logs, Range(ops + more, |ops|, |ops + more|)),
              from, ops + more)
  {
    var ms', logs' := AddRecord(ms, |ops + more|), AppendLog(logs, Range(ops + more, |ops|, |ops + more|));
    forall i | 0 <= i < |ms'| && ms'[i].number >= from
      ensures MarksFit(ms'[i], logs'[i], ops + more)
    {
      assert MarksFit(ms[i], logs[i], ops);
      RangeGrows(ops, more, ms[i].start, EndOf(ms[i]));
      if i == |ms| - 1 {
        RecordAscends(ms[i], |ops + more|);
        RangeSplits(ops + more, ms[i].start, |ops|, |ops + more|);
      }
    }
  }

  lemma RecordAscends(m: Marks, end: nat)
    requires Ascending(m) && EndOf(m) <= end
    ensures Ascending(m.(ends := m.ends + [end])) && EndOf(m.(ends := m.ends + [end])) == end
    ensures forall n :: 0 <= n <= |m.ends| ==> CutAt(m.(ends := m.ends + [end]), n) == CutAt(m, n)
  {
    var m' := m.(ends := m.ends + [end]);
    forall a, b | 0 <= a <= b <= |m'.ends|
      ensures CutAt(m', a) <= CutAt(m', b)
    {
      if b == |m'.ends| && a < b {
        assert CutAt(m, a) <= CutAt(m, |m.ends|);
      } else if b < |m'.ends| {
        assert CutAt(m, a) <= CutAt(m, b);
      }
    }
  }

  lemma RecordFollows(ms: seq<Marks>, from: nat, flushed: nat, ops: nat, end: nat)
    requires Follows(ms, from, flushed, ops)
    ensures Follows(AddRecord(ms, end), from, flushed, end)
  {
    SameStarts(ms, AddRecord(ms, end), from);
  }

  lemma SameStarts(ms: seq<Marks>, ms': seq<Marks>, from: nat)
    requires |ms'| == |ms| && forall i :: 0 <= i < |ms| ==> ms'[i].number == ms[i].number
    ensures forall i: nat :: FirstFrom(ms', from, i) ==> FirstFrom(ms, from, i)
  {
  }

  /** A later last log, with as many synced records or more, keeps what was synced. */
  lemma SyncedStays(ms: seq<Marks>, m: Marks, from: nat, flushed: nat, q: Queue)
    requires SyncsKept(ms, from, flushed, q) && ms != [] && m.number == ms[|ms| - 1].number
    requires m.start == ms[|ms| - 1].start
    requires ms[|ms| - 1].synced <= |ms[|ms| - 1].ends| ==>
               m.synced <= |m.ends| && CutAt(ms[|ms| - 1], ms[|ms| - 1].synced) <= CutAt(m, m.synced)
    ensures SyncsKept(ms[..|ms| - 1] + [m], from, flushed, q)
  {
    hide SyncOp;
    var ms' := ms[..|ms| - 1] + [m];
    forall x: nat | SyncedAt(ms, from, x)
      ensures SyncedAt(ms', from, x)
    {
      var i :| 0 <= i < |ms| && ms[i].number >= from && SyncedIn(ms[i], x);
      assert i < |ms| - 1 ==> ms'[i] == ms[i];
      assert SyncedIn(ms'[i], x);
    }
  }

  lemma AppendTracked(t: Tracked, t': Tracked)
    requires TrackInv(t) && t.s.Up? && Basics(t.s) && AppendGroup(t.s, t'.s) && t.logs != []
    requires t'.logs == AddRecord(t.logs, |t'.s.h.ops|)
    ensures TrackInv(t')
  {
    hide SyncsKept, MarksFit, Follows, Ops, EndOf;
    var ms, more, m := t.logs, Ops(t.s.writers[..t.s.phase.n]), t.logs[|t.logs| - 1];
    assert m.number >= t.s.logNumber;
    FollowsEnd(ms, t.s.logNumber, t.s.h.flushed, |t.s.h.ops|);
    RecordFits(ms, t.s.disk.logs, t.s.logNumber, t.s.h.ops, more);
    RecordFollows(ms, t.s.logNumber, t.s.h.flushed, |t.s.h.ops|, |t'.s.h.ops|);
    SyncedStays(ms, m.(ends := m.ends + [|t'.s.h.ops|]), t.s.logNumber, t.s.h.flushed, t.s.q);
  }

  lemma FollowsEnd(ms: seq<Marks>, from: nat, flushed: nat, ops: nat)
    requires Follows(ms, from, flushed, ops)
    ensures ms != [] && EndOf(ms[|ms| - 1]) == ops
  {
  }

  lemma SyncTracked(t: Tracked, t': Tracked)
    requires TrackInv(t) && t.s.Up? && Basics(t.s) && t.logs != [] && t' == t.(logs := SyncLast(t.logs))
    ensures TrackInv(t')
  {
    hide SyncsKept, Follows, Ops;
    var ms, m, from := t.logs, t.logs[|t.logs| - 1], t.s.logNumber;
    assert m.number >= from;
    LogBounds(ms, t.s.disk.logs, from, t.s.h.ops, |ms| - 1);
    SyncedStays(ms, m.(synced := |m.ends|), from, t.s.h.flushed, t.s.q);
    forall i | 0 <= i < |ms| && ms[i].number >= from
      ensures MarksFit(SyncLast(ms)[i], t.s.disk.logs[i], t.s.h.ops)
    {
      assert MarksFit(ms[i], t.s.disk.logs[i], t.s.h.ops);
      SyncedFits(ms[i], t.s.disk.logs[i], t.s.h.ops);
    }
    hide MarksFit;
    SyncFollows(ms, from, t.s.h.flushed, |t.s.h.ops|);
  }

  lemma SyncedFits(m: Marks, f: LogFile, ops: seq<Op>)
    requires MarksFit(m, f, ops)
    ensures MarksFit(m.(synced := |m.ends|), f, ops)
  {
    var m' := m.(synced := |m.ends|);
    assert forall n :: 0 <= n <= |m.ends| ==> CutAt(m', n) == CutAt(m, n);
  }

  lemma SyncFollows(ms: seq<Marks>, from: nat, flushed: nat, ops: nat)
    requires Follows(ms, from, flushed, ops)
    ensures Follows(SyncLast(ms), from, flushed, ops)
  {
    var ms' := SyncLast(ms);
    forall i | 0 <= i < |ms|
      ensures ms'[i].number == ms[i].number && ms'[i].start == ms[i].start && EndOf(ms'[i]) == EndOf(ms[i])
    {
    }
    SameStarts(ms, ms', from);
    hide EndOf, SyncLast;
  }

  // ----- A group is done

  lemma FinishTracked(t: Tracked, t': Tracked)
    requires TrackInv(t) && t.s.Up? && Basics(t.s) && FinishGroup(t.s, t'.s) && LeaderSynced(t.s, t.logs)
    requires t'.logs == t.logs
    ensures TrackInv(t')
  {
    hide LogsFit, Follows, MarksFit, Ops;
    var ms := t.logs;
    FollowsEnd(ms, t.s.logNumber, t.s.h.flushed, |t.s.h.ops|);
    var m := ms[|ms| - 1];
    LastNumber(ms, t.s.disk.logs, t.s.logNumber, t.s.h.ops);
    hide SyncedAt;
    forall x: nat | SyncOp(t'.s.q, x)
      ensures x < t.s.h.flushed || SyncedAt(ms, t.s.logNumber, x)
    {
      var isNew := NewSyncOp(t.s, t'.s.q, x);
      if isNew {
        assert SyncedIn(m, x);
        SyncedInLast(ms, t.s.logNumber, x);
      }
    }
  }

  lemma LastNumber(ms: seq<Marks>, logs: seq<LogFile>, from: nat, ops: seq<Op>)
    requires LogsFit(ms, logs, from, ops) && logs != []
    ensures ms != [] && ms[|ms| - 1].number == logs[|logs| - 1].number
  {
  }

  lemma SyncedInLast(ms: seq<Marks>, from: nat, x: nat)
    requires ms != [] && ms[|ms| - 1].number >= from && SyncedIn(ms[|ms| - 1], x)
    ensures SyncedAt(ms, from, x)
  {
  }

  /** An operation of a finished sync write was one before, or belongs to the group that finishes, whose
      leader then asked for a sync. */
  lemma NewSyncOp(s: State, q': Queue, x: nat) returns (isNew: bool)
    requires s.Up? && Basics(s) && s.phase.Logged? && SyncOp(q', x)
    requires q' == s.q.(finished := s.q.finished + s.phase.n)
    ensures !isNew ==> SyncOp(s.q, x)
    ensures isNew ==> s.writers[0].sync && s.lastSequence <= x < |s.h.ops|
  {
    hide Increasing, Ops, SyncOp;
    var q := s.q;
    var j := SyncWriter(q', x);
    isNew := j >= q.finished;
    if isNew {
      assert s.writers[j - q.finished] == q.arrived[j];
      OpsBetween(q.arrived, q.finished, j);
      OpsBetween(q.arrived, j + 1, q'.finished);
    } else {
      IsSyncOp(q, j, x);
    }
  }

  lemma SyncWriter(q: Queue, x: nat) returns (j: nat)
    requires SyncOp(q, x)
    ensures j < q.finished <= |q.arrived| && q.arrived[j].sync && |Ops(q.arrived[..j])| <= x < |Ops(q.arrived[..j + 1])|
  {
    hide Ops;
    j :| 0 <= j < q.finished <= |q.arrived| && q.arrived[j].sync
        && |Ops(q.arrived[..j])| <= x < |Ops(q.arrived[..j + 1])|;
  }

  lemma IsSyncOp(q: Queue, j: nat, x: nat)
    requires j < q.finished <= |q.arrived| && q.arrived[j].sync
    requires |Ops(q.arrived[..j])| <= x < |Ops(q.arrived[..j + 1])|
    ensures SyncOp(q, x)
  {
    hide Ops;
  }

  lemma OpsBetween(ws: seq<Writer>, m: nat, n: nat)
    requires m <= n <= |ws|
    ensures |Ops(ws[..m])| <= |Ops(ws[..n])|
  {
    OpsPrefix(ws[..n], m);
    Seqs.PrefixOfPrefix(ws, m, n);
  }

  // ----- Obsolete logs

  function Without(ms: seq<Marks>, i: nat): seq<Marks>
    requires i < |ms|
  {
    ms[..i] + ms[i + 1..]
  }

  lemma WithoutAt(ms: seq<Marks>, i: nat, k: nat)
    requires i < |ms| && k < |ms| - 1
    ensures Without(ms, i)[k] == ms[if k < i then k else k + 1]
  {
  }

  lemma DeleteFits(ms: seq<Marks>, logs: seq<LogFile>, from: nat, ops: seq<Op>, i: nat)
    requires LogsFit(ms, logs, from, ops) && i < |ms|
    ensures LogsFit(Without(ms, i), logs[..i] + logs[i + 1..], from, ops)
  {
    hide MarksFit;
    forall k | 0 <= k < |ms| - 1
      ensures Without(ms, i)[k] == ms[if k < i then k else k + 1]
      ensures (logs[..i] + logs[i + 1..])[k] == logs[if k < i then k else k + 1]
    {
    }
    hide Without;
  }

  lemma DeleteFollows(ms: seq<Marks>, from: nat, flushed: nat, ops: nat, i: nat)
    requires Follows(ms, from, flushed, ops) && i < |ms| - 1 && ms[i].number < from
    requires forall a, b :: 0 <= a < b < |ms| ==> ms[a].number < ms[b].number
    ensures Follows(Without(ms, i), from, flushed, ops)
  {
    hide EndOf;
    forall k | 0 <= k < |ms| - 1
      ensures Without(ms, i)[k] == ms[if k < i then k else k + 1]
    {
    }
    hide Without;
    forall k: nat | FirstFrom(Without(ms, i), from, k)
      ensures k >= i && FirstFrom(ms, from, k + 1)
    {
    }
  }

  lemma DeleteSyncs(ms: seq<Marks>, from: nat, flushed: nat, q: Queue, i: nat)
    requires SyncsKept(ms, from, flushed, q) && i < |ms| && ms[i].number < from
    ensures SyncsKept(Without(ms, i), from, flushed, q)
  {
    hide SyncOp, SyncedIn;
    forall x: nat | SyncedAt(ms, from, x)
      ensures SyncedAt(Without(ms, i), from, x)
    {
      var k :| 0 <= k < |ms| && ms[k].number >= from && SyncedIn(ms[k], x);
      assert Without(ms, i)[if k < i then k else k - 1] == ms[k];
    }
  }

  lemma DeleteTracked(t: Tracked, t': Tracked, i: nat)
    requires TrackInv(t) && t.s.Up? && Basics(t.s) && DeleteLog(t.s, t'.s, i)
    requires t'.logs == t.logs[..i] + t.logs[i + 1..]
    ensures TrackInv(t')
  {
    hide SyncsKept, MarksFit, Follows, Ops;
    var ms := t.logs;
    FollowsEnd(ms, t.s.logNumber, t.s.h.flushed, |t.s.h.ops|);
    assert i < |ms| - 1;
    DeleteFits(ms, t.s.disk.logs, t.s.logNumber, t.s.h.ops, i);
    DeleteFollows(ms, t.s.logNumber, t.s.h.flushed, |t.s.h.ops|, i);
    DeleteSyncs(ms, t.s.logNumber, t.s.h.flushed, t.s.q, i);
    WithoutAt(ms, i, |ms| - 2);
  }

  /** Seen from the last log on, everything before it is flushed. */
  lemma FromLast(ms: seq<Marks>, logs: seq<LogFile>, from: nat, flushed: nat, ops: seq<Op>, q: Queue, last: nat,
                 frozen: nat)
    requires LogsFit(ms, logs, from, ops) && Follows(ms, from, flushed, |ops|) && SyncsKept(ms, from, flushed, q)
    requires Increasing(logs) && logs[|logs| - 1].number == last >= from && flushed <= frozen == ms[|ms| - 1].start
    ensures LogsFit(ms, logs, last, ops) && Follows(ms, last, frozen, |ops|) && SyncsKept(ms, last, frozen, q)
  {
    hide SyncOp, MarksFit, SyncsKept;
    LastFollows(ms, logs, from, flushed, ops, last, frozen);
    LastSyncs(ms, logs, from, flushed, ops, q, last, frozen);
    hide Follows, Increasing;
  }

  lemma LastFollows(ms: seq<Marks>, logs: seq<LogFile>, from: nat, flushed: nat, ops: seq<Op>, last: nat, frozen: nat)
    requires SameNumbers(ms, logs) && Follows(ms, from, flushed, |ops|)
    requires Increasing(logs) && logs[|logs| - 1].number == last >= from && frozen == ms[|ms| - 1].start
    ensures Follows(ms, last, frozen, |ops|)
  {
    hide EndOf;
    assert forall i :: 0 <= i < |ms| - 1 ==> ms[i].number < last;
    assert forall i: nat :: FirstFrom(ms, last, i) ==> i == |ms| - 1;
  }

  lemma LastSyncs(ms: seq<Marks>, logs: seq<LogFile>, from: nat, flushed: nat, ops: seq<Op>, q: Queue, last: nat,
                  frozen: nat)
    requires LogsFit(ms, logs, from, ops) && Follows(ms, from, flushed, |ops|) && SyncsKept(ms, from, flushed, q)
    requires Increasing(logs) && logs[|logs| - 1].number == last >= from && flushed <= frozen == ms[|ms| - 1].start
    ensures SyncsKept(ms, last, frozen, q)
  {
    hide SyncOp, MarksFit, Follows, Increasing;
    forall x: nat | SyncedAt(ms, from, x)
      ensures x < frozen || SyncedAt(ms, last, x)
    {
      var i :| 0 <= i < |ms| && ms[i].number >= from && SyncedIn(ms[i], x);
      if i < |ms| - 1 {
        LogBounds(ms, logs, from, ops, i);
        EndsBefore(ms, logs, from, flushed, ops, i, |ms| - 1);
      } else {
        SyncedInLast(ms, last, x);
      }
    }
  }

  lemma InstallTracked(t: Tracked, t': Tracked)
    requires TrackInv(t) && t.s.Up? && Basics(t.s) && Install(t.s, t'.s) && t'.logs == t.logs
    ensures TrackInv(t')
  {
    hide SyncsKept, LogsFit, Follows, Ops, ApplyEdit;
    if IsFlush(t.s.installing.value) {
      FollowsEnd(t.logs, t.s.logNumber, t.s.h.flushed, |t.s.h.ops|);
      FromLast(t.logs, t.s.disk.logs, t.s.logNumber, t.s.h.flushed, t.s.h.ops, t.s.q, t.s.logfile, t.s.h.frozen);
    }
  }

  // ----- Every run

  lemma WriteTracked(t: Tracked, t': Tracked, d: Step)
    requires TrackInv(t) && t.s.Up? && Basics(t.s) && WriteStep(t.s, t'.s, d) && t'.logs == MarksAfter(t, t'.s, d)
    requires d.StepInsert? || d.StepFinish? ==> LeaderSynced(t.s, t.logs)
    ensures TrackInv(t')
  {
    hide TrackInv, Basics, LeaderSynced, AddRecord, Ops, IsGroup, NewLog;
    QueueFacts(t);
    match d
    case StepEnqueue(_) => QueueKeeps(t, t');
    case StepLeadEmpty => QueueKeeps(t, t');
    case StepSwitch => SwitchTracked(t, t');
    case StepGroup(_) => UntouchedKeeps(t, t');
    case StepAppend => AppendTracked(t, t');
    case StepInsert => UntouchedKeeps(t, t');
    case StepFinish => FinishTracked(t, t');
  }

  lemma QueueFacts(t: Tracked)
    requires TrackInv(t) && t.s.Up? && Basics(t.s)
    ensures t.logs != [] && t.s.q.finished <= |t.s.q.arrived|
    ensures t.s.writers != [] ==> t.s.q.finished < |t.s.q.arrived| && t.s.writers[0] == t.s.q.arrived[t.s.q.finished]
  {
    hide LogsFit, SyncsKept, Ops;
  }

  lemma BackgroundTracked(t: Tracked, t': Tracked, d: Step)
    requires TrackInv(t) && t.s.Up? && Basics(t.s) && BackgroundStep(t.s, t'.s, d) && t'.logs == MarksAfter(t, t'.s, d)
    ensures TrackInv(t')
  {
    SameLength(t);
    hide TrackInv, Basics, AddRecord, NewLog, Selection, MergedInput, Connected, NextLevelClosed, LiveNumber, Fits;
    hide JobEdit, JobKept, Flatten, InstallEdit, ValidFile, EntriesOf, ApplyEdit;
    if d.StepInstall? {
      InstallTracked(t, t');
    } else if d.StepDeleteLog? {
      DeleteTracked(t, t', d.i);
    } else {
      UntouchedKeeps(t, t');
    }
  }

  lemma SameLength(t: Tracked)
    requires TrackInv(t)
    ensures |t.logs| == |t.s.disk.logs|
  {
    hide MarksFit, Follows, SyncsKept;
  }

  lemma CrashTracked(t: Tracked, t': Tracked, d: Step)
    requires Inv(t.s) && TrackInv(t) && CrashStep(t.s, t'.s, d) && t'.logs == MarksAfter(t, t'.s, d)
    ensures TrackInv(t')
  {
    hide UpInv, DownInv;
    match d
    case StepCrash => assert SameNumbers(t.logs, t.s.disk.logs);
    case StepFailedReopen(_, _) =>
    case StepReopen(news, starts, log) => ReopenTracked(t, t', news, starts, log);
  }

  lemma TrackedStep(t: Tracked, t': Tracked, step: TStep)
    requires Inv(t.s) && TrackInv(t) && TDoes(t, t', step)
    ensures Inv(t'.s) && TrackInv(t')
  {
    hide UpInv, DownInv, TrackInv, MarksAfter, Basics, LeaderSynced;
    if t.s.Up? {
      UpBasics(t.s);
    }
    if step.Sync? {
      SyncTracked(t, t');
    } else {
      hide Inv;
      StepKeeps(t.s, t'.s, step.step);
      DoTracked(t, t', step.step);
    }
  }

  lemma DoTracked(t: Tracked, t': Tracked, d: Step)
    requires Inv(t.s) && TrackInv(t) && (t.s.Up? ==> Basics(t.s)) && TDoes(t, t', Do(d))
    ensures TrackInv(t')
  {
    hide Inv, TrackInv, MarksAfter, Basics, LeaderSynced;
    UpSteps(t.s, t'.s, d);
    hide WriteStep, BackgroundStep, ReadStep, CrashStep;
    if WriteStep(t.s, t'.s, d) {
      WriteTracked(t, t', d);
    } else if BackgroundStep(t.s, t'.s, d) {
      BackgroundTracked(t, t', d);
    } else if ReadStep(t.s, t'.s, d) {
      ReadTracked(t, t', d);
    } else {
      CrashTracked(t, t', d);
    }
  }

  lemma ReadTracked(t: Tracked, t': Tracked, d: Step)
    requires TrackInv(t) && ReadStep(t.s, t'.s, d) && t'.logs == MarksAfter(t, t'.s, d)
    ensures TrackInv(t')
  {
    hide TrackInv;
    UntouchedKeeps(t, t');
  }

  lemma UpSteps(s: State, s': State, d: Step)
    ensures WriteStep(s, s', d) || BackgroundStep(s, s', d) ==> s.Up?
  {
    hide IsGroup, Ops, Selection, MergedInput, Connected, NextLevelClosed, LiveNumber, Fits, JobEdit, JobKept, Flatten;
    hide InstallEdit, ValidFile, EntriesOf, ApplyEdit;
  }

  lemma NoLogs(t: Tracked)
    requires Init(t.s) && t.logs == []
    ensures TrackInv(t)
  {
  }

  /** In every state of every run, with syncs wherever the source asks for them. */
  lemma {:induction false} RunTracked(run: seq<Tracked>, steps: seq<TStep>, i: nat)
    requires IsTrackedRun(run, steps) && i < |run|
    ensures Inv(run[i].s) && TrackInv(run[i])
  {
    hide Inv, TDoes, Init;
    if i == 0 {
      InitHolds(run[0].s);
      NoLogs(run[0]);
    } else {
      hide TrackInv;
      RunTracked(run, steps, i - 1);
      TrackedStep(run[i - 1], run[i], steps[i - 1]);
    }
  }
}
