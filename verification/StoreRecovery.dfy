/** Snapshots, readers, crash and reopening keep the store's invariant. */
module StoreRecovery {
  import opened Keys
  import opened Versions
  import opened Inputs
  import opened VersionBuilder
  import opened Compaction
  import opened Levels
  import opened Store
  import opened StoreWrites
  import opened StoreManifest
  import opened StoreInstall
  import Seqs

  // ----- Snapshots

  lemma TakeSnapshotKeeps(s: State, s': State)
    requires s.Up? && UpInv(s) && TakeSnapshot(s, s')
    ensures UpInv(s')
  {
    hide MemInv, LogInv, TableInv, ManifestInv, NewNumbers, AllPresent, VersionBelow, FlushInv, ChangeInv, SharedInv;
    hide ReadersInv, ApplyEdit, GroupInv;
    hide Pending, Connected, MergedInput, OutputsInv, Kept;
  }

  lemma ReleaseSnapshotKeeps(s: State, s': State, i: nat)
    requires s.Up? && UpInv(s) && ReleaseSnapshot(s, s', i)
    ensures UpInv(s')
  {
    hide MemInv, LogInv, TableInv, ManifestInv, NewNumbers, AllPresent, VersionBelow, FlushInv, ChangeInv, SharedInv;
    hide ReadersInv, ApplyEdit, GroupInv;
    hide Pending, Connected, MergedInput, OutputsInv, Kept;
  }

  // ----- Readers

  /** Memtables and current version together serve every readable snapshot. */
  lemma LiveServes(mem: seq<Entry>, imm: Option<seq<Entry>>, v: Version, h: History)
    requires MemInv(mem, imm, h.ops, h.flushed, h.frozen, h.applied) && TableInv(v, h.ops, h.floor, h.flushed)
    ensures Live(mem, imm, v) == VersionEntries(v) + Span(h.ops, h.flushed, h.applied)
    ensures Agrees(Live(mem, imm, v), h.ops, h.floor, h.applied)
  {
    hide Good, Agrees, Sorted;
    AgreesRange(VersionEntries(v), h.ops, h.floor, h.flushed, h.applied);
    assert Span(h.ops, h.flushed, h.applied) == Span(h.ops, h.flushed, h.frozen) + Span(h.ops, h.frozen, h.applied);
    if imm.None? {
      EmptyRange(h.ops, h.flushed, h.frozen);
    }
  }

  lemma LiveSearchable(mem: seq<Entry>, imm: Option<seq<Entry>>, v: Version, h: History)
    requires MemInv(mem, imm, h.ops, h.flushed, h.frozen, h.applied) && TableInv(v, h.ops, h.floor, h.flushed)
    ensures Searchable(mem, imm, v) && forall e :: e in Live(mem, imm, v) ==> e.key.sn <= h.applied
  {
    hide Good, Agrees, ValidVersion, Sorted, FromHistory;
    GoodIsValid(v);
    LiveFromHistory(mem, imm, v, h);
    assert Unique(Live(mem, imm, v)) by {
      FromHistoryIsUnique(Live(mem, imm, v), h.ops);
    }
    hide Live, Unique;
  }

  lemma FromHistoryIsUnique(es: set<Entry>, ops: seq<Op>)
    requires FromHistory(es, ops)
    ensures Unique(es)
  {
  }

  lemma LiveFromHistory(mem: seq<Entry>, imm: Option<seq<Entry>>, v: Version, h: History)
    requires MemInv(mem, imm, h.ops, h.flushed, h.frozen, h.applied) && TableInv(v, h.ops, h.floor, h.flushed)
    ensures FromHistory(Live(mem, imm, v), h.ops) && forall e :: e in Live(mem, imm, v) ==> e.key.sn <= h.applied
  {
    hide Good, Agrees, Sorted, VersionEntries;
  }

  lemma BeginReadKeeps(s: State, s': State, snapshot: nat)
    requires s.Up? && UpInv(s) && BeginRead(s, s', snapshot)
    ensures UpInv(s')
  {
    hide MemInv, LogInv, TableInv, ManifestInv, NewNumbers, AllPresent, VersionBelow, FlushInv, JobInv, ChangeInv;
    hide ApplyEdit, GroupInv;
    hide Searchable, Lookup, Live, AsOf;
    LiveServes(s.mem, s.imm, s.current, s.h);
    LiveSearchable(s.mem, s.imm, s.current, s.h);
    var r := Reader(snapshot, s.mem, true, s.imm, s.current);
    assert s.h.floor <= snapshot <= s.lastSequence;
    assert ReaderInv(r, s.h.ops, s.disk.tables, s.nextFile) && SharedAt(r, s.mem, s.h.applied);
    ReadersMore(s.readers, r, s.mem, s.h, s.disk.tables, s.nextFile);
  }

  lemma ReadersMore(readers: seq<Reader>, r: Reader, mem: seq<Entry>, h: History, tables: map<nat, seq<Entry>>,
                    nextFile: nat)
    requires ReadersInv(readers, h.ops, tables, nextFile) && SharedInv(readers, mem, h.applied)
    requires ReaderInv(r, h.ops, tables, nextFile) && SharedAt(r, mem, h.applied)
    ensures ReadersInv(readers + [r], h.ops, tables, nextFile) && SharedInv(readers + [r], mem, h.applied)
  {
    hide ReaderInv, SharedAt;
  }

  lemma EndReadKeeps(s: State, s': State, i: nat)
    requires s.Up? && UpInv(s) && EndRead(s, s', i)
    ensures UpInv(s')
  {
    hide MemInv, LogInv, TableInv, ManifestInv, NewNumbers, AllPresent, VersionBelow, FlushInv, JobInv, ChangeInv;
    hide SnapshotInv, ApplyEdit, GroupInv;
    hide ReaderInv, SharedAt;
  }

  // ----- Crash

  lemma CrashKeeps(s: State, s': State)
    requires s.Up? && UpInv(s) && Crash(s, s')
    ensures DownInv(s'.disk, s'.h, s'.q)
  {
    hide MemInv, TableInv, NewNumbers, AllPresent, FlushInv, JobInv, SnapshotInv, SharedInv, ReadersInv, ApplyEdit;
    hide Build, Replayable, VersionBelow, ManifestNumbers, Ops, ChangeInv;
    DurableAlways(s);
    assert Replays(s.disk.logs, DurableLog(s), s.h.ops, DurableFlushed(s));
    Seqs.WholeSlice(s'.q.arrived);
  }

  lemma FailedReopenKeeps(s: State, s': State, n: nat, es: seq<Entry>)
    requires s.Down? && DownInv(s.disk, s.h, s.q) && FailedReopen(s, s', n, es)
    ensures DownInv(s'.disk, s'.h, s'.q)
  {
    hide TableInv, Build, Replayable, ManifestNumbers, Ops;
    var last := s.disk.manifest[|s.disk.manifest| - 1];
    if s'.disk.logs != s.disk.logs {
      LogStarted(s.disk.logs, n, last.logNumber);
    }
    var v := Build(EMPTY, s.disk.manifest);
    forall l, f | 0 <= l < |v| && f in v[l]
      ensures Present(s.disk.tables[n := es], f)
    {
      assert f.number < last.nextFile && Present(s.disk.tables, f);
    }
  }

  // ----- Reopen: the tables made from the log

  lemma RangePrefix(ops: seq<Op>, from: nat, to: nat, m: nat)
    requires from <= to <= |ops| && m <= to - from
    ensures Range(ops, from, to)[..m] == Range(ops, from, from + m)
    ensures Range(ops, from, to)[m..] == Range(ops, from + m, to)
  {
  }

  ghost predicate LaterNewer(news: seq<File>) {
    forall i, j :: 0 <= i < j < |news| ==> FileNewer(news[j], news[i])
  }

  /** The pieces hold exactly the replayed operations, later pieces the later ones. */
  lemma {:induction false} PiecesHold(news: seq<File>, starts: seq<nat>, ops: seq<Op>, from: nat, to: nat)
    requires from <= to <= |ops| && PiecesOf(news, starts, Range(ops, from, to))
    ensures LevelEntries(news) == Span(ops, from, to) && AllValid(news)
    ensures LaterNewer(news)
  {
    hide LaterNewer, Range, Span, Members, LevelEntries, ValidFile;
    if news != [] {
      var n := |news| - 1;
      var mid := from + starts[n];
      RangePrefix(ops, from, to, starts[n]);
      RangeIsSpan(ops, mid, to);
      PiecesHold(news[..n], starts[..n], ops, from, mid);
      LastPiece(news, ops, from, mid, to);
    } else {
      EmptyRange(ops, from, to);
      NoPieces();
    }
  }

  lemma NoPieces()
    ensures LevelEntries([]) == {} && LaterNewer([])
  {
  }

  lemma LastPiece(news: seq<File>, ops: seq<Op>, from: nat, mid: nat, to: nat)
    requires from <= mid <= to <= |ops| && news != [] && ValidFile(news[|news| - 1])
    requires LevelEntries(news[..|news| - 1]) == Span(ops, from, mid) && AllValid(news[..|news| - 1])
    requires Members(news[|news| - 1].entries) == Span(ops, mid, to)
    requires LaterNewer(news[..|news| - 1])
    ensures LevelEntries(news) == Span(ops, from, to) && AllValid(news)
    ensures LaterNewer(news)
  {
    var n := |news| - 1;
    var rest, last := news[..n], news[n];
    assert news == rest + [last];
    hide ValidFile;
    assert LevelEntries(news) == LevelEntries(rest) + Members(last.entries);
    assert Span(ops, from, to) == Span(ops, from, mid) + Span(ops, mid, to);
    forall i, j | 0 <= i < j < |news|
      ensures FileNewer(news[j], news[i])
    {
      if j < n {
        assert FileNewer(rest[j], rest[i]);
      } else {
        forall x, y | x in last.entries && y in rest[i].entries && x.key.user == y.key.user
          ensures x.key.sn > y.key.sn
        {
          assert x in Members(last.entries) && y in LevelEntries(rest);
        }
      }
    }
  }

  /** `w` is `v` with the new files at level 0. */
  ghost predicate AddsNews(v: Version, w: Version, news: seq<File>) {
    && |w| == |v| > 0 && TidyLevels(w)
    && forall l, g {:trigger g in w[l]} {:trigger g in v[l]} :: 0 <= l < |v| ==>
        (g in w[l] <==> g in v[l] || (l == 0 && g in news))
  }

  /** New files: newer than all of `v`, and later ones newer than earlier ones. */
  ghost predicate NewsOf(v: Version, news: seq<File>) {
    && AllValid(news)
    && (forall f :: f in news ==> NewerThanAll(v, f))
    && (forall f, g :: f in news && g in news && f.number > g.number ==> FileNewer(f, g))
    && DistinctNumbers(news)
  }

  lemma NewsKeepGood(v: Version, w: Version, news: seq<File>)
    requires Good(v) && NewsOf(v, news) && AddsNews(v, w, news)
    ensures Good(w)
  {
    hide FileNewer, ValidFile;
    assert FilesValid(w);
    NewsKeepNumbers(v, w, news);
    assert DisjointLevels(w) by {
      forall l | 0 < l < |w|
        ensures PairwiseDisjoint(w[l])
      {
        assert PairwiseDisjoint(v[l]);
      }
    }
    assert NewerByNumber(w[0]) by {
      forall f, g | f in w[0] && g in w[0] && f.number > g.number
        ensures FileNewer(f, g)
      {
        assert g in news ==> NewerThanAll(v, g);
        assert f in news ==> NewerThanAll(v, f);
      }
    }
    NewsKeepOrder(v, w, news);
  }

  lemma NewsKeepNumbers(v: Version, w: Version, news: seq<File>)
    requires NumbersUnique(v) && TidyLevels(w) && NewsOf(v, news) && AddsNews(v, w, news)
    ensures NumbersUnique(w)
  {
    hide FileNewer, ValidFile, Tidy;
    forall l, m, f, g | 0 <= l < |w| && 0 <= m < |w| && f in w[l] && g in w[m] && f.number == g.number
      ensures l == m && f == g
    {
      assert f in news ==> NewerThanAll(v, f);
      assert g in news ==> NewerThanAll(v, g);
    }
  }

  lemma NewsKeepOrder(v: Version, w: Version, news: seq<File>)
    requires LevelsOrdered(v) && NewsOf(v, news) && AddsNews(v, w, news)
    ensures LevelsOrdered(w)
  {
    hide FileNewer, ValidFile, Tidy;
    forall l, m, f, g | 0 <= l < m < |w| && f in w[l] && g in w[m]
      ensures FileNewer(f, g)
    {
      assert f in news ==> NewerThanAll(v, f);
    }
  }

  lemma NewsEntries(v: Version, w: Version, news: seq<File>)
    requires AddsNews(v, w, news)
    ensures VersionEntries(w) == VersionEntries(v) + LevelEntries(news)
  {
    hide Tidy;
    forall e | e in VersionEntries(w)
      ensures e in VersionEntries(v) + LevelEntries(news)
    {
      var l, g :| 0 <= l < |w| && g in w[l] && e in g.entries;
    }
    forall e | e in VersionEntries(v) + LevelEntries(news)
      ensures e in VersionEntries(w)
    {
      if e in VersionEntries(v) {
        var l, g :| 0 <= l < |v| && g in v[l] && e in g.entries;
        assert g in w[l];
      } else {
        var g :| g in news && e in g.entries;
        assert g in w[0];
      }
    }
  }

  lemma RisingIsNews(v: Version, news: seq<File>, ops: seq<Op>, floor: nat, flushed: nat, from: nat, to: nat)
    requires TableInv(v, ops, floor, flushed) && VersionBelow(v, from) && RisingNumbers(news, from, to)
    requires LevelEntries(news) == Span(ops, flushed, |ops|) && AllValid(news)
    requires LaterNewer(news)
    ensures NewsOf(v, news)
  {
    hide Good, Agrees, FromHistory, ValidFile;
    forall f | f in news
      ensures NewerThanAll(v, f)
    {
      forall l, g | 0 <= l < |v| && g in v[l]
        ensures g.number < f.number && FileNewer(f, g)
      {
        forall x, y | x in f.entries && y in g.entries && x.key.user == y.key.user
          ensures x.key.sn > y.key.sn
        {
          assert x in LevelEntries(news) && y in VersionEntries(v);
        }
      }
    }
    hide FileNewer;
    forall f, g | f in news && g in news && f.number > g.number
      ensures FileNewer(f, g)
    {
      var j :| 0 <= j < |news| && news[j] == f;
      var i :| 0 <= i < |news| && news[i] == g;
      assert i != j && (j < i ==> news[j].number < news[i].number);
    }
  }

  /** The reopened version serves the whole history. */
  lemma NewsServe(v: Version, w: Version, news: seq<File>, ops: seq<Op>, floor: nat, flushed: nat)
    requires TableInv(v, ops, floor, flushed) && NewsOf(v, news) && AddsNews(v, w, news)
    requires LevelEntries(news) == Span(ops, flushed, |ops|)
    ensures TableInv(w, ops, floor, |ops|)
  {
    NewsKeepGood(v, w, news);
    NewsEntries(v, w, news);
    hide Good, Agrees, NewsOf, AddsNews;
    AgreesRange(VersionEntries(v), ops, floor, flushed, |ops|);
  }

  // ----- Reopen: the new manifest

  lemma {:induction false} SnapshotUnfolds(v: Version, n: nat)
    requires n <= |v|
    ensures SnapshotAdded(v, n) == if n == 0 then [] else SnapshotAdded(v, n - 1) + AtLevel(n - 1, v[n - 1])
  {
  }

  lemma {:induction false} SnapshotAddedAt(v: Version, n: nat, l: nat)
    requires n <= |v|
    ensures AddedUpTo(SnapshotAdded(v, n), |SnapshotAdded(v, n)|, l) == if l < n then v[l] else []
  {
    hide AddedUpTo, SnapshotAdded;
    SnapshotUnfolds(v, n);
    if n > 0 {
      SnapshotAddedAt(v, n - 1, l);
      var before, level := SnapshotAdded(v, n - 1), AtLevel(n - 1, v[n - 1]);
      AddedConcat(before, level, |level|, l);
      OutsAdded(v[n - 1], n - 1, level, |level|, l);
      Seqs.WholeSlice(v[n - 1]);
    } else {
      NoneAdded(l);
    }
  }

  lemma {:induction false} NoneAdded(l: nat)
    ensures AddedUpTo([], 0, l) == []
  {
  }

  lemma {:induction false} AddedConcat(a: seq<(nat, File)>, b: seq<(nat, File)>, n: nat, l: nat)
    requires n <= |b|
    ensures AddedUpTo(a + b, |a| + n, l) == AddedUpTo(a, |a|, l) + AddedUpTo(b, n, l)
  {
    if n > 0 {
      AddedConcat(a, b, n - 1, l);
    } else {
      AddedPrefix(a, b, |a|, l);
    }
  }

  lemma {:induction false} AddedPrefix(a: seq<(nat, File)>, b: seq<(nat, File)>, n: nat, l: nat)
    requires n <= |a|
    ensures AddedUpTo(a + b, n, l) == AddedUpTo(a, n, l)
  {
    if n > 0 {
      AddedPrefix(a, b, n - 1, l);
    }
  }

  lemma NothingDescribed()
    ensures Described([], EMPTY, 0)
  {
    forall l | 0 <= l < |EMPTY|
      ensures Merge(EMPTY[l], AddedAfter([], l), DeletedAfter([], l)) == []
    {
    }
  }

  /** A manifest that lists a good version describes it. */
  lemma {:induction false} SnapshotDescribes(v: Version, n: nat, edit: Edit)
    requires Good(v) && VersionBelow(v, n) && edit.deleted == {} && edit.added == SnapshotAdded(v, |v|)
    ensures Described([edit], v, n)
  {
    hide Good, TidyLevels, NumbersUnique, VersionBelow, SnapshotAdded, AddedAt, Tidy, Legit, ApplyEdit, Described;
    hide FreshEdit;
    GoodShape(v);
    SnapshotParts(v, edit);
    SnapshotLegit(EMPTY, v, n, edit);
    NothingDescribed();
    Committed([], EMPTY, edit, 0, n);
    assert [] + [edit] == [edit];
    SnapshotIsVersion(EMPTY, v, edit);
  }

  lemma {:induction false} SnapshotParts(v: Version, edit: Edit)
    requires TidyLevels(v) && edit.added == SnapshotAdded(v, |v|)
    ensures forall l: nat :: l < |v| ==> AddedAt(edit, l) == v[l] && Tidy(v[l])
  {
    forall l: nat | l < |v|
      ensures AddedAt(edit, l) == v[l] && Tidy(v[l])
    {
      SnapshotAddedAt(v, |v|, l);
    }
  }

  lemma {:induction false} NoneAddedYet(l: nat)
    ensures AddedAfter([], l) == []
  {
  }

  lemma SnapshotLegit(empty: Version, v: Version, n: nat, edit: Edit)
    requires |v| == |empty| && (forall l :: 0 <= l < |empty| ==> empty[l] == []) && NumbersUnique(v)
    requires VersionBelow(v, n)
    requires forall l: nat :: l < |v| ==> AddedAt(edit, l) == v[l] && Tidy(v[l])
    ensures Legit([], empty, edit, n)
  {
    hide AddedAt, Ordered, AddedAfter;
    forall l | 0 <= l < |empty|
      ensures LegitAt([], empty, edit, n, l)
    {
      assert AddedAt(edit, l) == v[l];
      forall m, f, g | f in AddedAt(edit, l) && 0 <= m < l && g in AddedAt(edit, m)
        ensures f.number != g.number
      {
        assert AddedAt(edit, m) == v[m];
      }
      forall m: nat
        ensures AddedAfter([], m) == []
      {
        NoneAddedYet(m);
      }
      hide NumbersUnique;
    }
  }

  lemma SnapshotIsVersion(empty: Version, v: Version, edit: Edit)
    requires |v| == |empty| && (forall l :: 0 <= l < |empty| ==> empty[l] == []) && FreshEdit(empty, edit)
    requires forall l: nat :: l < |v| ==> AddedAt(edit, l) == v[l] && Tidy(v[l])
    ensures ApplyEdit(empty, edit) == v
  {
    var w := ApplyEdit(empty, edit);
    assert |w| == |empty|;
    hide AddedAt, ApplyEdit;
    forall l | 0 <= l < |empty|
      ensures w[l] == v[l]
    {
      assert Tidy(empty[l]) && Fresh(empty, edit, l);
      ApplyEditLevel(empty, edit, l);
      TidyIsUnique(w[l], v[l]);
    }
  }

  lemma NewsAdded(news: seq<File>, edit: Edit, l: nat)
    requires edit.added == AtLevel0(news)
    ensures AddedAt(edit, l) == if l == 0 then news else []
  {
    OutsAdded(news, 0, edit.added, |news|, l);
    Seqs.WholeSlice(news);
  }

  lemma NewsLegit(manifest: seq<Edit>, v: Version, news: seq<File>, edit: Edit, n: nat, n': nat)
    requires ManifestNumbers(manifest, v, n) && |v| == |EMPTY| && RisingNumbers(news, n, n')
    requires edit.added == AtLevel0(news)
    ensures Legit(manifest, v, edit, n')
  {
    forall l: nat
      ensures AddedAt(edit, l) == if l == 0 then news else []
    {
      NewsAdded(news, edit, l);
    }
    hide AddedAt, AtLevel0, AddedAfter, DeletedAt;
    forall l | 0 <= l < |v|
      ensures LegitAt(manifest, v, edit, n', l)
    {
    }
  }

  lemma NewsApplied(v: Version, news: seq<File>, edit: Edit)
    requires |v| == |EMPTY| && TidyLevels(v) && FreshEdit(v, edit) && edit.deleted == {} && edit.added == AtLevel0(news)
    ensures AddsNews(v, ApplyEdit(v, edit), news)
  {
    var w := ApplyEdit(v, edit);
    assert |w| == |v|;
    hide ApplyEdit, Tidy, Fresh;
    forall l | 0 <= l < |v|
      ensures |w| == |v| && Tidy(w[l]) && forall g :: g in w[l] <==> g in v[l] || (l == 0 && g in news)
    {
      assert Tidy(v[l]) && Fresh(v, edit, l);
      NewsAdded(news, edit, l);
      ApplyEditLevel(v, edit, l);
    }
  }

  // ----- Reopen: tables and sequence number

  lemma {:induction false} TablesAdded(tables: map<nat, seq<Entry>>, news: seq<File>, from: nat, to: nat)
    requires RisingNumbers(news, from, to)
    ensures forall f :: f in news ==> Present(AddTables(tables, news), f)
    ensures forall f: File :: f.number < from && Present(tables, f) ==> Present(AddTables(tables, news), f)
  {
    if news != [] {
      var n := |news| - 1;
      TablesAdded(tables, news[..n], from, to);
      var before := AddTables(tables, news[..n]);
      assert AddTables(tables, news) == before[news[n].number := news[n].entries];
      hide AddTables;
      forall f | f in news
        ensures Present(AddTables(tables, news), f)
      {
        var i :| 0 <= i < |news| && news[i] == f;
        if i < n {
          assert news[..n][i] == f;
          assert Present(before, f) && news[i].number < news[n].number;
        }
      }
    }
  }

  lemma {:induction false} ReopenPresent(tables: map<nat, seq<Entry>>, v: Version, w: Version, news: seq<File>,
                                         from: nat, to: nat)
    requires AllPresent(tables, v) && VersionBelow(v, from) && RisingNumbers(news, from, to) && AddsNews(v, w, news)
    ensures AllPresent(AddTables(tables, news), w)
  {
    TablesAdded(tables, news, from, to);
    hide Present, AddTables, Tidy;
    forall l, f | 0 <= l < |w| && f in w[l]
      ensures Present(AddTables(tables, news), f)
    {
    }
  }

  lemma {:induction false} MaxOfRange(ops: seq<Op>, from: nat, to: nat)
    requires from <= to <= |ops|
    ensures MaxSequence(Range(ops, from, to)) == if from == to then 0 else to
  {
    if from < to {
      RangePrefix(ops, from, to, to - 1 - from);
      MaxOfRange(ops, from, to - 1);
    }
  }

  lemma ReopenLogs(logs: seq<LogFile>, log: nat, ops: seq<Op>)
    requires Increasing(logs) && forall i :: 0 <= i < |logs| ==> logs[i].number < log
    ensures LogInv(logs + [LogFile(log, [])], log, log, log + 1, ops, |ops|, |ops|)
  {
    LogStarted(logs, log, log);
    NoSuchLogs(logs, log);
    assert Range(ops, |ops|, |ops|) == [];
  }

  lemma GoodShape(v: Version)
    requires Good(v)
    ensures |v| == |EMPTY| && TidyLevels(v) && NumbersUnique(v)
  {
  }

  lemma RisingMore(news: seq<File>, from: nat, to: nat)
    requires RisingNumbers(news, from, to)
    ensures RisingNumbers(news, from, to + 1)
  {
  }

  lemma {:induction false} ReopenManifest(v: Version, news: seq<File>, n: nat, log: nat, ops: nat, all: Edit,
                                          edit: Edit)
    requires Good(v) && VersionBelow(v, n) && all.deleted == {} && all.added == SnapshotAdded(v, |v|)
    requires RisingNumbers(news, n, log) && n <= log && edit == Edit({}, AtLevel0(news), log, log + 1, ops)
    ensures ManifestInv([all, edit], ApplyEdit(v, edit), log, ops, ops, log + 1)
    ensures FreshEdit(v, edit) && VersionBelow(ApplyEdit(v, edit), log + 1)
  {
    hide Good, VersionBelow, SnapshotAdded, AtLevel0, ApplyEdit, Legit, Replayable, ManifestNumbers, Build;
    hide RisingNumbers, FreshEdit;
    GoodShape(v);
    SnapshotDescribes(v, n, all);
    RisingMore(news, n, log);
    NewsLegit([all], v, news, edit, n, log + 1);
    Committed([all], v, edit, n, log + 1);
    assert [all] + [edit] == [all, edit];
    DescribedBelow([all, edit], ApplyEdit(v, edit), log + 1);
  }

  lemma {:induction false} ReopenVersion(v: Version, h: History, news: seq<File>, starts: seq<nat>, n: nat, log: nat,
                                         edit: Edit, tables: map<nat, seq<Entry>>)
    requires TableInv(v, h.ops, h.floor, h.flushed) && VersionBelow(v, n) && RisingNumbers(news, n, log)
    requires PiecesOf(news, starts, Range(h.ops, h.flushed, |h.ops|))
    requires edit.deleted == {} && edit.added == AtLevel0(news) && FreshEdit(v, edit) && AllPresent(tables, v)
    ensures TableInv(ApplyEdit(v, edit), h.ops, h.floor, |h.ops|)
    ensures AllPresent(AddTables(tables, news), ApplyEdit(v, edit))
  {
    hide VersionBelow, RisingNumbers, PiecesOf, FreshEdit, AtLevel0, AllPresent, AddTables, ApplyEdit, FromHistory;
    hide Agrees, AddsNews, NewsOf, LaterNewer, AllValid;
    hide FilesValid, NumbersUnique, DisjointLevels, NewerByNumber, LevelsOrdered, TidyLevels;
    var w := ApplyEdit(v, edit);
    PiecesHold(news, starts, h.ops, h.flushed, |h.ops|);
    NewsApplied(v, news, edit);
    RisingIsNews(v, news, h.ops, h.floor, h.flushed, n, log);
    NewsServe(v, w, news, h.ops, h.floor, h.flushed);
    ReopenPresent(tables, v, w, news, n, log);
  }

  /** Reopening brings back exactly the history. */
  lemma ReopenKeeps(s: State, s': State, news: seq<File>, starts: seq<nat>, log: nat)
    requires s.Down? && DownInv(s.disk, s.h, s.q) && Reopen(s, s', news, starts, log)
    ensures s'.Up? && UpInv(s') && s'.lastSequence == |s.h.ops|
  {
    hide AllPresent, VersionBelow, LogInv, PiecesOf, ApplyEdit, Build, Legit, Described, SnapshotAdded, AtLevel0;
    hide AddTables, MaxSequence, Replayable, ManifestNumbers;
    hide Ops, Good, Agrees, FromHistory, Range, Span, LogEntries;
    var v, last := Build(EMPTY, s.disk.manifest), s.disk.manifest[|s.disk.manifest| - 1];
    var ops := s.h.ops;
    MaxOfRange(ops, s.h.flushed, |ops|);
    assert s'.lastSequence == |ops|;
    BelowMore(v, last.nextFile, last.nextFile + 1);
    hide RisingNumbers, TableInv, ManifestInv;
    ReopenManifest(v, news, last.nextFile + 1, log, |ops|, s'.disk.manifest[0], s'.disk.manifest[1]);
    ReopenVersion(v, s.h, news, starts, last.nextFile + 1, log, s'.disk.manifest[1], s.disk.tables);
    ReopenLogs(s.disk.logs, log, ops);
    Seqs.WholeSlice(s.q.arrived);
    NoMemtables(ops);
  }

  lemma NoMemtables(ops: seq<Op>)
    ensures MemInv([], None, ops, |ops|, |ops|, |ops|)
  {
    EmptyRange(ops, |ops|, |ops|);
  }
}
