/** Three loops of the store as they run, each against the steps of the state machine: the leader of a
    write group, the replay of logs into tables, the deletion of obsolete files. */
module StoreMethods {
  import opened Keys
  import opened Versions
  import opened Inputs
  import opened VersionBuilder
  import opened Compaction
  import opened Levels
  import opened Store
  import opened StoreWrites
  import opened StoreBackground
  import opened StoreRuns
  import Seqs

  // ----- The leader of a write group

  /** The leader builds its group, logs it as one record, inserts its operations one by one, publishes the
      new sequence number and takes the group off the queue. */
  method LeadGroup(s: State) returns (s': State, n: nat)
    requires s.Up? && Inv(s) && s.phase.Idle? && s.writers != [] && s.writers[0].batch.Some?
    requires |s.h.ops| + |Ops(s.writers)| <= MAX_SEQUENCE
    ensures s'.Up? && Inv(s') && s'.phase.Idle? && IsGroup(s.writers, n)
    ensures s'.h.ops == s.h.ops + Ops(s.writers[..n]) && s'.lastSequence == |s'.h.ops| && s'.writers == s.writers[n..]
    ensures forall i :: 0 <= i < n && s.writers[i].sync ==> s.writers[0].sync
  {
    hide UpInv, Ops, IsGroup, Range, SeeInsert;
    var ops;
    n, ops := BuildBatchGroup(s.writers);
    GroupFits(s.writers, n);
    GroupBounds(s.writers, n);
    s' := s.(phase := Grouped(n));
    BuildGroupKeeps(s, s', n);
    HasLogs(s');
    ghost var grouped := s';
    var all := s'.h.ops + ops;
    s' := s'.(phase := Logged(n), h := s'.h.(ops := all),
              disk := s'.disk.(logs := AppendLog(s'.disk.logs, Range(all, |s'.h.ops|, |all|))));
    AppendGroupKeeps(grouped, s');
    InsertBounds(s');
    while s'.h.applied < |s'.h.ops|
      invariant s'.Up? && UpInv(s') && s'.phase == Logged(n) && s'.h.ops == all && s'.writers == s.writers
      invariant s'.h.applied <= |s'.h.ops|
      decreases |s'.h.ops| - s'.h.applied
    {
      ghost var before := s';
      var e := EntryOf(s'.h.ops, s'.h.applied);
      s' := s'.(mem := MemAdd(s'.mem, e), readers := SeeInsert(s'.readers, e), h := s'.h.(applied := s'.h.applied + 1));
      InsertOneKeeps(before, s');
    }
    ghost var inserted := s';
    s' := s'.(lastSequence := |s'.h.ops|, writers := s'.writers[n..], phase := Idle,
        q := s'.q.(finished := s'.q.finished + n));
    FinishGroupKeeps(inserted, s');
  }

  lemma {:induction false} GroupFits(ws: seq<Writer>, n: nat)
    requires n <= |ws|
    ensures |Ops(ws[..n])| <= |Ops(ws)|
  {
    assert ws == ws[..n] + ws[n..];
    OpsConcat(ws[..n], ws[n..]);
  }

  lemma GroupBounds(ws: seq<Writer>, n: nat)
    requires IsGroup(ws, n)
    ensures 0 < n <= |ws|
  {
  }

  lemma HasLogs(s: State)
    requires s.Up? && UpInv(s)
    ensures s.disk.logs != []
  {
    hide MemInv, TableInv, ManifestInv, NewNumbers, AllPresent, VersionBelow, FlushInv, JobInv, ChangeInv, SnapshotInv;
    hide SharedInv, ReadersInv, ApplyEdit, GroupInv;
  }

  lemma InsertBounds(s: State)
    requires s.Up? && UpInv(s)
    ensures s.h.applied <= |s.h.ops|
  {
    hide MemInv, LogInv, TableInv, ManifestInv, NewNumbers, AllPresent, VersionBelow, FlushInv, JobInv, ChangeInv;
    hide SnapshotInv, SharedInv, ReadersInv, ApplyEdit, GroupInv;
  }

  // ----- Replaying logs into tables

  /** Entries go into a memtable; a full one, and the last one, becomes a level-0 table under the next
      number. `ops` and `from` say which operations the log holds. */
  method RecoverLogs(replay: seq<Entry>, first: nat, ghost ops: seq<Op>, ghost from: nat)
    returns (news: seq<File>, next: nat, ghost starts: seq<nat>)
    requires from <= |ops| <= MAX_SEQUENCE && replay == Range(ops, from, |ops|)
    ensures PiecesOf(news, starts, replay) && RisingNumbers(news, first, next) && first <= next
  {
    hide MemAdd, Range, EntryOf, ValidFile, PiecesOf, RisingNumbers, Sorted, Members;
    NothingReplayed(replay, first);
    news, next, starts := [], first, [];
    var mem: seq<Entry> := [];
    ghost var start := 0;
    for i := 0 to |replay|
      invariant first <= next && RisingNumbers(news, first, next)
      invariant start <= i && PiecesOf(news, starts, replay[..start])
      invariant Sorted(mem) && Members(mem) == Members(replay[start..i]) && (mem == [] <==> start == i)
    {
      ReplayInsert(replay, ops, from, start, i, mem);
      mem := MemAdd(mem, replay[i]);
      var full: bool := *;
      if full {
        var f;
        f, next := MakeTable(mem, next, replay, ops, from, start, i + 1);
        MorePieces(news, starts, replay, start, i + 1, f);
        OneMoreNumber(news, first, f);
        NoEntries(replay, i + 1);
        news, starts := news + [f], starts + [start];
        mem, start := [], i + 1;
      }
    }
    Seqs.WholeSlice(replay);
    if mem != [] {
      var f;
      f, next := MakeTable(mem, next, replay, ops, from, start, |replay|);
      MorePieces(news, starts, replay, start, |replay|, f);
      OneMoreNumber(news, first, f);
      news, starts := news + [f], starts + [start];
    }
  }

  lemma NothingReplayed(replay: seq<Entry>, first: nat)
    ensures PiecesOf([], [], replay[..0]) && RisingNumbers([], first, first) && Sorted([])
    ensures Members([]) == Members(replay[0..0])
  {
  }

  lemma NoEntries(replay: seq<Entry>, i: nat)
    requires i <= |replay|
    ensures Sorted([]) && Members([]) == Members(replay[i..i])
  {
  }

  lemma OneMoreNumber(news: seq<File>, first: nat, f: File)
    requires RisingNumbers(news, first, f.number) && first <= f.number
    ensures RisingNumbers(news + [f], first, f.number + 1)
  {
  }

  lemma {:induction false} ReplayInsert(replay: seq<Entry>, ops: seq<Op>, from: nat, start: nat, i: nat,
                                        mem: seq<Entry>)
    requires from <= |ops| && replay == Range(ops, from, |ops|) && start <= i < |replay|
    requires Sorted(mem) && Members(mem) == Members(replay[start..i])
    ensures Sorted(MemAdd(mem, replay[i])) && Members(MemAdd(mem, replay[i])) == Members(replay[start..i + 1])
    ensures MemAdd(mem, replay[i]) != []
  {
    forall j | 0 <= j < |mem|
      ensures mem[j].key.sn != replay[i].key.sn
    {
      assert mem[j] in Members(mem) && mem[j] in replay[start..i];
      var l :| 0 <= l < |replay[start..i]| && replay[start..i][l] == mem[j];
      assert replay[start + l] == mem[j];
    }
    MemAddKeeps(mem, replay[i]);
    assert replay[start..i + 1] == replay[start..i] + [replay[i]];
    assert replay[i] in Members(MemAdd(mem, replay[i]));
  }

  method MakeTable(mem: seq<Entry>, number: nat, ghost replay: seq<Entry>, ghost ops: seq<Op>, ghost from: nat,
                   ghost start: nat, ghost end: nat)
    returns (f: File, next: nat)
    requires from <= |ops| <= MAX_SEQUENCE && replay == Range(ops, from, |ops|) && start <= end <= |replay|
    requires mem != [] && Sorted(mem) && Members(mem) == Members(replay[start..end])
    ensures f.number == number && f.entries == mem && ValidFile(f) && next == number + 1
  {
    var size: nat := *;
    f := File(number, size, mem[0].key, mem[|mem| - 1].key, mem);
    next := number + 1;
    forall i | 0 <= i < |mem|
      ensures mem[i].key.sn <= MAX_SEQUENCE
    {
      assert mem[i] in Members(mem) && mem[i] in replay[start..end];
    }
  }

  lemma {:induction false} MorePieces(news: seq<File>, starts: seq<nat>, replay: seq<Entry>, start: nat, end: nat,
                                      f: File)
    requires start <= end <= |replay| && PiecesOf(news, starts, replay[..start])
    requires ValidFile(f) && Members(f.entries) == Members(replay[start..end])
    ensures PiecesOf(news + [f], starts + [start], replay[..end])
  {
    var news', starts' := news + [f], starts + [start];
    assert |starts| == |news|;
    assert news'[..|news|] == news && starts'[..|news|] == starts;
    assert replay[..end][..start] == replay[..start] && replay[..end][start..] == replay[start..end];
  }

  // ----- Deleting obsolete files

  function NumbersIn(v: Version): (r: set<nat>)
    ensures forall n :: n in r <==> HasNumber(v, n)
  {
    set l, f | 0 <= l < |v| && f in v[l] :: f.number
  }

  function ReaderNumbers(readers: seq<Reader>): (r: set<nat>)
    ensures forall n :: n in r <==> exists i :: 0 <= i < |readers| && HasNumber(readers[i].version, n)
  {
    if readers == [] then {}
    else
      var n := |readers| - 1;
      var before := ReaderNumbers(readers[..n]);
      assert forall i :: 0 <= i < n ==> readers[..n][i] == readers[i];
      before + NumbersIn(readers[n].version)
  }

  function OutputNumbers(files: seq<File>): (r: set<nat>)
    ensures forall n :: n in r <==> exists f :: f in files && f.number == n
  {
    set f | f in files :: f.number
  }

  /** Numbers of all tables in use. */
  function LiveSet(s: State): (r: set<nat>)
    requires s.Up?
    ensures forall n :: n in r <==> LiveNumber(s, n)
  {
    NumbersIn(s.current)
    + ReaderNumbers(s.readers)
    + (if s.job.Some? then NumbersIn(s.job.value.from) + OutputNumbers(s.job.value.outputs) else {})
    + (if s.job.Some? && s.job.value.open.Some? then {s.job.value.open.value} else {})
  }

  /** Every table that is not live and every log before the current log number goes; nothing else does. */
  method DeleteObsoleteFiles(s: State) returns (s': State)
    requires s.Up? && Inv(s) && s.flushing.None? && s.installing.None?
    ensures s'.Up? && Inv(s') && s'.h == s.h && s'.current == s.current
    ensures forall n :: n in s'.disk.tables <==> n in s.disk.tables && LiveNumber(s, n)
    ensures forall f :: f in s'.disk.logs <==> f in s.disk.logs && f.number >= s.logNumber
  {
    hide UpInv, LiveNumber;
    s' := s;
    var live := LiveSet(s);
    var files := s.disk.tables.Keys - live;
    while files != {}
      invariant s' == s.(disk := s.disk.(tables := s'.disk.tables)) && UpInv(s')
      invariant files == s'.disk.tables.Keys - live
      invariant forall n :: n in s'.disk.tables <==> n in files || (n in s.disk.tables && n in live)
      decreases files
    {
      var n :| n in files;
      ghost var before := s';
      s' := s'.(disk := s'.disk.(tables := s'.disk.tables - {n}));
      SameLive(s, before, n);
      DeleteTableKeeps(before, s', n);
      files := files - {n};
    }
    var i := 0;
    ghost var logs := s.disk.logs;
    while i < |s'.disk.logs|
      invariant s' == s.(disk := s'.disk) && UpInv(s') && s'.disk.manifest == s.disk.manifest
      invariant forall n :: n in s'.disk.tables <==> n in s.disk.tables && n in live
      invariant i <= |s'.disk.logs|
      invariant forall f :: f in s'.disk.logs[..i] ==> f.number >= s.logNumber
      invariant forall f :: f in s'.disk.logs ==> f in logs
      invariant forall f :: f in logs && f.number >= s.logNumber ==> f in s'.disk.logs
      decreases |s'.disk.logs| - i
    {
      ghost var before := s';
      if s'.disk.logs[i].number < s.logNumber {
        s' := s'.(disk := s'.disk.(logs := s'.disk.logs[..i] + s'.disk.logs[i + 1..]));
        DeleteLogKeeps(before, s', i);
        LogGone(before.disk.logs, i, s'.disk.logs);
      } else {
        Seqs.Advance(s'.disk.logs, i);
        i := i + 1;
      }
    }
    Seqs.WholeSlice(s'.disk.logs);
  }

  lemma SameLive(s: State, t: State, n: nat)
    requires s.Up? && t == s.(disk := t.disk) && n !in LiveSet(s)
    ensures !LiveNumber(t, n)
  {
  }

  lemma LogGone(logs: seq<LogFile>, i: nat, rest: seq<LogFile>)
    requires i < |logs| && rest == logs[..i] + logs[i + 1..]
    ensures rest[..i] == logs[..i]
    ensures forall f :: f in rest ==> f in logs
    ensures forall f :: f in logs && f != logs[i] ==> f in rest
  {
    forall f | f in logs && f != logs[i]
      ensures f in rest
    {
      var j :| 0 <= j < |logs| && logs[j] == f;
      assert rest[if j < i then j else j - 1] == f;
    }
  }
}
