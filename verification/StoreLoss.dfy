/** What a crash of the whole machine leaves: log records that were not synced may be gone. Every operation of
    a finished sync write survives every such crash. What survives as a whole need not be a prefix of the
    history, because a log that is switched out is closed without a sync. */
module StoreLoss {
  import opened Keys
  import opened Versions
  import opened Levels
  import opened Store
  import opened StoreWrites
  import opened StoreInstall
  import opened StoreRecovery
  import opened StoreRuns
  import opened StoreSync
  import Seqs

  // ----- What a crash leaves

  /** The logs from `from` on, as one sequence of records from `flushed` to the last operation. */
  ghost predicate Chain(ms: seq<Marks>, logs: seq<LogFile>, from: nat, flushed: nat, ops: seq<Op>) {
    LogsFit(ms, logs, from, ops) && Follows(ms, from, flushed, |ops|) && Increasing(logs)
  }

  /** The logs that the manifest needs, at any moment of a flush. */
  lemma DurableChain(t: Tracked)
    requires t.s.Up? && UpInv(t.s) && TrackInv(t)
    ensures Chain(t.logs, t.s.disk.logs, DurableLog(t.s), DurableFlushed(t.s), t.s.h.ops)
    ensures SyncsKept(t.logs, DurableLog(t.s), DurableFlushed(t.s), t.s.q) && Basics(t.s)
  {
    UpBasics(t.s);
    hide UpInv, SyncsKept, LogsFit, Follows, Ops;
    FollowsEnd(t.logs, t.s.logNumber, t.s.h.flushed, |t.s.h.ops|);
    FromLast(t.logs, t.s.disk.logs, t.s.logNumber, t.s.h.flushed, t.s.h.ops, t.s.q, t.s.logfile, t.s.h.frozen);
  }

  ghost predicate Needed(ms: seq<Marks>, from: nat, i: int) {
    0 <= i < |ms| && ms[i].number >= from
  }

  /** The crash keeps the first `cuts[i]` records of log `i`, at least the synced ones. */
  ghost predicate Keeps(ms: seq<Marks>, from: nat, cuts: seq<nat>) {
    |cuts| == |ms| && forall i :: Needed(ms, from, i) ==> ms[i].synced <= cuts[i] <= |ms[i].ends|
  }

  /** The logs that are left: of each needed one the bytes of the records kept. */
  ghost predicate Leaves(ms: seq<Marks>, logs: seq<LogFile>, from: nat, cuts: seq<nat>, left: seq<LogFile>) {
    && Keeps(ms, from, cuts) && |left| == |logs| == |ms|
    && (forall i :: 0 <= i < |left| ==> left[i].number == logs[i].number)
    && forall i :: Needed(ms, from, i) ==> LeftOf(ms[i], logs[i], cuts[i], left[i])
  }

  ghost predicate LeftOf(m: Marks, f: LogFile, cut: nat, left: LogFile) {
    && cut <= |m.ends| && m.start <= CutAt(m, cut) <= m.start + |f.entries|
    && left.entries == f.entries[..CutAt(m, cut) - m.start]
  }

  lemma LeftIsRange(ms: seq<Marks>, logs: seq<LogFile>, from: nat, ops: seq<Op>, cuts: seq<nat>, left: seq<LogFile>,
                    i: nat)
    requires LogsFit(ms, logs, from, ops) && Leaves(ms, logs, from, cuts, left) && Needed(ms, from, i)
    ensures ms[i].start <= CutAt(ms[i], cuts[i]) <= EndOf(ms[i]) <= |ops|
    ensures left[i].entries == Range(ops, ms[i].start, CutAt(ms[i], cuts[i]))
  {
    var m := ms[i];
    assert MarksFit(m, logs[i], ops) && LeftOf(m, logs[i], cuts[i], left[i]);
    assert CutAt(m, cuts[i]) <= CutAt(m, |m.ends|);
    RangePrefix(ops, m.start, EndOf(m), CutAt(m, cuts[i]) - m.start);
  }

  /** Operation `x` is in a record that is kept. */
  ghost predicate KeptAt(ms: seq<Marks>, from: nat, cuts: seq<nat>, n: nat, x: nat) {
    exists i :: Needed(ms, from, i) && i < n && i < |cuts| && cuts[i] <= |ms[i].ends|
        && ms[i].start <= x < CutAt(ms[i], cuts[i])
  }

  lemma InRange(ops: seq<Op>, from: nat, to: nat, x: nat)
    requires from <= to <= |ops| && x < |ops|
    ensures EntryOf(ops, x) in Range(ops, from, to) <==> from <= x < to
  {
    if from <= x < to {
      assert Range(ops, from, to)[x - from] == EntryOf(ops, x);
    }
  }

  /** Recovery finds an operation in the logs exactly if its record is kept. */
  lemma {:induction false} FoundIffKept(ms: seq<Marks>, logs: seq<LogFile>, from: nat, ops: seq<Op>, cuts: seq<nat>,
                                        left: seq<LogFile>, n: nat, x: nat)
    requires LogsFit(ms, logs, from, ops) && Leaves(ms, logs, from, cuts, left) && n <= |left| && x < |ops|
    ensures EntryOf(ops, x) in LogEntries(left[..n], from) <==> KeptAt(ms, from, cuts, n, x)
  {
    hide LogsFit, Range, EntryOf;
    if n > 0 {
      FoundIffKept(ms, logs, from, ops, cuts, left, n - 1, x);
      assert left[..n][..n - 1] == left[..n - 1];
      if left[n - 1].number >= from {
        NeededNumber(ms, logs, from, ops, cuts, left, n - 1);
        LeftIsRange(ms, logs, from, ops, cuts, left, n - 1);
        InRange(ops, ms[n - 1].start, CutAt(ms[n - 1], cuts[n - 1]), x);
      } else {
        NeededNumber(ms, logs, from, ops, cuts, left, n - 1);
      }
      hide LeftOf;
    }
  }

  lemma NeededNumber(ms: seq<Marks>, logs: seq<LogFile>, from: nat, ops: seq<Op>, cuts: seq<nat>, left: seq<LogFile>,
                     i: nat)
    requires LogsFit(ms, logs, from, ops) && Leaves(ms, logs, from, cuts, left) && i < |left|
    ensures Needed(ms, from, i) <==> left[i].number >= from
    ensures Needed(ms, from, i) ==> cuts[i] <= |ms[i].ends|
  {
    hide MarksFit;
  }

  /** Every operation of a finished sync write is in a table that the manifest names, or in a log record that
      every crash leaves. */
  lemma {:induction false} SyncedSurvives(t: Tracked, cuts: seq<nat>, left: seq<LogFile>, x: nat)
    requires t.s.Up? && UpInv(t.s) && TrackInv(t) && SyncOp(t.s.q, x)
    requires Leaves(t.logs, t.s.disk.logs, DurableLog(t.s), cuts, left)
    ensures x < |t.s.h.ops|
    ensures x < DurableFlushed(t.s) || EntryOf(t.s.h.ops, x) in LogEntries(left, DurableLog(t.s))
  {
    DurableChain(t);
    hide UpInv, TrackInv, MarksFit, Follows;
    SyncOpBound(t.s.q, x);
    hide SyncOp;
    assert x < |t.s.h.ops|;
    var ms, from := t.logs, DurableLog(t.s);
    if SyncedAt(ms, from, x) {
      SyncedIsKept(ms, t.s.disk.logs, from, t.s.h.ops, cuts, x);
      FoundIffKept(ms, t.s.disk.logs, from, t.s.h.ops, cuts, left, |left|, x);
      Seqs.WholeSlice(left);
    }
  }

  lemma SyncedIsKept(ms: seq<Marks>, logs: seq<LogFile>, from: nat, ops: seq<Op>, cuts: seq<nat>, x: nat)
    requires LogsFit(ms, logs, from, ops) && Keeps(ms, from, cuts) && SyncedAt(ms, from, x)
    ensures KeptAt(ms, from, cuts, |ms|, x)
  {
    var i :| 0 <= i < |ms| && ms[i].number >= from && SyncedIn(ms[i], x);
    assert Needed(ms, from, i) && MarksFit(ms[i], logs[i], ops);
    assert CutAt(ms[i], ms[i].synced) <= CutAt(ms[i], cuts[i]);
  }

  // ----- When what is left is a prefix of the history

  ghost function CutOf(ms: seq<Marks>, cuts: seq<nat>, i: nat): nat {
    if i < |ms| && i < |cuts| && cuts[i] <= |ms[i].ends| then CutAt(ms[i], cuts[i]) else 0
  }

  ghost predicate Loses(ms: seq<Marks>, from: nat, cuts: seq<nat>, i: int) {
    Needed(ms, from, i) && CutOf(ms, cuts, i) < EndOf(ms[i])
  }

  /** After a log that lost an operation, no later log kept one. */
  ghost predicate Gapless(ms: seq<Marks>, from: nat, cuts: seq<nat>) {
    forall i, j :: Loses(ms, from, cuts, i) && i < j < |ms| ==> CutOf(ms, cuts, j) == ms[j].start
  }

  /** How far an unbroken replay of the first `n` logs gets. */
  ghost function Reached(ms: seq<Marks>, from: nat, cuts: seq<nat>, flushed: nat, n: nat): nat
    requires n <= |ms|
  {
    if n == 0 then flushed
    else
      var r := Reached(ms, from, cuts, flushed, n - 1);
      if Needed(ms, from, n - 1) && ms[n - 1].start == r then CutOf(ms, cuts, n - 1) else r
  }

  ghost predicate LostBefore(ms: seq<Marks>, from: nat, cuts: seq<nat>, n: nat) {
    exists i :: Loses(ms, from, cuts, i) && i < n
  }

  /** Where the replay of the first `n` logs stands. */
  ghost predicate Stands(ms: seq<Marks>, from: nat, cuts: seq<nat>, flushed: nat, ops: seq<Op>, left: seq<LogFile>,
                         n: nat) {
    && n <= |ms| && n <= |left|
    && var r := Reached(ms, from, cuts, flushed, n);
       && flushed <= r <= |ops| && LogEntries(left[..n], from) == Range(ops, flushed, r)
       && (n > 0 && !Needed(ms, from, n - 1) ==> r == flushed)
       && (n > 0 && Needed(ms, from, n - 1) ==>
             r == EndOf(ms[n - 1]) || (r < EndOf(ms[n - 1]) && LostBefore(ms, from, cuts, n)))
  }

  lemma {:induction false} GaplessStands(ms: seq<Marks>, logs: seq<LogFile>, from: nat, flushed: nat, ops: seq<Op>,
                                         cuts: seq<nat>, left: seq<LogFile>, n: nat)
    requires Chain(ms, logs, from, flushed, ops) && Leaves(ms, logs, from, cuts, left) && Gapless(ms, from, cuts)
    requires n <= |ms| && flushed <= |ops|
    ensures Stands(ms, from, cuts, flushed, ops, left, n)
  {
    if n == 0 {
      assert left[..0] == [] && Range(ops, flushed, flushed) == [];
    } else {
      GaplessStands(ms, logs, from, flushed, ops, cuts, left, n - 1);
      StandsNext(ms, logs, from, flushed, ops, cuts, left, n);
    }
  }

  lemma StandsNext(ms: seq<Marks>, logs: seq<LogFile>, from: nat, flushed: nat, ops: seq<Op>, cuts: seq<nat>,
                   left: seq<LogFile>, n: nat)
    requires Chain(ms, logs, from, flushed, ops) && Leaves(ms, logs, from, cuts, left) && Gapless(ms, from, cuts)
    requires 0 < n <= |ms| && Stands(ms, from, cuts, flushed, ops, left, n - 1)
    ensures Stands(ms, from, cuts, flushed, ops, left, n)
  {
    NeededNumber(ms, logs, from, ops, cuts, left, n - 1);
    OneMoreLog(left, from, n);
    if Needed(ms, from, n - 1) {
      LeftIsRange(ms, logs, from, ops, cuts, left, n - 1);
      StartFollows(ms, logs, from, flushed, ops, cuts, left, n);
      hide Chain, Leaves;
      StandsOn(ms, from, flushed, ops, cuts, left, n);
    } else {
      hide Leaves, LogsFit;
      EarlierNotNeeded(ms, logs, from, flushed, ops, n - 1);
      Seqs.NothingMore(LogEntries(left[..n - 1], from));
    }
  }

  lemma {:induction false} OneMoreLog(left: seq<LogFile>, from: nat, n: nat)
    requires 0 < n <= |left|
    ensures LogEntries(left[..n], from) ==
            LogEntries(left[..n - 1], from) + (if left[n - 1].number >= from then left[n - 1].entries else [])
  {
    assert left[..n][..n - 1] == left[..n - 1];
  }

  lemma StandsOn(ms: seq<Marks>, from: nat, flushed: nat, ops: seq<Op>, cuts: seq<nat>, left: seq<LogFile>, n: nat)
    requires Gapless(ms, from, cuts) && 0 < n <= |ms| && n <= |left|
    requires Stands(ms, from, cuts, flushed, ops, left, n - 1)
    requires Needed(ms, from, n - 1) && ms[n - 1].start <= CutOf(ms, cuts, n - 1) <= EndOf(ms[n - 1]) <= |ops|
    requires LogEntries(left[..n], from) == LogEntries(left[..n - 1], from) + Range(ops, ms[n - 1].start,
               CutOf(ms, cuts, n - 1))
    requires var r := Reached(ms, from, cuts, flushed, n - 1);
             r == ms[n - 1].start || (r < ms[n - 1].start && LostBefore(ms, from, cuts, n - 1))
    ensures Stands(ms, from, cuts, flushed, ops, left, n)
  {
    hide LogEntries, EndOf;
    var r, m, c := Reached(ms, from, cuts, flushed, n - 1), ms[n - 1], CutOf(ms, cuts, n - 1);
    if r == m.start {
      RangeSplits(ops, flushed, r, c);
      assert c < EndOf(m) ==> Loses(ms, from, cuts, n - 1);
    } else {
      var i :| Loses(ms, from, cuts, i) && i < n - 1;
      assert c == m.start;
      assert Range(ops, c, c) == [];
      Seqs.NothingMore(Range(ops, flushed, r));
    }
  }

  lemma EarlierNotNeeded(ms: seq<Marks>, logs: seq<LogFile>, from: nat, flushed: nat, ops: seq<Op>, n: nat)
    requires Chain(ms, logs, from, flushed, ops) && n < |ms| && !Needed(ms, from, n)
    ensures n > 0 ==> !Needed(ms, from, n - 1)
  {
    hide MarksFit;
    assert n > 0 ==> logs[n - 1].number < logs[n].number;
  }

  /** Replay reaches the start of a needed log, or it lost something before. */
  lemma StartFollows(ms: seq<Marks>, logs: seq<LogFile>, from: nat, flushed: nat, ops: seq<Op>, cuts: seq<nat>,
                     left: seq<LogFile>, n: nat)
    requires Chain(ms, logs, from, flushed, ops) && 0 < n <= |ms| && Needed(ms, from, n - 1)
    requires Stands(ms, from, cuts, flushed, ops, left, n - 1)
    ensures var r := Reached(ms, from, cuts, flushed, n - 1);
            r == ms[n - 1].start || (r < ms[n - 1].start && LostBefore(ms, from, cuts, n - 1))
  {
    hide LogsFit, LogEntries, Range, LostBefore;
    if n > 1 && Needed(ms, from, n - 2) {
      assert ms[n - 1].start == EndOf(ms[n - 2]);
    } else {
      FirstNeeded(ms, from, flushed, |ops|, n - 1);
    }
  }

  lemma FirstNeeded(ms: seq<Marks>, from: nat, flushed: nat, ops: nat, i: nat)
    requires Follows(ms, from, flushed, ops) && Needed(ms, from, i) && (i == 0 || !Needed(ms, from, i - 1))
    ensures ms[i].start == flushed
  {
    assert FirstFrom(ms, from, i);
  }

  lemma {:induction false} StartsAfter(ms: seq<Marks>, logs: seq<LogFile>, from: nat, flushed: nat, ops: seq<Op>,
                                       i: nat)
    requires Chain(ms, logs, from, flushed, ops) && Needed(ms, from, i)
    ensures flushed <= ms[i].start
  {
    hide MarksFit;
    if i > 0 && ms[i - 1].number >= from {
      StartsAfter(ms, logs, from, flushed, ops, i - 1);
      LogBounds(ms, logs, from, ops, i - 1);
      assert ms[i].start == EndOf(ms[i - 1]);
    } else {
      FirstNeeded(ms, from, flushed, |ops|, i);
    }
  }

  /** An operation that a log lost is in no other log. */
  lemma LostIsGone(ms: seq<Marks>, logs: seq<LogFile>, from: nat, flushed: nat, ops: seq<Op>, cuts: seq<nat>,
                   left: seq<LogFile>, i: nat, x: nat)
    requires Chain(ms, logs, from, flushed, ops) && Leaves(ms, logs, from, cuts, left)
    requires Needed(ms, from, i) && CutOf(ms, cuts, i) <= x < EndOf(ms[i])
    ensures !KeptAt(ms, from, cuts, |ms|, x)
    ensures flushed <= x < |ops|
  {
    LeftIsRange(ms, logs, from, ops, cuts, left, i);
    StartsAfter(ms, logs, from, flushed, ops, i);
    forall l | Needed(ms, from, l)
      ensures cuts[l] <= |ms[l].ends| && !(ms[l].start <= x < CutAt(ms[l], cuts[l]))
    {
      LeftIsRange(ms, logs, from, ops, cuts, left, l);
      if l < i {
        EndsBefore(ms, logs, from, flushed, ops, l, i);
      } else if i < l {
        EndsBefore(ms, logs, from, flushed, ops, i, l);
      }
    }
  }

  ghost predicate IsPrefix(left: seq<LogFile>, from: nat, flushed: nat, ops: seq<Op>, m: nat) {
    flushed <= m <= |ops| && LogEntries(left, from) == Range(ops, flushed, m)
  }

  lemma PrefixIsGapless(ms: seq<Marks>, logs: seq<LogFile>, from: nat, flushed: nat, ops: seq<Op>, cuts: seq<nat>,
                        left: seq<LogFile>, m: nat)
    requires Chain(ms, logs, from, flushed, ops) && Leaves(ms, logs, from, cuts, left)
    requires IsPrefix(left, from, flushed, ops, m)
    ensures Gapless(ms, from, cuts)
  {
    hide LogEntries, Range, EntryOf;
    Seqs.WholeSlice(left);
    forall i, j | Loses(ms, from, cuts, i) && i < j < |ms|
      ensures CutOf(ms, cuts, j) == ms[j].start
    {
      var x, y := CutOf(ms, cuts, i), ms[j].start;
      NeededAfter(ms, logs, from, flushed, ops, i, j);
      LeftIsRange(ms, logs, from, ops, cuts, left, j);
      EndsBefore(ms, logs, from, flushed, ops, i, j);
      LostIsGone(ms, logs, from, flushed, ops, cuts, left, i, x);
      FoundIffKept(ms, logs, from, ops, cuts, left, |left|, x);
      InRange(ops, flushed, m, x);
      if CutOf(ms, cuts, j) > y {
        FoundIffKept(ms, logs, from, ops, cuts, left, |left|, y);
        InRange(ops, flushed, m, y);
      }
    }
  }

  lemma NeededAfter(ms: seq<Marks>, logs: seq<LogFile>, from: nat, flushed: nat, ops: seq<Op>, i: nat, j: nat)
    requires Chain(ms, logs, from, flushed, ops) && Needed(ms, from, i) && i < j < |ms|
    ensures Needed(ms, from, j)
  {
    hide MarksFit;
    assert logs[i].number < logs[j].number;
  }

  /** What the logs have left is a prefix of the history if and only if no log that lost an operation is
      followed by one that kept one. */
  lemma PrefixIffGapless(ms: seq<Marks>, logs: seq<LogFile>, from: nat, flushed: nat, ops: seq<Op>, cuts: seq<nat>,
                         left: seq<LogFile>)
    requires Chain(ms, logs, from, flushed, ops) && Leaves(ms, logs, from, cuts, left) && flushed <= |ops|
    ensures (exists m :: IsPrefix(left, from, flushed, ops, m)) <==> Gapless(ms, from, cuts)
  {
    if m :| IsPrefix(left, from, flushed, ops, m) {
      hide Chain, Leaves, Gapless, IsPrefix;
      PrefixIsGapless(ms, logs, from, flushed, ops, cuts, left, m);
    } else {
      hide Chain, Gapless;
      assert Gapless(ms, from, cuts) ==> IsPrefix(left, from, flushed, ops, Reached(ms, from, cuts, flushed, |ms|)) by {
        if Gapless(ms, from, cuts) {
          GaplessStands(ms, logs, from, flushed, ops, cuts, left, |ms|);
          Seqs.WholeSlice(left);
        }
      }
    }
  }

  // ----- When every crash leaves a prefix

  /** Log `i` has operations that are not synced. */
  ghost predicate Exposed(ms: seq<Marks>, from: nat, i: int) {
    Needed(ms, from, i) && ms[i].synced <= |ms[i].ends| && CutAt(ms[i], ms[i].synced) < EndOf(ms[i])
  }

  ghost predicate EveryLossIsPrefix(ms: seq<Marks>, logs: seq<LogFile>, from: nat, flushed: nat, ops: seq<Op>) {
    forall cuts, left :: Leaves(ms, logs, from, cuts, left) ==> exists m :: IsPrefix(left, from, flushed, ops, m)
  }

  ghost predicate NoneBehindExposed(ms: seq<Marks>, from: nat) {
    forall i, j :: Exposed(ms, from, i) && i < j < |ms| ==> EndOf(ms[j]) == ms[j].start
  }

  /** Every crash leaves a prefix of the history if and only if no log with unsynced operations is followed by
      a log with any operations: a log may be switched out unsynced only if nothing is written after it. */
  lemma EveryLoss(ms: seq<Marks>, logs: seq<LogFile>, from: nat, flushed: nat, ops: seq<Op>)
    requires Chain(ms, logs, from, flushed, ops) && flushed <= |ops|
    ensures EveryLossIsPrefix(ms, logs, from, flushed, ops) <==> NoneBehindExposed(ms, from)
  {
    if i, j :| Exposed(ms, from, i) && i < j < |ms| && EndOf(ms[j]) != ms[j].start {
      var cuts, left := WorstLoss(ms, logs, from, flushed, ops, i);
      NeededAfter(ms, logs, from, flushed, ops, i, j);
      assert !Gapless(ms, from, cuts) by {
        assert Loses(ms, from, cuts, i) && CutOf(ms, cuts, j) == EndOf(ms[j]);
      }
      PrefixIffGapless(ms, logs, from, flushed, ops, cuts, left);
      hide Chain, Leaves, IsPrefix;
      assert !EveryLossIsPrefix(ms, logs, from, flushed, ops);
    } else {
      forall cuts, left | Leaves(ms, logs, from, cuts, left)
        ensures exists m :: IsPrefix(left, from, flushed, ops, m)
      {
        SafeLoss(ms, logs, from, flushed, ops, cuts, left);
        PrefixIffGapless(ms, logs, from, flushed, ops, cuts, left);
      }
    }
  }

  lemma SafeLoss(ms: seq<Marks>, logs: seq<LogFile>, from: nat, flushed: nat, ops: seq<Op>, cuts: seq<nat>,
                 left: seq<LogFile>)
    requires Chain(ms, logs, from, flushed, ops) && Leaves(ms, logs, from, cuts, left) && NoneBehindExposed(ms, from)
    ensures Gapless(ms, from, cuts)
  {
    forall i, j | Loses(ms, from, cuts, i) && i < j < |ms|
      ensures CutOf(ms, cuts, j) == ms[j].start
    {
      LeftIsRange(ms, logs, from, ops, cuts, left, i);
      assert MarksFit(ms[i], logs[i], ops);
      assert CutAt(ms[i], ms[i].synced) <= CutAt(ms[i], cuts[i]);
      assert Exposed(ms, from, i);
      NeededAfter(ms, logs, from, flushed, ops, i, j);
      LeftIsRange(ms, logs, from, ops, cuts, left, j);
    }
  }

  /** Log `i` loses all that is not synced, every other log keeps everything. */
  lemma WorstLoss(ms: seq<Marks>, logs: seq<LogFile>, from: nat, flushed: nat, ops: seq<Op>, i: nat)
    returns (cuts: seq<nat>, left: seq<LogFile>)
    requires Chain(ms, logs, from, flushed, ops) && Exposed(ms, from, i)
    ensures Leaves(ms, logs, from, cuts, left)
    ensures |cuts| == |ms| && forall k :: 0 <= k < |ms| ==> cuts[k] == if k == i then ms[k].synced else |ms[k].ends|
  {
    hide MarksFit, LeftOf, Follows, Increasing, FirstRecords;
    cuts := seq(|ms|, k requires 0 <= k < |ms| => if k == i then ms[k].synced else |ms[k].ends|);
    left := seq(|ms|, k requires 0 <= k < |ms| => FirstRecords(ms[k], logs[k], cuts[k]));
    forall k | Needed(ms, from, k)
      ensures ms[k].synced <= cuts[k] <= |ms[k].ends| && LeftOf(ms[k], logs[k], cuts[k], left[k])
    {
      FirstRecordsLeft(ms[k], logs[k], ops, cuts[k]);
    }
  }

  ghost function FirstRecords(m: Marks, f: LogFile, cut: nat): (r: LogFile)
    ensures r.number == f.number
  {
    if cut <= |m.ends| && m.start <= CutAt(m, cut) <= m.start + |f.entries|
    then LogFile(f.number, f.entries[..CutAt(m, cut) - m.start]) else f
  }

  lemma FirstRecordsLeft(m: Marks, f: LogFile, ops: seq<Op>, cut: nat)
    requires MarksFit(m, f, ops) && cut <= |m.ends|
    ensures m.synced <= |m.ends| && LeftOf(m, f, cut, FirstRecords(m, f, cut))
  {
    assert CutAt(m, 0) <= CutAt(m, cut) <= CutAt(m, |m.ends|);
  }

  /** In every state of a run: each crash leaves a prefix exactly if no needed log with unsynced operations is
      followed by one with any. */
  lemma EveryCrash(t: Tracked)
    requires t.s.Up? && UpInv(t.s) && TrackInv(t)
    ensures EveryLossIsPrefix(t.logs, t.s.disk.logs, DurableLog(t.s), DurableFlushed(t.s), t.s.h.ops) <==>
            NoneBehindExposed(t.logs, DurableLog(t.s))
  {
    DurableChain(t);
    hide UpInv, TrackInv, Chain, SyncsKept, EveryLossIsPrefix, NoneBehindExposed;
    EveryLoss(t.logs, t.s.disk.logs, DurableLog(t.s), DurableFlushed(t.s), t.s.h.ops);
  }

  // ----- What the reopened store reads

  /** If the logs have a prefix left, the reopened store answers every read of the latest state as the plain map
      after that many operations, and no operation of a finished sync write is missing from them. */
  lemma {:induction false} RecoveredReads(t: Tracked, cuts: seq<nat>, left: seq<LogFile>, m: nat, k: int, snapshot: nat)
    requires t.s.Up? && UpInv(t.s) && TrackInv(t) && Leaves(t.logs, t.s.disk.logs, DurableLog(t.s), cuts, left)
    requires IsPrefix(left, DurableLog(t.s), DurableFlushed(t.s), t.s.h.ops, m) && m <= snapshot
    ensures Lookup(VersionEntries(DurableVersion(t.s)) + Members(LogEntries(left, DurableLog(t.s))), k, snapshot) ==
            Get(AsOf(t.s.h.ops, m), k)
    ensures forall x: nat :: SyncOp(t.s.q, x) ==> x < m
  {
    forall x: nat | SyncOp(t.s.q, x)
      ensures x < m
    {
      SyncedSurvives(t, cuts, left, x);
      InRange(t.s.h.ops, DurableFlushed(t.s), m, x);
    }
    DurableAlways(t.s);
    hide UpInv, TrackInv, Leaves, SyncOp;
    PrefixServes(DurableVersion(t.s), t.s.h.ops, DurableFloor(t.s), DurableFlushed(t.s), m, k, snapshot);
  }

  lemma {:induction false} PrefixServes(v: Version, ops: seq<Op>, floor: nat, flushed: nat, m: nat, k: int,
                                        snapshot: nat)
    requires TableInv(v, ops, floor, flushed) && flushed <= m <= |ops| && m <= snapshot
    ensures Lookup(VersionEntries(v) + Members(Range(ops, flushed, m)), k, snapshot) == Get(AsOf(ops, m), k)
  {
    hide Good;
    var es := VersionEntries(v) + Members(Range(ops, flushed, m));
    RangeIsSpan(ops, flushed, m);
    AgreesRange(VersionEntries(v), ops, floor, flushed, m);
    assert FromHistory(es, ops) && forall e :: e in es ==> e.key.sn <= m;
    FromHistoryIsUnique(es, ops);
    hide FromHistory, Range;
    LookupSameVisible(es, es, k, snapshot, m);
  }

  // ----- A sync write behind an unsynced one

  ghost predicate Path(t: Tracked, steps: seq<TStep>, t': Tracked)
    decreases |steps|
  {
    if steps == [] then t == t'
    else exists mid :: TDoes(t, mid, steps[0]) && Path(mid, steps[1..], t')
  }

  lemma {:induction false} PathStep(t: Tracked, steps: seq<TStep>, mid: Tracked, step: TStep, t': Tracked)
    requires Path(t, steps, mid) && TDoes(mid, t', step)
    ensures Path(t, steps + [step], t')
    decreases |steps|
  {
    hide TDoes;
    var all := steps + [step];
    if steps == [] {
      assert all[0] == step && all[1..] == [] && Path(t', [], t');
    } else {
      var next :| TDoes(t, next, steps[0]) && Path(next, steps[1..], mid);
      PathStep(next, steps[1..], mid, step, t');
      assert all[0] == steps[0] && all[1..] == steps[1..] + [step];
    }
  }

  /** A path on which every state satisfies the invariants. */
  ghost predicate Arrives(t: Tracked, steps: seq<TStep>, t': Tracked) {
    Path(t, steps, t') && Inv(t'.s) && TrackInv(t')
  }

  lemma GoOn(t: Tracked, steps: seq<TStep>, mid: Tracked, step: TStep, t': Tracked)
    requires Arrives(t, steps, mid) && TDoes(mid, t', step)
    ensures Arrives(t, steps + [step], t')
  {
    hide Inv, TrackInv, Path, TDoes;
    PathStep(t, steps, mid, step, t');
    TrackedStep(mid, t', step);
  }

  /** No writer is waiting. */
  ghost predicate Quiet(s: State) {
    s.Up? && s.phase.Idle? && s.writers == []
  }

  function AfterEnqueue(s: State, w: Writer): State
    requires s.Up?
  {
    s.(writers := s.writers + [w], q := s.q.(arrived := s.q.arrived + [w]))
  }

  function AfterSwitch(s: State): State
    requires s.Up?
  {
    s.(imm := Some(s.mem), mem := [], readers := Unshare(s.readers), logfile := s.nextFile, nextFile := s.nextFile + 1,
       disk := s.disk.(logs := s.disk.logs + [LogFile(s.nextFile, [])]),
       h := s.h.(frozen := s.h.applied))
  }

  function AfterAppend(s: State, n: nat): State
    requires s.Up? && s.disk.logs != [] && n <= |s.writers|
  {
    var ops := s.h.ops + Ops(s.writers[..n]);
    s.(phase := Logged(n), h := s.h.(ops := ops),
        disk := s.disk.(logs := AppendLog(s.disk.logs, Range(ops, |s.h.ops|, |ops|))))
  }

  function AfterInsert(s: State): State
    requires s.Up? && s.h.applied < |s.h.ops|
  {
    var e := EntryOf(s.h.ops, s.h.applied);
    s.(mem := MemAdd(s.mem, e), readers := SeeInsert(s.readers, e), h := s.h.(applied := s.h.applied + 1))
  }

  function AfterFinish(s: State, n: nat): State
    requires s.Up? && n <= |s.writers|
  {
    s.(lastSequence := |s.h.ops|, writers := s.writers[n..], phase := Idle, q := s.q.(finished := s.q.finished + n))
  }

  lemma Grouping(a: Tracked, b: Tracked, w: Writer)
    requires a.s.Up? && a.s.phase.Idle? && a.s.writers == [w] && w.batch.Some?
    requires b == a.(s := a.s.(phase := Grouped(1)))
    ensures TDoes(a, b, Do(StepGroup(1)))
  {
    hide BackgroundStep, ReadStep, CrashStep;
    assert IsGroup(a.s.writers, 1);
  }

  lemma Appending(a: Tracked, b: Tracked)
    requires a.s.Up? && a.s.phase == Grouped(1) && |a.s.writers| >= 1 && a.s.disk.logs != [] && a.logs != []
    requires b.s == AfterAppend(a.s, 1) && |b.s.h.ops| <= MAX_SEQUENCE && b.logs == AddRecord(a.logs, |b.s.h.ops|)
    ensures TDoes(a, b, Do(StepAppend))
  {
    hide BackgroundStep, ReadStep, CrashStep, Ops, Range, AppendLog;
  }

  lemma Syncing(a: Tracked, b: Tracked)
    requires a.s.Up? && a.s.phase.Logged? && a.logs != [] && b == a.(logs := SyncLast(a.logs))
    ensures TDoes(a, b, Sync)
  {
  }

  lemma Inserting(a: Tracked, b: Tracked)
    requires a.s.Up? && a.s.phase.Logged? && a.s.h.applied < |a.s.h.ops| && LeaderSynced(a.s, a.logs)
    requires b == a.(s := AfterInsert(a.s))
    ensures TDoes(a, b, Do(StepInsert))
  {
    hide BackgroundStep, ReadStep, CrashStep, MemAdd, SeeInsert;
  }

  lemma Finishing(a: Tracked, b: Tracked)
    requires a.s.Up? && a.s.phase == Logged(1) && |a.s.writers| >= 1 && a.s.h.applied == |a.s.h.ops|
    requires LeaderSynced(a.s, a.logs)
    requires b == a.(s := AfterFinish(a.s, 1))
    ensures TDoes(a, b, Do(StepFinish))
  {
    hide BackgroundStep, ReadStep, CrashStep;
  }

  lemma LastSynced(ms: seq<Marks>, end: nat)
    requires ms != []
    ensures AddRecord(ms, end) != []
    ensures var r := SyncLast(AddRecord(ms, end));
            r != [] && r[|r| - 1].synced == |r[|r| - 1].ends|
  {
  }

  /** The only writer waiting, with one operation. */
  ghost predicate Alone(s: State, w: Writer, op: Op) {
    s.Up? && s.writers == [w] && w.batch == Some([op])
  }

  /** Its group is in the log, synced if it asked for it. */
  ghost predicate InLog(a: Tracked, b: Tracked, w: Writer, op: Op) {
    && a.s.Up? && a.logs != [] && Alone(b.s, w, op) && b.s.phase == Logged(1) && LeaderSynced(b.s, b.logs)
    && b.s.h.applied == |a.s.h.ops| && b.s.h.ops == a.s.h.ops + [op]
    && b.logs == (var r := AddRecord(a.logs, |a.s.h.ops| + 1); if w.sync then SyncLast(r) else r)
    && SameRest(a.s, b.s) && b.s.q == a.s.q
  }

  ghost predicate SameRest(s: State, s': State) {
    && s.Up? && s'.Up? && s'.h.flushed == s.h.flushed && s'.imm == s.imm
    && s'.logNumber == s.logNumber && s'.installing == s.installing
  }

  ghost predicate Waiting(t: Tracked, w: Writer, op: Op) {
    && Alone(t.s, w, op) && t.s.phase.Idle? && |t.s.h.ops| < MAX_SEQUENCE
    && t.s.h.applied == |t.s.h.ops| && t.s.disk.logs != [] && t.logs != []
  }

  /** It is done. */
  ghost predicate Wrote(a: Tracked, b: Tracked, w: Writer, op: Op) {
    && Quiet(b.s) && SameRest(a.s, b.s) && a.logs != []
    && b.logs == (var r := AddRecord(a.logs, |a.s.h.ops| + 1); if w.sync then SyncLast(r) else r)
    && b.s.h.ops == a.s.h.ops + [op] && b.s.q == a.s.q.(finished := a.s.q.finished + 1)
  }

  lemma Logs(t: Tracked, steps: seq<TStep>, a: Tracked, w: Writer, op: Op) returns (b: Tracked, more: seq<TStep>)
    requires Arrives(t, steps, a) && Waiting(a, w, op)
    ensures Arrives(t, more, b) && InLog(a, b, w, op)
  {
    hide Inv, TrackInv, Arrives, Range, Ops, AppendLog, TDoes, WriteStep, AddRecord, SyncLast;
    OpsOne(w);
    assert a.s.writers[..1] == [w];
    var g := a.(s := a.s.(phase := Grouped(1)));
    Grouping(a, g, w);
    GoOn(t, steps, a, Do(StepGroup(1)), g);
    b := Tracked(AfterAppend(g.s, 1), AddRecord(g.logs, |a.s.h.ops| + 1));
    Appending(g, b);
    GoOn(t, steps + [Do(StepGroup(1))], g, Do(StepAppend), b);
    more := steps + [Do(StepGroup(1))] + [Do(StepAppend)];
    LastSynced(a.logs, |a.s.h.ops| + 1);
    if w.sync {
      var y := b.(logs := SyncLast(b.logs));
      Syncing(b, y);
      GoOn(t, more, b, Sync, y);
      b, more := y, more + [Sync];
    }
  }

  /** A waiting writer with one operation is alone in its group: it logs, syncs if it asked for it, inserts and
      is done. */
  lemma WritesAlone(t: Tracked, steps: seq<TStep>, a: Tracked, w: Writer, op: Op) returns (b: Tracked, more: seq<TStep>)
    requires Arrives(t, steps, a) && Waiting(a, w, op)
    ensures Arrives(t, more, b) && Wrote(a, b, w, op)
  {
    hide Waiting, Arrives, InLog, Wrote;
    var l, logged := Logs(t, steps, a, w, op);
    b, more := Ends(t, logged, a, l, w, op);
  }

  lemma Ends(t: Tracked, steps: seq<TStep>, a: Tracked, l: Tracked, w: Writer, op: Op)
    returns (b: Tracked, more: seq<TStep>)
    requires Arrives(t, steps, l) && InLog(a, l, w, op)
    ensures Arrives(t, more, b) && Wrote(a, b, w, op)
  {
    hide Arrives, MemAdd, SeeInsert, TDoes, AddRecord, SyncLast;
    assert |l.s.h.ops| == |a.s.h.ops| + 1;
    var i := l.(s := AfterInsert(l.s));
    assert LeaderSynced(i.s, i.logs);
    Inserting(l, i);
    GoOn(t, steps, l, Do(StepInsert), i);
    b := i.(s := AfterFinish(i.s, 1));
    hide LeaderSynced;
    Finishing(i, b);
    GoOn(t, steps + [Do(StepInsert)], i, Do(StepFinish), b);
    more := steps + [Do(StepInsert)] + [Do(StepFinish)];
  }

  lemma Enqueuing(a: Tracked, b: Tracked, w: Writer)
    requires a.s.Up? && b == a.(s := AfterEnqueue(a.s, w))
    ensures TDoes(a, b, Do(StepEnqueue(w)))
  {
    hide BackgroundStep, ReadStep, CrashStep;
  }

  lemma Switching(a: Tracked, b: Tracked)
    requires a.s.Up? && a.s.phase.Idle? && a.s.writers != [] && a.s.imm.None?
    requires b == Tracked(AfterSwitch(a.s), a.logs + [NewLog(a.s.nextFile, |a.s.h.ops|)])
    ensures TDoes(a, b, Do(StepSwitch))
  {
    hide BackgroundStep, ReadStep, CrashStep;
  }

  lemma QuietFacts(t: Tracked)
    requires Inv(t.s) && TrackInv(t) && Quiet(t.s)
    ensures t.s.h.applied == |t.s.h.ops| && t.s.disk.logs != [] && t.logs != []
    ensures t.logs[|t.logs| - 1].number >= t.s.logNumber && EndOf(t.logs[|t.logs| - 1]) == |t.s.h.ops|
    ensures t.logs[|t.logs| - 1].synced <= |t.logs[|t.logs| - 1].ends|
    ensures CutAt(t.logs[|t.logs| - 1], t.logs[|t.logs| - 1].synced) <= |t.s.h.ops|
  {
    hide UpInv, SyncsKept, MarksFit, Ops, EndOf, CutAt;
    UpBasics(t.s);
    assert Follows(t.logs, t.s.logNumber, t.s.h.flushed, |t.s.h.ops|);
    LogBounds(t.logs, t.s.disk.logs, t.s.logNumber, t.s.h.ops, |t.logs| - 1);
  }

  /** A writer has come to a quiet store. */
  ghost predicate Came(a: Tracked, b: Tracked, w: Writer, op: Op) {
    && Waiting(b, w, op) && SameRest(a.s, b.s) && b.logs == a.logs
    && b.s.h.ops == a.s.h.ops && b.s.q == a.s.q.(arrived := a.s.q.arrived + [w])
  }

  lemma Comes(t: Tracked, steps: seq<TStep>, a: Tracked, w: Writer, op: Op) returns (b: Tracked)
    requires Arrives(t, steps, a) && Quiet(a.s) && w.batch == Some([op]) && |a.s.h.ops| < MAX_SEQUENCE
    ensures Arrives(t, steps + [Do(StepEnqueue(w))], b) && Came(a, b, w, op)
  {
    hide Inv, TrackInv, TDoes, EndOf, CutAt, Path;
    QuietFacts(a);
    hide Arrives;
    b := a.(s := AfterEnqueue(a.s, w));
    Enqueuing(a, b, w);
    GoOn(t, steps, a, Do(StepEnqueue(w)), b);
    assert [] + [w] == [w];
  }

  /** It makes room first. */
  ghost predicate MadeRoom(a: Tracked, b: Tracked, w: Writer, op: Op) {
    && Waiting(b, w, op) && a.s.Up? && SameRest(a.s, b.s.(imm := a.s.imm)) && b.s.h.ops == a.s.h.ops && b.s.q == a.s.q
    && b.logs == a.logs + [NewLog(a.s.nextFile, |a.s.h.ops|)]
  }

  lemma MakesRoom(t: Tracked, steps: seq<TStep>, a: Tracked, w: Writer, op: Op) returns (b: Tracked)
    requires Arrives(t, steps, a) && Waiting(a, w, op) && a.s.imm.None?
    ensures Arrives(t, steps + [Do(StepSwitch)], b) && MadeRoom(a, b, w, op)
  {
    hide Arrives, TDoes;
    b := Tracked(AfterSwitch(a.s), a.logs + [NewLog(a.s.nextFile, |a.s.h.ops|)]);
    Switching(a, b);
    GoOn(t, steps, a, Do(StepSwitch), b);
  }

  ghost predicate BothWrote(t: Tracked, t': Tracked, w1: Writer, op1: Op, w2: Writer, op2: Op, number: nat) {
    && t.s.Up? && t'.s.Up? && t.logs != []
    && t'.s.q == Queue(t.s.q.arrived + [w1] + [w2], t.s.q.finished + 2) && t'.s.h.ops == t.s.h.ops + [op1] + [op2]
    && t'.s.installing.None? && t'.s.logNumber == t.s.logNumber
    && var n := |t.s.h.ops|;
       t'.logs == SyncLast(AddRecord(AddRecord(t.logs, n + 1) + [NewLog(number, n + 1)], n + 2))
  }

  lemma BothWrite(t: Tracked, w1: Writer, op1: Op, w2: Writer, op2: Op)
    returns (t': Tracked, steps: seq<TStep>, number: nat)
    requires Arrives(t, [], t) && Quiet(t.s) && t.s.imm.None? && t.s.installing.None?
    requires |t.s.h.ops| + 2 <= MAX_SEQUENCE
    requires w1.batch == Some([op1]) && !w1.sync && w2.batch == Some([op2]) && w2.sync
    ensures Arrives(t, steps, t') && BothWrote(t, t', w1, op1, w2, op2, number)
  {
    hide Inv, TrackInv, Arrives, AddRecord, SyncLast, NewLog, Waiting;
    var a := Comes(t, [], t, w1, op1);
    var b, s1 := WritesAlone(t, [] + [Do(StepEnqueue(w1))], a, w1, op1);
    var c := Comes(t, s1, b, w2, op2);
    var d := MakesRoom(t, s1 + [Do(StepEnqueue(w2))], c, w2, op2);
    t', steps := WritesAlone(t, s1 + [Do(StepEnqueue(w2))] + [Do(StepSwitch)], d, w2, op2);
    number := c.s.nextFile;
  }

  /** From every quiet state: a write without sync, a switch of the memtable and a sync write, both writers done.
      A crash can then lose the first operation and keep the second. */
  lemma LaterSurvivesAlone(t: Tracked, w1: Writer, op1: Op, w2: Writer, op2: Op)
    returns (t': Tracked, steps: seq<TStep>, cuts: seq<nat>, left: seq<LogFile>)
    requires Inv(t.s) && TrackInv(t) && Quiet(t.s) && t.s.imm.None? && t.s.installing.None?
    requires |t.s.h.ops| + 2 <= MAX_SEQUENCE
    requires w1.batch == Some([op1]) && !w1.sync && w2.batch == Some([op2]) && w2.sync
    ensures Arrives(t, steps, t') && t'.s.Up?
    ensures t'.s.q == Queue(t.s.q.arrived + [w1] + [w2], t.s.q.finished + 2) && t'.s.h.ops == t.s.h.ops + [op1] + [op2]
    ensures Leaves(t'.logs, t'.s.disk.logs, DurableLog(t'.s), cuts, left)
    ensures var n := |t.s.h.ops|;
            && DurableFlushed(t'.s) <= n
            && EntryOf(t'.s.h.ops, n) !in LogEntries(left, DurableLog(t'.s))
            && EntryOf(t'.s.h.ops, n + 1) in LogEntries(left, DurableLog(t'.s))
  {
    hide UpInv, TrackInv, AddRecord, SyncLast, EntryOf, LogEntries, TDoes;
    QuietFacts(t);
    assert Arrives(t, [], t);
    hide Inv, Path;
    var number;
    t', steps, number := BothWrite(t, w1, op1, w2, op2);
    cuts, left := LosesOne(t, t', w1, op1, w2, op2, number);
  }

  lemma LosesOne(t: Tracked, t': Tracked, w1: Writer, op1: Op, w2: Writer, op2: Op, number: nat)
    returns (cuts: seq<nat>, left: seq<LogFile>)
    requires BothWrote(t, t', w1, op1, w2, op2, number) && Inv(t'.s) && TrackInv(t')
    requires var m := t.logs[|t.logs| - 1];
             m.number >= t.s.logNumber && m.synced <= |m.ends| && CutAt(m, m.synced) <= |t.s.h.ops|
    ensures Leaves(t'.logs, t'.s.disk.logs, DurableLog(t'.s), cuts, left)
    ensures var n := |t.s.h.ops|;
            && DurableFlushed(t'.s) <= n
            && EntryOf(t'.s.h.ops, n) !in LogEntries(left, DurableLog(t'.s))
            && EntryOf(t'.s.h.ops, n + 1) in LogEntries(left, DurableLog(t'.s))
  {
    hide UpInv, TrackInv, AddRecord, SyncLast, EntryOf, LogEntries, SyncsKept, Basics, Chain, Leaves;
    var n, i := |t.s.h.ops|, |t.logs| - 1;
    TwoRecords(t.logs, AddRecord(t.logs, n + 1), t'.logs, number, n);
    DurableChain(t');
    cuts, left := LosesFirst(t.logs[i], t'.logs, t'.s.disk.logs, DurableLog(t'.s), DurableFlushed(t'.s),
        t'.s.h.ops, i, n);
  }

  /** The logs after the two writes: one more record without sync, and a new log with one synced record. */
  lemma TwoRecords(ms: seq<Marks>, ms1: seq<Marks>, ms2: seq<Marks>, number: nat, n: nat)
    requires ms != [] && ms1 == AddRecord(ms, n + 1) && ms2 == SyncLast(AddRecord(ms1 + [NewLog(number, n + 1)], n + 2))
    ensures |ms2| == |ms| + 1
    ensures ms2[|ms| - 1] == var m := ms[|ms| - 1]; m.(ends := m.ends + [n + 1])
    ensures ms2[|ms|] == Marks(number, n + 1, [n + 2], 1)
  {
  }

  lemma LosesFirst(m: Marks, ms: seq<Marks>, logs: seq<LogFile>, from: nat, flushed: nat, ops: seq<Op>, i: nat, n: nat)
    returns (cuts: seq<nat>, left: seq<LogFile>)
    requires Chain(ms, logs, from, flushed, ops) && i + 1 < |ms| && m.synced <= |m.ends| && CutAt(m, m.synced) <= n
    requires m.number >= from && ms[i] == m.(ends := m.ends + [n + 1]) && n + 1 < |ops|
    requires ms[i + 1].start == n + 1 && ms[i + 1].ends == [n + 2]
    ensures Leaves(ms, logs, from, cuts, left) && flushed <= n
    ensures EntryOf(ops, n) !in LogEntries(left, from) && EntryOf(ops, n + 1) in LogEntries(left, from)
  {
    hide LogEntries, EntryOf;
    assert Needed(ms, from, i) && CutAt(ms[i], m.synced) == CutAt(m, m.synced);
    assert Exposed(ms, from, i);
    cuts, left := WorstLoss(ms, logs, from, flushed, ops, i);
    NeededAfter(ms, logs, from, flushed, ops, i, i + 1);
    Seqs.WholeSlice(left);
    LostIsGone(ms, logs, from, flushed, ops, cuts, left, i, n);
    FoundIffKept(ms, logs, from, ops, cuts, left, |left|, n);
    assert CutAt(ms[i + 1], cuts[i + 1]) == n + 2;
    assert KeptAt(ms, from, cuts, |ms|, n + 1);
    FoundIffKept(ms, logs, from, ops, cuts, left, |left|, n + 1);
  }
}
