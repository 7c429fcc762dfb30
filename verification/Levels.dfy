/** The three ways a version changes: a flushed memtable joins it, a file moves down a level, a
    compaction replaces its inputs. Each keeps levels above 0 disjoint and every entry above the
    older entries of its user key. */
module Levels {
  import opened Keys
  import opened Versions
  import opened Inputs
  import opened VersionBuilder
  import opened Compaction
  import Seqs

  predicate DistinctNumbers(files: seq<File>) {
    forall i, j :: 0 <= i < j < |files| ==> files[i].number != files[j].number
  }

  /** A file number names one file of the version, at one level. */
  ghost predicate NumbersUnique(v: Version) {
    forall l, m, f, g :: 0 <= l < |v| && 0 <= m < |v| && f in v[l] && g in v[m] && f.number == g.number ==>
        l == m && f == g
  }

  ghost predicate VersionBelow(v: Version, n: nat) {
    forall l, f :: 0 <= l < |v| && f in v[l] ==> f.number < n
  }

  ghost predicate Tidy(files: seq<File>) {
    Ordered(files) && DistinctNumbers(files)
  }

  ghost predicate TidyLevels(v: Version) {
    forall l :: 0 <= l < |v| ==> Tidy(v[l])
  }

  /** Any two files of the level have disjoint key ranges. */
  ghost predicate PairwiseDisjoint(files: seq<File>) {
    forall f, g :: f in files && g in files && f != g ==> Less(f.largest, g.smallest) || Less(g.largest, f.smallest)
  }

  ghost predicate NewerByNumber(files: seq<File>) {
    forall f, g :: f in files && g in files && f.number > g.number ==> FileNewer(f, g)
  }

  ghost predicate DisjointLevels(v: Version) {
    forall l :: 0 < l < |v| ==> PairwiseDisjoint(v[l])
  }

  ghost predicate Good(v: Version) {
    && |v| == NUM_LEVELS && FilesValid(v) && TidyLevels(v) && NumbersUnique(v)
    && DisjointLevels(v) && NewerByNumber(v[0]) && LevelsOrdered(v)
  }

  lemma DisjointIsSorted(files: seq<File>)
    requires AllValid(files) && Tidy(files) && PairwiseDisjoint(files)
    ensures DisjointSorted(files)
  {
    forall i, j | 0 <= i < j < |files|
      ensures Less(files[i].largest, files[j].smallest)
    {
      var f, g := files[i], files[j];
      assert f in files && g in files && f != g;
      EntryInBounds(f, f.entries[0]);
      EntryInBounds(g, g.entries[0]);
      assert !BySmallest(g, f);
    }
  }

  lemma GoodIsValid(v: Version)
    requires Good(v)
    ensures ValidVersion(v)
  {
    assert LevelsSorted(v) by {
      forall l | 0 < l < |v|
        ensures DisjointSorted(v[l])
      {
        assert AllValid(v[l]);
        DisjointIsSorted(v[l]);
      }
    }
    assert NumbersNewer(v[0]) by {
      assert Tidy(v[0]);
    }
  }

  // ----- One edit

  /** The edit's files at a level are new there and among themselves. */
  ghost predicate Fresh(v: Version, edit: Edit, l: nat)
    requires l < |v|
  {
    && DistinctNumbers(AddedAt(edit, l))
    && forall f, g :: f in AddedAt(edit, l) && g in v[l] ==> f.number != g.number
  }

  ghost predicate FreshEdit(v: Version, edit: Edit) {
    forall l :: 0 <= l < |v| ==> Fresh(v, edit, l)
  }

  function ApplyEdit(v: Version, edit: Edit): Version {
    Build(v, [edit])
  }

  lemma ApplyEditLevel(v: Version, edit: Edit, l: nat)
    requires l < |v| && Tidy(v[l]) && Fresh(v, edit, l)
    ensures |ApplyEdit(v, edit)| == |v| && Tidy(ApplyEdit(v, edit)[l])
    ensures forall f :: f in ApplyEdit(v, edit)[l] <==>
                        (f in v[l] && f.number !in DeletedAt(edit, l)) || f in AddedAt(edit, l)
  {
    var edits := [edit];
    assert edits[..0] == [] && AddedAfter([], l) == [];
    assert FreshAt(v[l], edits[..0], edits[0], l);
    ManifestReplay(v, edits, l);
    assert ReplayPlain(FileSet(v[l]), [], l) == FileSet(v[l]);
    assert ReplayPlain(FileSet(v[l]), edits, l) == ApplyPlain(FileSet(v[l]), edit, l);
    BuildDistinct(v, edits, l);
  }

  lemma BuildDistinct(v: Version, edits: seq<Edit>, l: nat)
    requires l < |v| && DistinctNumbers(v[l]) && NeverReadded(v[l], edits, l)
    requires forall n :: 0 <= n < |edits| ==> DistinctNumbers(AddedAt(edits[n], l))
    ensures DistinctNumbers(Build(v, edits)[l])
  {
    AddedDistinct(v[l], edits, l);
    MergeDistinct(v[l], AddedAfter(edits, l), DeletedAfter(edits, l));
  }

  lemma {:induction false} AddedDistinct(base: seq<File>, edits: seq<Edit>, l: nat)
    requires NeverReadded(base, edits, l)
    requires forall n :: 0 <= n < |edits| ==> DistinctNumbers(AddedAt(edits[n], l))
    ensures DistinctNumbers(AddedAfter(edits, l)) && Apart(base, AddedAfter(edits, l))
  {
    if edits != [] {
      var n := |edits| - 1;
      NeverReaddedPrefix(base, edits, l, n);
      AddedDistinct(base, edits[..n], l);
      assert FreshAt(base, edits[..n], edits[n], l);
      SortDistinct(AddedAfter(edits[..n], l), AddedAt(edits[n], l));
      SortIntoMembers(AddedAfter(edits[..n], l), AddedAt(edits[n], l));
    }
  }

  ghost predicate Apart(a: seq<File>, b: seq<File>) {
    forall f, g :: f in a && g in b ==> f.number != g.number
  }

  lemma {:induction false} SortDistinct(sorted: seq<File>, files: seq<File>)
    requires DistinctNumbers(sorted) && DistinctNumbers(files) && Apart(files, sorted)
    ensures DistinctNumbers(SortInto(sorted, files))
  {
    if files != [] {
      var n := |files| - 1;
      assert forall f :: f in files[..n] ==> f in files;
      SortDistinct(sorted, files[..n]);
      SortIntoMembers(sorted, files[..n]);
      assert files[n] in files;
      InsertDistinct(SortInto(sorted, files[..n]), files[n]);
    }
  }

  lemma {:induction false} InsertDistinct(files: seq<File>, f: File)
    requires DistinctNumbers(files) && forall g :: g in files ==> g.number != f.number
    ensures DistinctNumbers(InsertBySmallest(files, f))
  {
    if files != [] && !BySmallest(f, files[0]) {
      assert forall g :: g in files[1..] ==> g in files;
      InsertDistinct(files[1..], f);
      InsertMembers(files[1..], f);
      PrependDistinct(files[0], InsertBySmallest(files[1..], f));
    } else {
      PrependDistinct(f, files);
    }
  }

  lemma PrependDistinct(f: File, files: seq<File>)
    requires DistinctNumbers(files) && forall g :: g in files ==> g.number != f.number
    ensures DistinctNumbers([f] + files)
  {
  }

  lemma {:induction false} MergeDistinct(base: seq<File>, added: seq<File>, deleted: set<nat>)
    requires DistinctNumbers(base) && DistinctNumbers(added) && Apart(base, added)
    ensures DistinctNumbers(Merge(base, added, deleted))
    decreases |base| + |added|
  {
    if base == [] && added == [] {
    } else if added == [] || (base != [] && !BySmallest(added[0], base[0])) {
      assert forall g :: g in base[1..] ==> g in base;
      MergeDistinct(base[1..], added, deleted);
      MergeMembers(base[1..], added, deleted);
      assert base[0] in base;
      PrependDistinct(base[0], Merge(base[1..], added, deleted));
    } else {
      assert forall g :: g in added[1..] ==> g in added;
      MergeDistinct(base, added[1..], deleted);
      MergeMembers(base, added[1..], deleted);
      assert added[0] in added;
      PrependDistinct(added[0], Merge(base, added[1..], deleted));
    }
  }

  // ----- Flushing a memtable

  /** Where a flushed file may go: level 0, or a deeper level if no file from level 0 down to there
      overlaps it. */
  ghost predicate Fits(v: Version, f: File, level: nat) {
    && level < |v|
    && (level > 0 ==> forall l, g :: 0 <= l <= level && g in v[l] ==> !UserOverlap(f, g))
  }

  /** Why a flushed file does not go below `level`: a file there at level 0, or one level down, overlaps it,
      or too much of the level after next does. */
  ghost predicate StopsAt(v: Version, f: File, level: nat, maxOverlap: nat)
    requires level + 2 < |v|
  {
    || (level == 0 && exists g :: g in v[0] && UserOverlap(f, g))
    || (exists g :: g in v[level + 1] && UserOverlap(f, g))
    || TotalSize(Overlapping(v[level + 2], Some(f.smallest.user), Some(f.largest.user))) > maxOverlap
  }

  /** Level for a flushed file: as deep as level 2 while nothing there or above overlaps it and not too
      much of the level after next does. */
  method PickLevelForMemTableOutput(v: Version, f: File, maxOverlap: nat) returns (level: nat)
    requires ValidVersion(v) && ValidFile(f)
    ensures level <= 2 && Fits(v, f, level)
    ensures level < 2 ==> StopsAt(v, f, level, maxOverlap)
    ensures forall l :: 0 <= l < level ==> !StopsAt(v, f, l, maxOverlap)
  {
    level := 0;
    EntryInBounds(f, f.entries[0]);
    LevelFacts(v, 0);
    var begin, end := Some(f.smallest.user), Some(f.largest.user);
    var overlap := SomeFileOverlapsRange(false, v[0], begin, end);
    var stop := overlap;
    assert overlap <==> exists g :: g in v[0] && UserOverlap(f, g);
    while level < 2 && !stop
      invariant level <= 2
      invariant !overlap ==> forall l, g :: 0 <= l <= level && g in v[l] ==> !UserOverlap(f, g)
      invariant overlap ==> level == 0 && stop
      invariant stop ==> level < 2 && StopsAt(v, f, level, maxOverlap)
      invariant forall l :: 0 <= l < level ==> !StopsAt(v, f, l, maxOverlap)
      decreases 2 - level, !stop
    {
      stop := StopBelow(v, f, level, maxOverlap);
      if !stop {
        level := level + 1;
      }
    }
  }

  method StopBelow(v: Version, f: File, level: nat, maxOverlap: nat) returns (stop: bool)
    requires ValidVersion(v) && ValidFile(f) && level + 2 < |v|
    ensures stop <==> (exists g :: g in v[level + 1] && UserOverlap(f, g)) ||
                      TotalSize(Overlapping(v[level + 2], Some(f.smallest.user), Some(f.largest.user))) > maxOverlap
  {
    LevelFacts(v, level + 1);
    LevelFacts(v, level + 2);
    hide ValidVersion;
    var begin, end := Some(f.smallest.user), Some(f.largest.user);
    stop := SomeFileOverlapsRange(true, v[level + 1], begin, end);
    assert forall g :: g in v[level + 1] ==> (Overlaps(g, begin, end) <==> UserOverlap(f, g));
    if !stop {
      ghost var b, e;
      var grandparents;
      grandparents, b, e := GetOverlappingInputs(level + 2, v[level + 2], begin, end);
      stop := TotalSize(grandparents) > maxOverlap;
    }
  }

  function FlushEdit(f: File, level: nat, logNumber: nat, nextFile: nat, lastSequence: nat): Edit {
    Edit({}, [(level, f)], logNumber, nextFile, lastSequence)
  }

  lemma OneAdded(f: File, level: nat, edit: Edit, l: nat)
    requires edit.added == [(level, f)]
    ensures AddedAt(edit, l) == if l == level then [f] else []
  {
    assert AddedUpTo(edit.added, 0, l) == [];
  }

  /** The edit that flushes `f` is fresh. */
  lemma FlushIsFresh(v: Version, f: File, level: nat, edit: Edit)
    requires edit.added == [(level, f)] && forall l, g :: 0 <= l < |v| && g in v[l] ==> g.number < f.number
    ensures FreshEdit(v, edit)
  {
    forall l | 0 <= l < |v|
      ensures Fresh(v, edit, l)
    {
      OneAdded(f, level, edit, l);
    }
  }

  lemma FlushFiles(v: Version, f: File, level: nat, edit: Edit, l: nat)
    requires l < |v| && TidyLevels(v) && Fresh(v, edit, l) && edit.added == [(level, f)] && edit.deleted == {}
    ensures |ApplyEdit(v, edit)| == |v| && Tidy(ApplyEdit(v, edit)[l])
    ensures forall g :: g in ApplyEdit(v, edit)[l] <==> g in v[l] || (l == level && g == f)
  {
    assert Tidy(v[l]);
    OneAdded(f, level, edit, l);
    ApplyEditLevel(v, edit, l);
  }

  /** A version `w` that has exactly the files of `v`, and `f` at `level`. */
  ghost predicate AddsFile(v: Version, w: Version, f: File, level: nat) {
    && |w| == |v| && level < |v| && TidyLevels(w)
    && forall l, g :: 0 <= l < |v| ==> (g in w[l] <==> g in v[l] || (l == level && g == f))
  }

  lemma FlushAddsFile(v: Version, f: File, level: nat, edit: Edit)
    requires TidyLevels(v) && FreshEdit(v, edit) && level < |v| && edit.added == [(level, f)] && edit.deleted == {}
    ensures AddsFile(v, ApplyEdit(v, edit), f, level)
  {
    forall l | 0 <= l < |v|
      ensures Tidy(ApplyEdit(v, edit)[l])
      ensures forall g :: g in ApplyEdit(v, edit)[l] <==> g in v[l] || (l == level && g == f)
    {
      assert Fresh(v, edit, l);
      FlushFiles(v, f, level, edit, l);
    }
  }

  /** `f` is newer than everything in `v`, in number and in content. */
  ghost predicate NewerThanAll(v: Version, f: File) {
    forall l, g :: 0 <= l < |v| && g in v[l] ==> g.number < f.number && FileNewer(f, g)
  }

  /** Flushing keeps the version good. */
  lemma FlushKeepsGood(v: Version, w: Version, f: File, level: nat)
    requires Good(v) && ValidFile(f) && Fits(v, f, level) && NewerThanAll(v, f) && AddsFile(v, w, f, level)
    ensures Good(w)
  {
    assert FilesValid(w);
    assert NumbersUnique(w) by {
      hide FileNewer, ValidFile;
    }
    FlushKeepsDisjoint(v, w, f, level);
    FlushKeepsOrder(v, w, f, level);
    assert NewerByNumber(w[0]) by {
      hide FileNewer, ValidFile;
    }
  }

  lemma FlushKeepsDisjoint(v: Version, w: Version, f: File, level: nat)
    requires DisjointLevels(v) && Fits(v, f, level) && AddsFile(v, w, f, level)
    ensures DisjointLevels(w)
  {
    forall l | 0 < l < |w|
      ensures PairwiseDisjoint(w[l])
    {
      assert PairwiseDisjoint(v[l]);
      if l == level {
        forall g | g in v[l]
          ensures Less(f.largest, g.smallest) || Less(g.largest, f.smallest)
        {
          assert !UserOverlap(f, g);
        }
      }
    }
  }

  lemma FlushKeepsOrder(v: Version, w: Version, f: File, level: nat)
    requires FilesValid(v) && ValidFile(f) && LevelsOrdered(v) && Fits(v, f, level) && NewerThanAll(v, f)
    requires AddsFile(v, w, f, level)
    ensures LevelsOrdered(w)
  {
    forall l, m, g, h | 0 <= l < m < |w| && g in w[l] && h in w[m]
      ensures FileNewer(g, h)
    {
      if g in v[l] && h in v[m] {
      } else if g in v[l] {
        assert !UserOverlap(f, g);
        NoOverlapIsNewer(g, f);
      } else {
        assert h in v[m];
      }
    }
  }

  lemma NoOverlapIsNewer(f: File, g: File)
    requires ValidFile(f) && ValidFile(g) && !UserOverlap(g, f)
    ensures FileNewer(f, g)
  {
    forall x, y | x in f.entries && y in g.entries
      ensures x.key.user != y.key.user
    {
      EntryInBounds(f, x);
      EntryInBounds(g, y);
    }
  }

  lemma FlushEntries(v: Version, w: Version, f: File, level: nat)
    requires AddsFile(v, w, f, level)
    ensures VersionEntries(w) == VersionEntries(v) + FileEntries(f)
  {
    forall e | e in VersionEntries(w)
      ensures e in VersionEntries(v) + FileEntries(f)
    {
      var l, g :| 0 <= l < |w| && g in w[l] && e in g.entries;
    }
    forall e | e in VersionEntries(v) + FileEntries(f)
      ensures e in VersionEntries(w)
    {
      if e in VersionEntries(v) {
        var l, g :| 0 <= l < |v| && g in v[l] && e in g.entries;
        assert g in w[l];
      } else {
        assert f in w[level] && e in f.entries;
      }
    }
  }

  // ----- Installing a compaction, or moving a file down

  /** The files at the output level that are not selected lie wholly before or wholly after the inputs. */
  ghost predicate Separated(files: seq<File>, in0: seq<File>, in1: seq<File>) {
    forall h :: h in files && h !in in1 ==> Before(h, in0 + in1) || After(h, in0 + in1)
  }

  ghost predicate Before(h: File, files: seq<File>) {
    forall g :: g in files ==> Less(h.largest, g.smallest)
  }

  ghost predicate After(h: File, files: seq<File>) {
    forall g :: g in files ==> Less(g.largest, h.smallest)
  }

  ghost predicate Installable(v: Version, level: nat, in0: seq<File>, in1: seq<File>) {
    Picked(v, level, in0, in1) && Separated(v[level + 1], in0, in1)
  }

  /** A finished selection can be installed. */
  lemma SelectionIsInstallable(v: Version, level: nat, in0: seq<File>, in1: seq<File>)
    requires ValidVersion(v) && Selection(v, level, in0, in1)
    ensures Installable(v, level, in0, in1)
  {
    SelectionIsPicked(v, level, in0, in1);
    var lo, hi :| HullIs(in0, lo, hi) && in1 == Overlapping(v[level + 1], Some(lo), Some(hi));
    OverlappingMembers(v[level + 1], Some(lo), Some(hi));
    LevelFacts(v, level + 1);
    forall h | h in v[level + 1] && h !in in1
      ensures Before(h, in0 + in1) || After(h, in0 + in1)
    {
      OutsideHull(v[level + 1], in0, in1, lo, hi, h);
    }
  }

  lemma OutsideHull(files: seq<File>, in0: seq<File>, in1: seq<File>, lo: int, hi: int, h: File)
    requires AllValid(files) && DisjointSorted(files) && HullIs(in0, lo, hi)
    requires forall f :: f in in1 <==> f in files && Overlaps(f, Some(lo), Some(hi))
    requires h in files && h !in in1
    ensures Before(h, in0 + in1) || After(h, in0 + in1)
  {
    var i :| 0 <= i < |files| && files[i] == h;
    EntryInBounds(h, h.entries[0]);
    assert !Overlaps(h, Some(lo), Some(hi));
    forall g | g in in1
      ensures h.largest.user < lo ==> Less(h.largest, g.smallest)
      ensures hi < h.smallest.user ==> Less(g.largest, h.smallest)
    {
      var j :| 0 <= j < |files| && files[j] == g;
      assert Overlaps(g, Some(lo), Some(hi));
      if j < i {
        SmallestIncreases(files, j, i);
      } else if i < j {
        SmallestIncreases(files, i, j);
      }
    }
  }

  /** What the outputs of a compaction are: valid files with pairwise disjoint ranges, holding only
      entries of the inputs, under numbers no other file of the version has. */
  ghost predicate OutputsOf(v: Version, level: nat, in0: seq<File>, in1: seq<File>, outs: seq<File>) {
    && AllValid(outs) && PairwiseDisjoint(outs) && DistinctNumbers(outs)
    && (forall e :: e in LevelEntries(outs) ==> e in LevelEntries(in0) + LevelEntries(in1))
    && (forall f, l, g :: f in outs && 0 <= l < |v| && g in v[l] && f.number == g.number ==> l == level && g in in0)
  }

  /** `w` is `v` with the inputs replaced by the outputs. */
  ghost predicate Replaces(v: Version, w: Version, level: nat, in0: seq<File>, in1: seq<File>, outs: seq<File>) {
    && |w| == |v| && level + 1 < |v| && TidyLevels(w)
    && forall l, g {:trigger g in w[l]} {:trigger g in v[l]} :: 0 <= l < |v| ==>
        ReplacesAt(v, w, level, in0, in1, outs, l, g)
  }

  ghost predicate ReplacesAt(v: Version, w: Version, level: nat, in0: seq<File>, in1: seq<File>, outs: seq<File>,
                             l: nat, g: File)
    requires l < |v| && l < |w|
  {
    g in w[l] <==> (g in v[l] && Unselected(level, in0, in1, l, g)) || (l == level + 1 && g in outs)
  }

  /** A file of level `l` that is not an input. */
  ghost predicate Unselected(level: nat, in0: seq<File>, in1: seq<File>, l: nat, g: File) {
    !(l == level && g in in0) && !(l == level + 1 && g in in1)
  }

  lemma InstallKeepsGood(v: Version, w: Version, level: nat, in0: seq<File>, in1: seq<File>, outs: seq<File>)
    requires Good(v) && Installable(v, level, in0, in1) && OutputsOf(v, level, in0, in1, outs)
    requires Replaces(v, w, level, in0, in1, outs)
    ensures Good(w)
  {
    assert FilesValid(w);
    InstallKeepsNumbers(v, w, level, in0, in1, outs);
    InstallKeepsDisjoint(v, w, level, in0, in1, outs);
    InstallKeepsOrder(v, w, level, in0, in1, outs);
    assert NewerByNumber(w[0]);
  }

  lemma InstallKeepsNumbers(v: Version, w: Version, level: nat, in0: seq<File>, in1: seq<File>, outs: seq<File>)
    requires NumbersUnique(v) && TidyLevels(w) && OutputsOf(v, level, in0, in1, outs)
    requires Replaces(v, w, level, in0, in1, outs)
    ensures NumbersUnique(w)
  {
    hide ValidFile, FileNewer, PairwiseDisjoint, Ordered;
    forall l, m, f, g | 0 <= l < |w| && 0 <= m < |w| && f in w[l] && g in w[m] && f.number == g.number
      ensures l == m && f == g
    {
      if l == m {
        assert Tidy(w[l]);
        var i :| 0 <= i < |w[l]| && w[l][i] == f;
        var j :| 0 <= j < |w[l]| && w[l][j] == g;
      }
    }
  }

  lemma OutputBounds(in0: seq<File>, in1: seq<File>, f: File)
    requires AllValid(in0) && AllValid(in1) && ValidFile(f)
    requires forall e :: e in f.entries ==> e in LevelEntries(in0) + LevelEntries(in1)
    ensures exists g :: g in in0 + in1 && !Less(f.smallest, g.smallest)
    ensures exists g :: g in in0 + in1 && !Less(g.largest, f.largest)
  {
    var first, last := f.entries[0], f.entries[|f.entries| - 1];
    assert first in f.entries && last in f.entries;
    var g := FileHolding(in0, in1, first);
    EntryInBounds(g, first);
    var h := FileHolding(in0, in1, last);
    EntryInBounds(h, last);
  }

  lemma FileHolding(in0: seq<File>, in1: seq<File>, e: Entry) returns (g: File)
    requires e in LevelEntries(in0) + LevelEntries(in1)
    ensures g in in0 + in1 && e in g.entries
  {
    if e in LevelEntries(in0) {
      g :| g in in0 && e in g.entries;
    } else {
      g :| g in in1 && e in g.entries;
    }
  }

  lemma InstallKeepsDisjoint(v: Version, w: Version, level: nat, in0: seq<File>, in1: seq<File>, outs: seq<File>)
    requires FilesValid(v) && DisjointLevels(v) && Installable(v, level, in0, in1)
    requires OutputsOf(v, level, in0, in1, outs)
    requires Replaces(v, w, level, in0, in1, outs)
    ensures DisjointLevels(w)
  {
    forall l | 0 < l < |w|
      ensures PairwiseDisjoint(w[l])
    {
      assert PairwiseDisjoint(v[l]);
      if l == level + 1 {
        forall h, f | h in v[l] && h !in in1 && f in outs
          ensures Less(h.largest, f.smallest) || Less(f.largest, h.smallest)
        {
          OutputApart(v, level, in0, in1, f, h);
        }
      }
    }
  }

  lemma OutputApart(v: Version, level: nat, in0: seq<File>, in1: seq<File>, f: File, h: File)
    requires FilesValid(v) && Installable(v, level, in0, in1) && ValidFile(f)
    requires forall e :: e in f.entries ==> e in LevelEntries(in0) + LevelEntries(in1)
    requires h in v[level + 1] && h !in in1
    ensures Less(h.largest, f.smallest) || Less(f.largest, h.smallest)
  {
    assert AllValid(in0) && AllValid(in1);
    OutputBounds(in0, in1, f);
    var g :| g in in0 + in1 && !Less(f.smallest, g.smallest);
    var g' :| g' in in0 + in1 && !Less(g'.largest, f.largest);
    assert Before(h, in0 + in1) ==> Less(h.largest, g.smallest);
    assert After(h, in0 + in1) ==> Less(g'.largest, h.smallest);
  }

  lemma InstallKeepsOrder(v: Version, w: Version, level: nat, in0: seq<File>, in1: seq<File>, outs: seq<File>)
    requires LevelsOrdered(v) && Picked(v, level, in0, in1) && OutputsOf(v, level, in0, in1, outs)
    requires Replaces(v, w, level, in0, in1, outs)
    ensures LevelsOrdered(w)
  {
    hide FileNewer, ValidFile, Less, PairwiseDisjoint;
    forall l, m, f, g | 0 <= l < m < |w| && f in w[l] && g in w[m]
      ensures FileNewer(f, g)
    {
      if l == level + 1 && f in outs {
        assert m != level && m != level + 1 && g in v[m];
        forall h | h in in0 + in1
          ensures FileNewer(h, g)
        {
        }
        OutputNewer(in0, in1, f, g);
      } else if m == level + 1 && g in outs {
        assert f in v[l];
        forall h | h in in0 + in1
          ensures FileNewer(f, h)
        {
        }
        OutputOlder(in0, in1, g, f);
      }
    }
  }

  lemma OutputNewer(in0: seq<File>, in1: seq<File>, f: File, g: File)
    requires forall e :: e in f.entries ==> e in LevelEntries(in0) + LevelEntries(in1)
    requires forall h :: h in in0 + in1 ==> FileNewer(h, g)
    ensures FileNewer(f, g)
  {
    forall x, y | x in f.entries && y in g.entries && x.key.user == y.key.user
      ensures x.key.sn > y.key.sn
    {
      var h := FileHolding(in0, in1, x);
      assert FileNewer(h, g);
    }
  }

  lemma OutputOlder(in0: seq<File>, in1: seq<File>, f: File, g: File)
    requires forall e :: e in f.entries ==> e in LevelEntries(in0) + LevelEntries(in1)
    requires forall h :: h in in0 + in1 ==> FileNewer(g, h)
    ensures FileNewer(g, f)
  {
    forall x, y | x in g.entries && y in f.entries && x.key.user == y.key.user
      ensures x.key.sn > y.key.sn
    {
      var h := FileHolding(in0, in1, y);
      assert FileNewer(g, h);
    }
  }

  /** The edit of a compaction: drop the inputs from their levels, add the outputs. */
  ghost function InstallEdit(level: nat, in0: seq<File>, in1: seq<File>, outs: seq<File>, logNumber: nat,
                             nextFile: nat, lastSequence: nat): Edit {
    Edit((set f | f in in0 :: (level, f.number)) + (set f | f in in1 :: (level + 1, f.number)),
         seq(|outs|, i requires 0 <= i < |outs| => (level + 1, outs[i])),
         logNumber, nextFile, lastSequence)
  }

  lemma {:induction false} OutsAdded(outs: seq<File>, at: nat, added: seq<(nat, File)>, n: nat, l: nat)
    requires |added| == |outs| && n <= |outs| && forall i :: 0 <= i < |outs| ==> added[i] == (at, outs[i])
    ensures AddedUpTo(added, n, l) == if l == at then outs[..n] else []
  {
    if n > 0 {
      OutsAdded(outs, at, added, n - 1, l);
      Seqs.SliceAppend(outs, 0, n - 1);
    }
  }

  lemma InstallEditParts(level: nat, in0: seq<File>, in1: seq<File>, outs: seq<File>, edit: Edit, l: nat)
    requires edit == InstallEdit(level, in0, in1, outs, edit.logNumber, edit.nextFile, edit.lastSequence)
    ensures AddedAt(edit, l) == if l == level + 1 then outs else []
    ensures DeletedAt(edit, l) == if l == level then Numbers(in0) else if l == level + 1 then Numbers(in1) else {}
  {
    OutsAdded(outs, level + 1, edit.added, |outs|, l);
    assert outs[..|outs|] == outs;
    forall n | n in Numbers(in0) && l == level
      ensures n in DeletedAt(edit, l)
    {
      assert (level, n) in edit.deleted;
    }
    forall n | n in Numbers(in1) && l == level + 1
      ensures n in DeletedAt(edit, l)
    {
      assert (level + 1, n) in edit.deleted;
    }
  }

  lemma InstallIsFresh(v: Version, level: nat, in0: seq<File>, in1: seq<File>, outs: seq<File>, edit: Edit)
    requires edit == InstallEdit(level, in0, in1, outs, edit.logNumber, edit.nextFile, edit.lastSequence)
    requires OutputsOf(v, level, in0, in1, outs)
    ensures FreshEdit(v, edit)
  {
    hide ValidFile, PairwiseDisjoint;
    forall l | 0 <= l < |v|
      ensures Fresh(v, edit, l)
    {
      InstallEditParts(level, in0, in1, outs, edit, l);
    }
  }

  lemma InstallLevel(v: Version, level: nat, in0: seq<File>, in1: seq<File>, outs: seq<File>, edit: Edit, l: nat,
                     g: File)
    requires edit == InstallEdit(level, in0, in1, outs, edit.logNumber, edit.nextFile, edit.lastSequence)
    requires l < |v| && Tidy(v[l]) && Fresh(v, edit, l)
    requires g in v[l] && l == level ==> (g.number in Numbers(in0) <==> g in in0)
    requires g in v[l] && l == level + 1 ==> (g.number in Numbers(in1) <==> g in in1)
    ensures |ApplyEdit(v, edit)| == |v| && ReplacesAt(v, ApplyEdit(v, edit), level, in0, in1, outs, l, g)
  {
    InstallEditParts(level, in0, in1, outs, edit, l);
    ApplyEditLevel(v, edit, l);
    hide ApplyEdit, Tidy, Fresh, InstallEdit;
  }

  /** Deleting by number deletes exactly the selected files. */
  lemma SelectedByNumber(v: Version, level: nat, files: seq<File>, l: nat, g: File)
    requires NumbersUnique(v) && level < |v| && l < |v| && g in v[l] && forall f :: f in files ==> f in v[level]
    ensures l == level ==> (g.number in Numbers(files) <==> g in files)
  {
  }

  lemma InstallReplaces(v: Version, level: nat, in0: seq<File>, in1: seq<File>, outs: seq<File>, edit: Edit)
    requires edit == InstallEdit(level, in0, in1, outs, edit.logNumber, edit.nextFile, edit.lastSequence)
    requires TidyLevels(v) && NumbersUnique(v) && Picked(v, level, in0, in1) && OutputsOf(v, level, in0, in1, outs)
    ensures FreshEdit(v, edit) && Replaces(v, ApplyEdit(v, edit), level, in0, in1, outs)
  {
    InstallIsFresh(v, level, in0, in1, outs, edit);
    hide OutputsOf, NumbersUnique, Fresh, InstallEdit, ApplyEdit, Tidy, ReplacesAt, ClosedInputs;
    forall l | 0 <= l < |v|
      ensures |ApplyEdit(v, edit)| == |v| && Tidy(ApplyEdit(v, edit)[l])
    {
      assert Tidy(v[l]) && Fresh(v, edit, l);
      ApplyEditLevel(v, edit, l);
    }
    forall l, g | 0 <= l < |v|
      ensures ReplacesAt(v, ApplyEdit(v, edit), level, in0, in1, outs, l, g)
    {
      InstallAt(v, level, in0, in1, outs, edit, l, g);
    }
  }

  lemma InstallAt(v: Version, level: nat, in0: seq<File>, in1: seq<File>, outs: seq<File>, edit: Edit, l: nat, g: File)
    requires edit == InstallEdit(level, in0, in1, outs, edit.logNumber, edit.nextFile, edit.lastSequence)
    requires l < |v| && TidyLevels(v) && NumbersUnique(v) && Picked(v, level, in0, in1) && FreshEdit(v, edit)
    ensures |ApplyEdit(v, edit)| == |v| && ReplacesAt(v, ApplyEdit(v, edit), level, in0, in1, outs, l, g)
  {
    hide NumbersUnique, RestNewer, Fresh, InstallEdit, ApplyEdit, Tidy, ReplacesAt;
    assert Tidy(v[l]) && Fresh(v, edit, l);
    if g in v[l] {
      SelectedByNumber(v, level, in0, l, g);
      SelectedByNumber(v, level + 1, in1, l, g);
    }
    InstallLevel(v, level, in0, in1, outs, edit, l, g);
  }

  lemma UnselectedApart(v: Version, level: nat, in0: seq<File>, in1: seq<File>, l: nat, g: File, e: Entry)
    requires ValidVersion(v) && Picked(v, level, in0, in1)
    requires l < |v| && g in v[l] && Unselected(level, in0, in1, l, g) && e in g.entries
    ensures e !in LevelEntries(in0) + LevelEntries(in1)
  {
    forall h | h in in0
      ensures e !in h.entries
    {
      assert if l <= level then FileNewer(g, h) else FileNewer(h, g);
    }
    LevelFacts(v, level + 1);
    forall h | h in in1
      ensures e !in h.entries
    {
      if l == level + 1 {
        NotInOtherFile(v[l], g, h, e);
      } else {
        assert if l < level + 1 then FileNewer(g, h) else FileNewer(h, g);
      }
    }
  }

  lemma NotInOtherFile(files: seq<File>, f: File, g: File, e: Entry)
    requires AllValid(files) && DisjointSorted(files) && f in files && g in files && e in f.entries && f != g
    ensures e !in g.entries
  {
    forall x | x in g.entries
      ensures Less(x.key, e.key) || Less(e.key, x.key)
    {
      var i :| 0 <= i < |files| && files[i] == f;
      var j :| 0 <= j < |files| && files[j] == g;
      EntryInBounds(f, e);
      EntryInBounds(g, x);
    }
  }

  /** After the install the version holds exactly what the drop rules leave. */
  lemma {:induction false} InstallEntries(v: Version, w: Version, level: nat, in0: seq<File>, in1: seq<File>,
                                          outs: seq<File>, input: seq<Entry>, oldest: nat)
    requires ValidVersion(v) && Picked(v, level, in0, in1) && MergedInput(input, in0, in1)
    requires Replaces(v, w, level, in0, in1, outs)
    requires LevelEntries(outs) == Members(Kept(v, level, input, oldest, |input|))
    ensures VersionEntries(w) == Remaining(v, level, input, oldest)
  {
    KeptMembers(v, level, input, oldest, |input|);
    assert input[..|input|] == input;
    forall e | e in VersionEntries(w)
      ensures e in Remaining(v, level, input, oldest)
    {
      InstalledRemains(v, w, level, in0, in1, outs, input, oldest, e);
    }
    forall e | e in Remaining(v, level, input, oldest)
      ensures e in VersionEntries(w)
    {
      RemainingInstalled(v, w, level, in0, in1, outs, input, oldest, e);
    }
  }

  lemma InstalledRemains(v: Version, w: Version, level: nat, in0: seq<File>, in1: seq<File>, outs: seq<File>,
                         input: seq<Entry>, oldest: nat, e: Entry)
    requires ValidVersion(v) && Picked(v, level, in0, in1) && MergedInput(input, in0, in1)
    requires Replaces(v, w, level, in0, in1, outs)
    requires forall x :: x in LevelEntries(outs) <==> x in input && !Dropped(v, level, input, oldest, x)
    requires e in VersionEntries(w)
    ensures e in Remaining(v, level, input, oldest)
  {
    var l, g :| 0 <= l < |w| && g in w[l] && e in g.entries;
    if l == level + 1 && g in outs {
      assert e in LevelEntries(outs);
      assert e in Members(input);
      var m, h := HomeOf(v, level, in0, in1, e);
      assert e in VersionEntries(v);
    } else {
      assert g in v[l] && Unselected(level, in0, in1, l, g);
      UnselectedApart(v, level, in0, in1, l, g, e);
      assert e !in Members(input);
    }
  }

  lemma RemainingInstalled(v: Version, w: Version, level: nat, in0: seq<File>, in1: seq<File>, outs: seq<File>,
                           input: seq<Entry>, oldest: nat, e: Entry)
    requires Picked(v, level, in0, in1) && MergedInput(input, in0, in1)
    requires Replaces(v, w, level, in0, in1, outs)
    requires forall x :: x in LevelEntries(outs) <==> x in input && !Dropped(v, level, input, oldest, x)
    requires e in Remaining(v, level, input, oldest)
    ensures e in VersionEntries(w)
  {
    if e in input {
      var g :| g in outs && e in g.entries;
      assert g in w[level + 1];
    } else {
      var l, g :| 0 <= l < |v| && g in v[l] && e in g.entries;
      assert e !in Members(input);
      assert l == level ==> g !in in0 by {
        assert g in in0 ==> e in LevelEntries(in0);
      }
      assert l == level + 1 ==> g !in in1 by {
        assert g in in1 ==> e in LevelEntries(in1);
      }
      assert g in w[l];
    }
  }

  // ----- The files a compaction writes

  ghost function EntriesOf(outputs: seq<File>): seq<seq<Entry>> {
    seq(|outputs|, i requires 0 <= i < |outputs| => outputs[i].entries)
  }

  ghost predicate NumbersApart(files: seq<File>, v: Version) {
    forall f, l, g :: f in files && 0 <= l < |v| && g in v[l] ==> f.number != g.number
  }

  /** Files cut out of one sorted run, in order, have disjoint ranges and hold exactly the run. */
  lemma {:induction false} FlattenMembers(outs: seq<File>)
    ensures LevelEntries(outs) == Members(Flatten(EntriesOf(outs)))
  {
    if outs != [] {
      var n := |outs| - 1;
      FlattenMembers(outs[..n]);
      assert EntriesOf(outs)[..n] == EntriesOf(outs[..n]);
      assert outs == outs[..n] + [outs[n]];
    }
  }

  lemma {:induction false} FlattenDisjoint(outs: seq<File>)
    requires AllValid(outs) && Sorted(Flatten(EntriesOf(outs)))
    ensures PairwiseDisjoint(outs)
  {
    if outs != [] {
      var n := |outs| - 1;
      var run, last := Flatten(EntriesOf(outs[..n])), outs[n];
      assert EntriesOf(outs)[..n] == EntriesOf(outs[..n]);
      var all := Flatten(EntriesOf(outs));
      assert all == run + last.entries;
      assert Sorted(run) by {
        assert forall i :: 0 <= i < |run| ==> all[i] == run[i];
      }
      FlattenDisjoint(outs[..n]);
      FlattenMembers(outs[..n]);
      assert last in outs;
      LastIsAfter(outs[..n], last, run);
      assert outs == outs[..n] + [last];
    }
  }

  lemma LastIsAfter(outs: seq<File>, last: File, run: seq<Entry>)
    requires AllValid(outs) && ValidFile(last) && LevelEntries(outs) == Members(run) && Sorted(run + last.entries)
    ensures forall g :: g in outs ==> Less(g.largest, last.smallest)
  {
    forall g | g in outs
      ensures Less(g.largest, last.smallest)
    {
      var all, e := run + last.entries, g.entries[|g.entries| - 1];
      assert e in LevelEntries(outs) && e in Members(run);
      var i :| 0 <= i < |run| && run[i] == e;
      assert all[i] == e && all[|run|] == last.entries[0];
    }
  }

  /** Files cut out of the entries that the drop rules leave are outputs of the compaction, on any
      version whose files have other numbers. */
  lemma {:induction false} JobOutputsOf(from: Version, v: Version, level: nat, in0: seq<File>, in1: seq<File>,
                                        input: seq<Entry>, oldest: nat, outs: seq<File>)
    requires MergedInput(input, in0, in1) && AllValid(outs) && DistinctNumbers(outs) && NumbersApart(outs, v)
    requires Flatten(EntriesOf(outs)) == Kept(from, level, input, oldest, |input|)
    ensures OutputsOf(v, level, in0, in1, outs)
    ensures LevelEntries(outs) == Members(Kept(from, level, input, oldest, |input|))
  {
    KeptSorted(from, level, input, oldest, |input|);
    KeptMembers(from, level, input, oldest, |input|);
    FlattenMembers(outs);
    FlattenDisjoint(outs);
    hide Kept, Flatten, EntriesOf, PairwiseDisjoint, Sorted, ValidFile;
    assert input[..|input|] == input;
    forall e | e in LevelEntries(outs)
      ensures e in LevelEntries(in0) + LevelEntries(in1)
    {
      assert e in Members(input);
    }
  }

  // ----- A flush inside a running compaction

  /** Rule (B) decides alike on the version the compaction started from and on the current one. */
  ghost predicate SameBase(from: Version, v: Version, level: nat, in0: seq<File>, in1: seq<File>) {
    forall e :: e in LevelEntries(in0) + LevelEntries(in1) ==> (IsBase(from, level, e.key.user) <==>
        IsBase(v, level, e.key.user))
  }

  /** A compaction that started on version `from` can be finished on version `v`. */
  ghost predicate Pending(from: Version, v: Version, level: nat, in0: seq<File>, in1: seq<File>) {
    && Installable(v, level, in0, in1)
    && NextLevelClosed(v, level, in0, in1)
    && SameBase(from, v, level, in0, in1)
  }

  /** A file that overlaps no input lies on one side of a gapless set of inputs. */
  lemma OneSide(in0: seq<File>, in1: seq<File>, f: File)
    requires Connected(in0 + in1) && Ranged(in0 + in1) && f.smallest.user <= f.largest.user
    requires forall g :: g in in0 + in1 ==> !UserOverlap(f, g)
    ensures Before(f, in0 + in1) || After(f, in0 + in1)
  {
    var all := in0 + in1;
    if a, b :| a in all && b in all && a.largest.user < f.smallest.user && f.largest.user < b.smallest.user {
      assert Covered(all, f.smallest.user);
      var h :| h in all && Contains(h, f.smallest.user);
      assert UserOverlap(f, h);
    } else {
      forall g | g in all
        ensures !UserOverlap(f, g)
      {
      }
    }
  }

  lemma FlushKeepsPending(from: Version, v: Version, w: Version, f: File, at: nat, level: nat, in0: seq<File>,
                          in1: seq<File>)
    requires FilesValid(v) && ValidFile(f) && Fits(v, f, at) && NewerThanAll(v, f) && AddsFile(v, w, f, at)
    requires Pending(from, v, level, in0, in1) && Connected(in0 + in1)
    ensures Pending(from, w, level, in0, in1)
  {
    FlushKeepsPicked(v, w, f, at, level, in0, in1);
    FlushKeepsSeparated(v, w, f, at, level, in0, in1);
    FlushKeepsClosed(v, w, f, at, level, in0, in1);
    FlushKeepsBase(v, w, f, at, level, in0, in1);
  }

  lemma FlushKeepsPicked(v: Version, w: Version, f: File, at: nat, level: nat, in0: seq<File>, in1: seq<File>)
    requires NewerThanAll(v, f) && AddsFile(v, w, f, at) && Picked(v, level, in0, in1)
    ensures Picked(w, level, in0, in1)
  {
    hide FileNewer, Tidy;
  }

  /** The flushed file overlaps no input unless it goes to level 0. */
  lemma FlushedAvoidsInputs(v: Version, f: File, at: nat, level: nat, in0: seq<File>, in1: seq<File>)
    requires Fits(v, f, at) && Picked(v, level, in0, in1)
    ensures at > level ==> forall g :: g in in0 + in1 ==> !UserOverlap(f, g)
  {
    hide RestNewer;
  }

  lemma FlushKeepsSeparated(v: Version, w: Version, f: File, at: nat, level: nat, in0: seq<File>, in1: seq<File>)
    requires FilesValid(v) && ValidFile(f) && Fits(v, f, at) && AddsFile(v, w, f, at)
    requires Installable(v, level, in0, in1) && Connected(in0 + in1)
    ensures Separated(w[level + 1], in0, in1)
  {
    FlushedAvoidsInputs(v, f, at, level, in0, in1);
    if at == level + 1 {
      assert AllValid(in0 + in1);
      ValidIsRanged(in0 + in1);
      EntryInBounds(f, f.entries[0]);
      OneSide(in0, in1, f);
    }
    hide Before, After, FileNewer, ValidFile, Connected, Tidy, RestNewer;
    forall h | h in w[level + 1] && h !in in1
      ensures Before(h, in0 + in1) || After(h, in0 + in1)
    {
      assert h in v[level + 1] || (at == level + 1 && h == f);
    }
  }

  lemma FlushKeepsClosed(v: Version, w: Version, f: File, at: nat, level: nat, in0: seq<File>, in1: seq<File>)
    requires FilesValid(v) && ValidFile(f) && AddsFile(v, w, f, at) && NewerThanAll(v, f)
    requires Picked(v, level, in0, in1) && NextLevelClosed(v, level, in0, in1)
    ensures NextLevelClosed(w, level, in0, in1)
  {
    forall d, o | d in LevelEntries(in0) + LevelEntries(in1) && LeftBehind(w, level, in1, o) && o.key.user == d.key.user
      ensures o.key.sn > d.key.sn
    {
      var h :| h in w[level + 1] && h !in in1 && o in h.entries;
      var m, g := HomeOf(v, level, in0, in1, d);
      if h in v[level + 1] {
        assert LeftBehind(v, level, in1, o);
      } else {
        assert FileNewer(f, g);
      }
    }
  }

  lemma FlushKeepsBase(v: Version, w: Version, f: File, at: nat, level: nat, in0: seq<File>, in1: seq<File>)
    requires FilesValid(v) && Fits(v, f, at) && AddsFile(v, w, f, at) && Picked(v, level, in0, in1)
    ensures SameBase(v, w, level, in0, in1)
  {
    FlushedAvoidsInputs(v, f, at, level, in0, in1);
    forall e | e in LevelEntries(in0) + LevelEntries(in1)
      ensures IsBase(v, level, e.key.user) <==> IsBase(w, level, e.key.user)
    {
      var m, g := HomeOf(v, level, in0, in1, e);
      EntryInBounds(g, e);
      assert at > level ==> !UserOverlap(f, g);
      hide FileNewer, ValidFile, Tidy, RestNewer;
      forall l, h | level + 2 <= l < |v|
        ensures h in w[l] && h !in v[l] ==> !Contains(h, e.key.user)
      {
      }
    }
  }

  // ----- Finishing a compaction on the current version

  /** Which entries are kept depends only on the drop decision of each. */
  lemma {:induction false} KeptDependsOnDrops(v: Version, v': Version, level: nat, input: seq<Entry>, oldest: nat,
                                              oldest': nat, n: nat)
    requires n <= |input|
    requires forall e :: e in input ==> (Dropped(v, level, input, oldest, e) <==> Dropped(v', level, input, oldest', e))
    ensures Kept(v, level, input, oldest, n) == Kept(v', level, input, oldest', n)
  {
    if n > 0 {
      KeptDependsOnDrops(v, v', level, input, oldest, oldest', n - 1);
      assert input[n - 1] in input;
    }
  }

  function Clip(oldest: nat, top: nat): nat {
    if oldest < top then oldest else top
  }

  /** The decisions taken at the start, with a snapshot beyond every input, are those taken at the end
      with the snapshot clipped to the newest input. */
  lemma {:induction false} DecisionsHold(from: Version, v: Version, level: nat, in0: seq<File>, in1: seq<File>,
                                         input: seq<Entry>, oldest: nat, top: nat)
    requires SameBase(from, v, level, in0, in1) && MergedInput(input, in0, in1)
    requires forall e :: e in input ==> e.key.sn <= top
    ensures Kept(from, level, input, oldest, |input|) == Kept(v, level, input, Clip(oldest, top), |input|)
  {
    hide IsBase;
    forall e | e in input
      ensures Dropped(from, level, input, oldest, e) <==> Dropped(v, level, input, Clip(oldest, top), e)
    {
      assert e in Members(input);
      assert Hidden(input, oldest, e) <==> Hidden(input, Clip(oldest, top), e);
    }
    KeptDependsOnDrops(from, v, level, input, oldest, Clip(oldest, top), |input|);
  }

  // ----- Replaying the manifest yields the version in memory

  /** A tidy list is determined by its set of files. */
  lemma {:induction false} TidyIsUnique(a: seq<File>, b: seq<File>)
    requires Tidy(a) && Tidy(b) && forall f :: f in a <==> f in b
    ensures a == b
  {
    hide Tidy;
    if a != [] {
      assert a[0] in b;
      TidyHeads(a, b);
      TidyTail(a);
      TidyTail(b);
      TidyIsUnique(a[1..], b[1..]);
      assert a == [a[0]] + a[1..] && b == [b[0]] + b[1..];
    } else {
      EmptyOrNot(b);
    }
  }

  lemma EmptyOrNot(b: seq<File>)
    ensures b == [] || exists f :: f in b
  {
    if b != [] {
      assert b[0] in b;
    }
  }

  lemma TidyHeads(a: seq<File>, b: seq<File>)
    requires Tidy(a) && Tidy(b) && a != [] && b != [] && a[0] in b && b[0] in a
    ensures a[0] == b[0]
  {
    var i :| 0 <= i < |b| && b[i] == a[0];
    var j :| 0 <= j < |a| && a[j] == b[0];
  }

  lemma TidyTail(a: seq<File>)
    requires Tidy(a) && a != []
    ensures Tidy(a[1..]) && forall f :: f in a[1..] <==> f in a && f != a[0]
  {
    TailMembers(a);
  }

  lemma TailMembers(a: seq<File>)
    requires DistinctNumbers(a) && a != []
    ensures forall f :: f in a[1..] <==> f in a && f != a[0]
  {
    assert a == [a[0]] + a[1..];
    forall f | f in a[1..]
      ensures f != a[0]
    {
      var i :| 0 <= i < |a[1..]| && a[1..][i] == f;
      assert a[i + 1] == f;
    }
  }

  /** A manifest whose every record is fresh at its place. */
  ghost predicate Replayable(base: Version, edits: seq<Edit>) {
    forall l :: 0 <= l < |base| ==> NeverReadded(base[l], edits, l) && AddsDistinct(edits, l)
  }

  ghost predicate AddsDistinct(edits: seq<Edit>, l: nat) {
    forall n :: 0 <= n < |edits| ==> DistinctNumbers(AddedAt(edits[n], l))
  }

  lemma ReplayTidy(base: Version, edits: seq<Edit>, l: nat)
    requires l < |base| && Tidy(base[l]) && NeverReadded(base[l], edits, l) && AddsDistinct(edits, l)
    ensures Tidy(Build(base, edits)[l])
  {
    ManifestReplay(base, edits, l);
    BuildDistinct(base, edits, l);
  }

  /** One more manifest record is one more edit of the version. */
  lemma ReplayOneMore(base: Version, edits: seq<Edit>, edit: Edit)
    requires TidyLevels(base) && Replayable(base, edits + [edit])
    ensures Build(base, edits + [edit]) == ApplyEdit(Build(base, edits), edit)
  {
    var v, w := Build(base, edits), Build(base, edits + [edit]);
    forall l | 0 <= l < |base|
      ensures w[l] == ApplyEdit(v, edit)[l]
    {
      assert Tidy(base[l]);
      ReplayOneMoreLevel(base, edits, edit, l);
    }
  }

  lemma ReplayOneMoreLevel(base: Version, edits: seq<Edit>, edit: Edit, l: nat)
    requires l < |base| && Tidy(base[l])
    requires NeverReadded(base[l], edits + [edit], l) && AddsDistinct(edits + [edit], l)
    ensures Build(base, edits + [edit])[l] == ApplyEdit(Build(base, edits), edit)[l]
  {
    var all := edits + [edit];
    assert all[..|edits|] == edits && all[|edits|] == edit;
    NeverReaddedPrefix(base[l], all, l, |edits|);
    assert FreshAt(base[l], all[..|edits|], all[|edits|], l);
    assert AddsDistinct(edits, l) by {
      forall n | 0 <= n < |edits|
        ensures DistinctNumbers(AddedAt(edits[n], l))
      {
        assert all[n] == edits[n];
      }
    }
    var v := Build(base, edits);
    ReplayTidy(base, edits, l);
    ReplayTidy(base, all, l);
    ManifestReplay(base, edits, l);
    ManifestReplay(base, all, l);
    MergeMembers(base[l], AddedAfter(edits, l), DeletedAfter(edits, l));
    assert Fresh(v, edit, l) by {
      assert DistinctNumbers(AddedAt(all[|edits|], l));
    }
    ApplyEditLevel(v, edit, l);
    TidyIsUnique(Build(base, all)[l], ApplyEdit(v, edit)[l]);
  }
}
