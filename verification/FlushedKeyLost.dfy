/** A manual compaction that loses a key. Level 1 holds one file for key 1 and one for key 9; a manual range
    compacts both. While it runs, a memtable with key 5 is flushed: the file meets nothing at levels 0 to 2
    and goes to level 2, the output level. The compaction writes its two entries as one file, whose range
    covers key 5. From then on a search of level 2 for key 5 lands on that file, and the key is gone. */
module FlushedKeyLost {
  import opened Keys
  import opened Versions
  import opened Inputs
  import opened VersionBuilder
  import opened Compaction
  import opened Levels
  import opened GapFlush

  const PUT1 := Entry(InternalKey(1, 1, Value), "one")
  const PUT9 := Entry(InternalKey(9, 2, Value), "nine")
  const PUT5 := Entry(InternalKey(5, 3, Value), "five")

  const P := File(3, 1, PUT1.key, PUT1.key, [PUT1])
  const Q := File(4, 1, PUT9.key, PUT9.key, [PUT9])
  const F := File(5, 1, PUT5.key, PUT5.key, [PUT5])
  const O := File(6, 2, PUT1.key, PUT9.key, [PUT1, PUT9])

  /** Before the flush, after it, and with the compaction installed. */
  const V: Version := [[], [P, Q], [], [], [], [], []]
  const W: Version := [[], [P, Q], [F], [], [], [], []]
  const X: Version := [[], [], [O, F], [], [], [], []]

  const INPUT := [PUT1, PUT9]

  /** A version with files at levels 1 and 2 only. */
  predicate Holds(v: Version, one: seq<File>, two: seq<File>) {
    && |v| == NUM_LEVELS && v[1] == one && v[2] == two
    && forall l :: 0 <= l < NUM_LEVELS && l != 1 && l != 2 ==> v[l] == []
  }

  lemma VersionsHold()
    ensures Holds(V, [P, Q], []) && Holds(W, [P, Q], [F]) && Holds(X, [], [O, F])
  {
  }

  lemma LevelsTidy(v: Version, one: seq<File>, two: seq<File>)
    requires Holds(v, one, two) && Tidy(one) && Tidy(two)
    ensures TidyLevels(v)
  {
    forall l | 0 <= l < |v|
      ensures Tidy(v[l])
    {
      assert l == 1 || l == 2 || v[l] == [];
    }
  }

  lemma FilesOf(v: Version, l: nat, f: File)
    requires Holds(v, [P, Q], []) && l < |v| && f in v[l]
    ensures l == 1 && (f == P || f == Q) && ValidFile(f)
  {
    assert v[l] == [] || l == 1;
  }

  lemma IsGood(v: Version)
    requires Holds(v, [P, Q], [])
    ensures Good(v)
  {
    forall l, f | 0 <= l < |v| && f in v[l]
      ensures l == 1 && (f == P || f == Q) && ValidFile(f)
    {
      FilesOf(v, l, f);
    }
    assert Less(P.largest, Q.smallest) && Tidy([P, Q]);
    LevelsTidy(v, [P, Q], []);
    TwoFilesGood(v, P, Q);
  }

  lemma TwoFilesGood(v: Version, p: File, q: File)
    requires |v| == NUM_LEVELS && TidyLevels(v) && Less(p.largest, q.smallest) && p.number != q.number
    requires FilesValid(v) && forall l, f :: 0 <= l < |v| && f in v[l] ==> l == 1 && (f == p || f == q)
    ensures Good(v)
  {
    hide TidyLevels, ValidFile, FileNewer, Less;
    assert DisjointLevels(v) && NumbersUnique(v) && LevelsOrdered(v) && NewerByNumber(v[0]);
  }

  lemma EntriesAre(v: Version)
    requires Holds(v, [P, Q], [])
    ensures Unique(VersionEntries(v))
  {
    forall e | e in VersionEntries(v)
      ensures e in {PUT1, PUT9}
    {
      var l, f :| 0 <= l < |v| && f in v[l] && e in f.entries;
      FilesOf(v, l, f);
    }
  }

  /** A manual compaction of all keys of level 1 selects both files, with a gap between them. */
  method CompactAll(v: Version) returns (in0: seq<File>, in1: seq<File>)
    requires Holds(v, [P, Q], [])
    ensures Selection(v, 1, in0, in1) && P in in0 && Q in in0
  {
    IsGood(v);
    GoodIsValid(v);
    EntriesAre(v);
    AllOverlap();
    assert P in v[1] && Q in v[1];
    hide Good, ValidVersion, Unique, Selection;
    var next;
    in0, in1, next := CompactRange(v, 1, None, None, 3, 0);
  }

  lemma AllOverlap()
    ensures Overlapping([P, Q], None, None) == [P, Q] && TotalSize([P, Q]) == 2
  {
    assert [P, Q][..1] == [P] && [P][..0] == [];
    assert Overlapping([P], None, None) == [P];
    assert TotalUpTo([P, Q], 1) == 1;
  }

  lemma SelectedEntries(in0: seq<File>, in1: seq<File>)
    requires Selection(V, 1, in0, in1) && P in in0 && Q in in0
    ensures in1 == [] && MergedInput(INPUT, in0, in1) && !Connected(in0 + in1)
    ensures forall f :: f in in0 <==> f == P || f == Q
  {
    assert forall f :: f in in0 ==> f in V[1];
    assert LevelEntries(in0) == {PUT1, PUT9} by {
      assert PUT1 in P.entries && PUT9 in Q.entries;
    }
    assert LevelEntries(in1) == {};
    assert Members(INPUT) == {PUT1, PUT9} by {
      assert INPUT[0] in INPUT && INPUT[1] in INPUT;
    }
    assert P in in0 + in1 && Q in in0 + in1 && !Covered(in0 + in1, 5);
  }

  /** The flushed file may go to level 2. */
  lemma IsFlushed(v: Version, w: Version, in0: seq<File>, in1: seq<File>)
    requires Holds(v, [P, Q], []) && Holds(w, [P, Q], [F]) && Selection(v, 1, in0, in1)
    ensures FlushedMeanwhile(v, w, F, 1, in0, in1)
  {
    IsGood(v);
    forall l, f | 0 <= l < |v| && f in v[l]
      ensures l == 1 && (f == P || f == Q)
    {
      FilesOf(v, l, f);
    }
    LevelsTidy(w, [P, Q], [F]);
    hide Selection, Good, TidyLevels;
    assert AddsFile(v, w, F, 2) by {
      hide FileNewer, ValidFile;
    }
    hide Holds;
  }

  /** The code puts the flushed file at level 2. */
  method FlushLevel(v: Version, maxOverlap: nat) returns (level: nat)
    requires Holds(v, [P, Q], [])
    ensures level == 2
  {
    IsGood(v);
    GoodIsValid(v);
    assert Overlapping([], Some(5), Some(5)) == [] && TotalSize([]) == 0;
    assert forall g :: g in [P, Q] ==> !UserOverlap(F, g);
    level := PickLevelForMemTableOutput(v, F, maxOverlap);
  }

  /** Nothing is dropped, and one way to write the entries is a single file. */
  lemma IsCut(v: Version, oldest: nat)
    ensures CutOf([O], Written(v, 1, INPUT, oldest), 6)
  {
    AllKept(v, oldest);
    OneFile();
    OutputValid();
    hide Kept, ValidFile, EntriesOf, Flatten;
    assert forall o :: o in [O] ==> o == O;
  }

  lemma OutputValid()
    ensures ValidFile(O)
  {
    assert O.entries[0] == PUT1 && O.entries[1] == PUT9;
    assert Less(PUT1.key, PUT9.key);
    hide Less;
  }

  lemma OneFile()
    ensures Flatten(EntriesOf([O])) == INPUT
  {
    assert EntriesOf([O]) == [INPUT] && [INPUT][..0] == [];
    assert Flatten([INPUT]) == Flatten([]) + INPUT == INPUT;
  }

  lemma {:induction false} AllKept(v: Version, oldest: nat)
    ensures Kept(v, 1, INPUT, oldest, |INPUT|) == INPUT
  {
    NoneDropped(v, oldest);
    hide Dropped;
    assert INPUT[0] == PUT1 && INPUT[1] == PUT9;
    assert Kept(v, 1, INPUT, oldest, 1) == [PUT1];
  }

  lemma NoneDropped(v: Version, oldest: nat)
    ensures !Dropped(v, 1, INPUT, oldest, PUT1) && !Dropped(v, 1, INPUT, oldest, PUT9)
  {
    assert forall e :: e in INPUT ==> e == PUT1 || e == PUT9;
  }

  lemma IsInstalled(in0: seq<File>, in1: seq<File>)
    requires in1 == [] && forall f :: f in in0 <==> f == P || f == Q
    ensures Replaces(W, X, 1, in0, in1, [O])
  {
    VersionsHold();
    LevelsTidy(X, [], [O, F]);
    hide TidyLevels;
    forall l, g | 0 <= l < |W|
      ensures ReplacesAt(W, X, 1, in0, in1, [O], l, g)
    {
    }
  }

  lemma EmptyLevel(v: Version, level: nat, k: int, s: nat)
    requires level < |v| && v[level] == []
    ensures ReadFrom(v, level, k, s) == ReadFrom(v, level + 1, k, s)
  {
  }

  lemma {:induction false} EmptyBelow(v: Version, k: int, s: nat)
    requires |v| == 7 && v[3] == [] && v[4] == [] && v[5] == [] && v[6] == []
    ensures ReadFrom(v, 3, k, s) == None
  {
    EmptyLevel(v, 3, k, s);
    EmptyLevel(v, 4, k, s);
    EmptyLevel(v, 5, k, s);
    EmptyLevel(v, 6, k, s);
  }

  /** A compaction that the code selects, a flush at a level that the code may choose and a cut of the outputs
      that the code may make: level 2 is no longer disjoint, and a key that could be read is not found. */
  lemma Witness(in0: seq<File>, in1: seq<File>, oldest: nat)
    requires Selection(V, 1, in0, in1) && P in in0 && Q in in0
    ensures !Connected(in0 + in1) && FlushedMeanwhile(V, W, F, 1, in0, in1) && MergedInput(INPUT, in0, in1)
    ensures CutOf([O], Written(V, 1, INPUT, oldest), 6) && Replaces(W, X, 1, in0, in1, [O])
    ensures !PairwiseDisjoint(X[2])
    ensures ReadFrom(W, 0, 5, 3) == Some(PUT5) && PUT5 in VersionEntries(X) && ReadFrom(X, 0, 5, 3) == None
  {
    SelectedEntries(in0, in1);
    VersionsHold();
    IsFlushed(V, W, in0, in1);
    IsCut(V, oldest);
    IsInstalled(in0, in1);
    hide FlushedMeanwhile, MergedInput, CutOf, Replaces, Selection, Connected;
    assert O in X[2] && F in X[2] && PUT5 in F.entries;
    ReadBefore();
    ReadAfter(X);
  }

  lemma ReadBefore()
    ensures ReadFrom(W, 0, 5, 3) == Some(PUT5)
  {
    EmptyLevel(W, 0, 5, 3);
  }

  lemma {:induction false} ReadAfter(x: Version)
    requires Holds(x, [], [O, F])
    ensures ReadFrom(x, 0, 5, 3) == None
  {
    EmptyLevel(x, 0, 5, 3);
    EmptyLevel(x, 1, 5, 3);
    EmptyBelow(x, 5, 3);
    LandsOnO();
    assert LookedAt(x[2], 2, 5, 3) == [O];
    assert SearchRun(O.entries, 5, 3) == None;
    assert FirstHit([O], 5, 3) == None;
  }

  lemma LandsOnO()
    ensures LandsAt([O, F], LookupKey(5, 3)) == 0
  {
    assert SearchBetween([O, F], LookupKey(5, 3), 0, 1) == 0;
  }
}
