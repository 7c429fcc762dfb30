/** Memtables flushed while a compaction runs. A compaction of a manual key range may leave gaps between
    its inputs, and a flushed file can land in one at the output level. Whether the level stays searchable
    then depends on how the outputs are cut. */
module GapFlush {
  import opened Keys
  import opened Versions
  import opened Inputs
  import opened VersionBuilder
  import opened Compaction
  import opened Levels
  import Seqs

  /** A file of the output level that the compaction does not replace. */
  ghost predicate Stays(v: Version, level: nat, in1: seq<File>, h: File) {
    level + 1 < |v| && h in v[level + 1] && h !in in1
  }

  predicate DisjointFiles(f: File, g: File) {
    Less(f.largest, g.smallest) || Less(g.largest, f.smallest)
  }

  /** The compaction can be resumed on `v`: its inputs are there, and no file that stays meets one. */
  ghost predicate Resumable(v: Version, level: nat, in0: seq<File>, in1: seq<File>) {
    && Good(v) && Picked(v, level, in0, in1)
    && forall g, h :: g in in0 + in1 && Stays(v, level, in1, h) ==> DisjointFiles(g, h)
  }

  lemma ResumableAtStart(v: Version, level: nat, in0: seq<File>, in1: seq<File>)
    requires Good(v) && Selection(v, level, in0, in1)
    ensures Resumable(v, level, in0, in1) && Separated(v[level + 1], in0, in1)
  {
    hide Good, Selection, Picked;
    GoodIsValid(v);
    SelectionIsInstallable(v, level, in0, in1);
  }

  /** Every flush, wherever it goes, leaves a compaction resumable, gaps or not. */
  lemma ResumableAfterFlush(v: Version, w: Version, f: File, at: nat, level: nat, in0: seq<File>, in1: seq<File>)
    requires Resumable(v, level, in0, in1)
    requires ValidFile(f) && Fits(v, f, at) && NewerThanAll(v, f) && AddsFile(v, w, f, at)
    ensures Resumable(w, level, in0, in1)
  {
    FlushKeepsGood(v, w, f, at);
    FlushKeepsPicked(v, w, f, at, level, in0, in1);
    FlushedAvoidsInputs(v, f, at, level, in0, in1);
    hide Good, Picked, Fits, NewerThanAll, ValidFile, TidyLevels;
    forall g, h | g in in0 + in1 && Stays(w, level, in1, h)
      ensures DisjointFiles(g, h)
    {
      if h in v[level + 1] {
        assert Stays(v, level, in1, h);
      } else {
        assert !UserOverlap(f, g);
      }
    }
  }

  // ----- One cut

  /** `o` begins before `h` and ends after it. */
  predicate Straddles(o: File, h: File) {
    Less(o.smallest, h.smallest) && Less(h.largest, o.largest)
  }

  ghost predicate SomeStraddles(outs: seq<File>, v: Version, level: nat, in1: seq<File>) {
    exists o, h :: o in outs && Stays(v, level, in1, h) && Straddles(o, h)
  }

  /** An entry of the inputs lies on one side of a file that stays. */
  lemma InputBeside(v: Version, level: nat, in0: seq<File>, in1: seq<File>, e: Entry, h: File)
    requires Resumable(v, level, in0, in1) && Stays(v, level, in1, h) && e in LevelEntries(in0) + LevelEntries(in1)
    ensures Less(e.key, h.smallest) || Less(h.largest, e.key)
    ensures e !in h.entries
  {
    var m, g := HomeOf(v, level, in0, in1, e);
    assert ValidFile(g) && ValidFile(h);
    EntryInBounds(g, e);
    assert DisjointFiles(g, h);
    if e in h.entries {
      EntryInBounds(h, e);
    }
  }

  lemma OutputBeside(v: Version, level: nat, in0: seq<File>, in1: seq<File>, o: File, h: File)
    requires Resumable(v, level, in0, in1) && Stays(v, level, in1, h) && ValidFile(o)
    requires forall e :: e in o.entries ==> e in LevelEntries(in0) + LevelEntries(in1)
    ensures DisjointFiles(o, h) <==> !Straddles(o, h)
  {
    var first, last := o.entries[0], o.entries[|o.entries| - 1];
    assert first in o.entries && last in o.entries;
    InputBeside(v, level, in0, in1, first, h);
    InputBeside(v, level, in0, in1, last, h);
    EntryInBounds(o, first);
    assert ValidFile(h);
    EntryInBounds(h, h.entries[0]);
    hide Resumable;
  }

  /** The installed version is disjoint exactly if no output straddles a file that stays. */
  lemma CutDisjoint(w: Version, x: Version, level: nat, in0: seq<File>, in1: seq<File>, outs: seq<File>)
    requires Resumable(w, level, in0, in1)
    requires OutputsOf(w, level, in0, in1, outs) && Replaces(w, x, level, in0, in1, outs)
    ensures DisjointLevels(x) <==> !SomeStraddles(outs, w, level, in1)
  {
    assert DisjointLevels(w);
    hide Resumable, TidyLevels;
    forall o, h | o in outs && Stays(w, level, in1, h)
      ensures o in x[level + 1] && h in x[level + 1] && (DisjointFiles(o, h) <==> !Straddles(o, h))
    {
      assert forall e :: e in o.entries ==> e in LevelEntries(outs);
      OutputBeside(w, level, in0, in1, o, h);
    }
    hide LevelEntries, ValidFile;
    if DisjointLevels(x) {
      assert PairwiseDisjoint(x[level + 1]);
    } else {
      assert !SomeStraddles(outs, w, level, in1) ==> DisjointLevels(x) by {
        StaysDisjoint(w, x, level, in0, in1, outs);
      }
    }
  }

  lemma StaysDisjoint(w: Version, x: Version, level: nat, in0: seq<File>, in1: seq<File>, outs: seq<File>)
    requires DisjointLevels(w) && PairwiseDisjoint(outs) && Replaces(w, x, level, in0, in1, outs)
    ensures (forall o, h :: o in outs && Stays(w, level, in1, h) ==> DisjointFiles(o, h)) ==> DisjointLevels(x)
  {
    hide TidyLevels, Less;
    forall l | 0 < l < |x| && forall o, h :: o in outs && Stays(w, level, in1, h) ==> DisjointFiles(o, h)
      ensures PairwiseDisjoint(x[l])
    {
      assert PairwiseDisjoint(w[l]);
      forall f, g | f in x[l] && g in x[l] && f != g
        ensures DisjointFiles(f, g)
      {
        assert Stays(w, level, in1, f) || f in outs || l != level + 1;
        assert Stays(w, level, in1, g) || g in outs || l != level + 1;
      }
    }
  }

  // ----- Every cut

  /** `outs` is one way to cut the run `kept` into files, numbered from `next` on. */
  ghost predicate CutOf(outs: seq<File>, kept: seq<Entry>, next: nat) {
    && AllValid(outs) && DistinctNumbers(outs) && Flatten(EntriesOf(outs)) == kept
    && forall o :: o in outs ==> next <= o.number
  }

  /** What the compaction writes when it started on `from`. */
  ghost function Written(from: Version, level: nat, input: seq<Entry>, oldest: nat): seq<Entry> {
    Kept(from, level, input, oldest, |input|)
  }

  /** The run has an entry before `h` and one after it. */
  ghost predicate OnBothSides(kept: seq<Entry>, h: File) {
    exists a, b :: a in kept && b in kept && Less(a.key, h.smallest) && Less(h.largest, b.key)
  }

  ghost predicate EveryCutDisjoint(w: Version, level: nat, in0: seq<File>, in1: seq<File>, kept: seq<Entry>,
                                   next: nat) {
    forall outs, x :: CutOf(outs, kept, next) && Replaces(w, x, level, in0, in1, outs) ==> DisjointLevels(x)
  }

  lemma {:induction false} CutIsOutput(from: Version, w: Version, level: nat, in0: seq<File>, in1: seq<File>,
                                       input: seq<Entry>, oldest: nat, outs: seq<File>, next: nat)
    requires MergedInput(input, in0, in1) && VersionBelow(w, next)
    requires CutOf(outs, Written(from, level, input, oldest), next)
    ensures OutputsOf(w, level, in0, in1, outs)
    ensures LevelEntries(outs) == Members(Written(from, level, input, oldest))
  {
    hide Kept, Flatten, EntriesOf, MergedInput, OutputsOf, AllValid, DistinctNumbers;
    assert NumbersApart(outs, w);
    JobOutputsOf(from, w, level, in0, in1, input, oldest, outs);
  }

  /** The run as a single file. */
  lemma OneFileCut(kept: seq<Entry>, next: nat) returns (o: File)
    requires kept != [] && Sorted(kept) && forall i :: 0 <= i < |kept| ==> kept[i].key.sn <= MAX_SEQUENCE
    ensures o.entries == kept && CutOf([o], kept, next)
  {
    o := File(next, 0, kept[0].key, kept[|kept| - 1].key, kept);
    assert EntriesOf([o]) == [kept] && [kept][..0] == [];
    assert Flatten([kept]) == Flatten([]) + kept == kept;
  }

  lemma {:induction false} WrittenFacts(from: Version, w: Version, level: nat, in0: seq<File>, in1: seq<File>,
                                        input: seq<Entry>, oldest: nat)
    requires MergedInput(input, in0, in1) && Resumable(w, level, in0, in1)
    ensures var kept := Written(from, level, input, oldest);
            && Sorted(kept)
            && (forall e :: e in kept ==> e in LevelEntries(in0) + LevelEntries(in1))
            && (forall i :: 0 <= i < |kept| ==> kept[i].key.sn <= MAX_SEQUENCE)
  {
    KeptSorted(from, level, input, oldest, |input|);
    KeptMembers(from, level, input, oldest, |input|);
    var kept := Written(from, level, input, oldest);
    hide Written, Kept, Sorted, Dropped;
    assert input[..|input|] == input;
    forall e | e in kept
      ensures e in LevelEntries(in0) + LevelEntries(in1) && e.key.sn <= MAX_SEQUENCE
    {
      assert e in Members(input);
      var m, g := HomeOf(w, level, in0, in1, e);
      assert ValidFile(g);
    }
    assert forall i :: 0 <= i < |kept| ==> kept[i] in kept;
  }

  /** An output that straddles a file has entries of the run on both sides of it. */
  lemma StraddlerSplits(outs: seq<File>, kept: seq<Entry>, o: File, h: File)
    requires o in outs && ValidFile(o) && Straddles(o, h) && LevelEntries(outs) == Members(kept)
    ensures OnBothSides(kept, h)
  {
    var first, last := o.entries[0], o.entries[|o.entries| - 1];
    assert first in o.entries && last in o.entries;
    assert first in Members(kept) && last in Members(kept);
  }

  /** If the entries to write lie on both sides of a file that stays, one cut is a single file over it. */
  lemma CollidingCut(from: Version, w: Version, level: nat, in0: seq<File>, in1: seq<File>,
                     input: seq<Entry>, oldest: nat, next: nat, h: File) returns (outs: seq<File>, x: Version)
    requires Resumable(w, level, in0, in1) && MergedInput(input, in0, in1) && VersionBelow(w, next)
    requires Stays(w, level, in1, h) && OnBothSides(Written(from, level, input, oldest), h)
    ensures CutOf(outs, Written(from, level, input, oldest), next) && Replaces(w, x, level, in0, in1, outs)
    ensures !DisjointLevels(x)
  {
    hide *;
    WrittenFacts(from, w, level, in0, in1, input, oldest);
    var o := FileOver(Written(from, level, input, oldest), next, h);
    outs := [o];
    CutIsOutput(from, w, level, in0, in1, input, oldest, outs, next);
    x := Installed(w, level, in0, in1, outs);
    CutDisjoint(w, x, level, in0, in1, outs);
    OneStraddles(w, level, in1, o, h);
  }

  lemma OneStraddles(w: Version, level: nat, in1: seq<File>, o: File, h: File)
    requires Stays(w, level, in1, h) && Straddles(o, h)
    ensures SomeStraddles([o], w, level, in1)
  {
    assert o in [o];
  }

  lemma Installed(w: Version, level: nat, in0: seq<File>, in1: seq<File>, outs: seq<File>) returns (x: Version)
    requires Resumable(w, level, in0, in1) && OutputsOf(w, level, in0, in1, outs)
    ensures Replaces(w, x, level, in0, in1, outs)
  {
    assert TidyLevels(w) && NumbersUnique(w);
    hide TidyLevels, NumbersUnique, OutputsOf, Replaces, Picked, ApplyEdit, InstallEdit;
    var edit := InstallEdit(level, in0, in1, outs, 0, 0, 0);
    x := ApplyEdit(w, edit);
    InstallReplaces(w, level, in0, in1, outs, edit);
  }

  /** The run as a single file, which straddles `h` if the run lies on both sides of it. */
  lemma FileOver(kept: seq<Entry>, next: nat, h: File) returns (o: File)
    requires Sorted(kept) && (forall i :: 0 <= i < |kept| ==> kept[i].key.sn <= MAX_SEQUENCE) && OnBothSides(kept, h)
    ensures CutOf([o], kept, next) && Straddles(o, h)
  {
    var a, b :| a in kept && b in kept && Less(a.key, h.smallest) && Less(h.largest, b.key);
    o := OneFileCut(kept, next);
    OneFileBounds(kept, next, o, a);
    OneFileBounds(kept, next, o, b);
  }

  lemma OneFileBounds(kept: seq<Entry>, next: nat, o: File, e: Entry)
    requires CutOf([o], kept, next) && o.entries == kept && e in kept
    ensures !Less(e.key, o.smallest) && !Less(o.largest, e.key)
  {
    assert o in [o];
    EntryInBounds(o, e);
  }

  /** On every version a compaction can be resumed on: all cuts leave the levels disjoint if and only if
      the entries it writes do not lie on both sides of a file that stays. */
  lemma EveryCut(from: Version, w: Version, level: nat, in0: seq<File>, in1: seq<File>, input: seq<Entry>,
                 oldest: nat, next: nat)
    requires Resumable(w, level, in0, in1) && MergedInput(input, in0, in1) && VersionBelow(w, next)
    ensures var kept := Written(from, level, input, oldest);
            EveryCutDisjoint(w, level, in0, in1, kept, next) <==> forall h :: Stays(w, level, in1, h) ==>
                !OnBothSides(kept, h)
  {
    hide Resumable, MergedInput, VersionBelow, Written, Replaces, DisjointLevels, OnBothSides, OutputsOf, Stays;
    var kept := Written(from, level, input, oldest);
    if h :| Stays(w, level, in1, h) && OnBothSides(kept, h) {
      var outs, x := CollidingCut(from, w, level, in0, in1, input, oldest, next, h);
      assert !EveryCutDisjoint(w, level, in0, in1, kept, next);
    } else {
      forall outs, x | CutOf(outs, kept, next) && Replaces(w, x, level, in0, in1, outs)
        ensures DisjointLevels(x)
      {
        CutIsOutput(from, w, level, in0, in1, input, oldest, outs, next);
        CutDisjoint(w, x, level, in0, in1, outs);
        forall o, h | o in outs && Stays(w, level, in1, h)
          ensures !Straddles(o, h)
        {
          if Straddles(o, h) {
            StraddlerSplits(outs, kept, o, h);
          }
        }
      }
    }
  }

  // ----- Reads

  /** The read path finds the newest visible entry of every key at every snapshot. */
  ghost predicate ReadsRight(x: Version) {
    forall k, s: nat :: Answers(VersionEntries(x), k, s, ReadFrom(x, 0, k, s))
  }

  /** `h` is the first file under `o`: whatever else meets `o` begins after `h`. */
  ghost predicate FirstUnder(files: seq<File>, o: File, h: File) {
    && o in files && h in files && Straddles(o, h)
    && forall g :: g in files && g != o && g != h ==>
         DisjointFiles(g, o) || (Straddles(o, g) && Less(h.largest, g.smallest))
  }

  /** A search for an entry of the first file under `o` lands on `o`. */
  lemma LandsOnStraddler(files: seq<File>, p: nat, h: File, e: Entry)
    requires Tidy(files) && AllValid(files) && p < |files| && FirstUnder(files, files[p], h) && e in h.entries
    ensures LandsAt(files, LookupKey(e.key.user, e.key.sn)) == p
  {
    var t, o := LookupKey(e.key.user, e.key.sn), files[p];
    LandsBetween(files, t, 0, |files|);
    EntryInBounds(h, e);
    assert !Less(h.largest, t) && !Less(t, o.smallest) && Less(t, o.largest);
    forall i | 0 <= i < |files|
      ensures Less(files[i].largest, t) <==> i < p
    {
      var g := files[i];
      assert g in files;
      EntryInBounds(g, g.entries[0]);
      assert i < p ==> !BySmallest(o, g);
      assert p < i ==> !BySmallest(g, o);
      assert i != p ==> g != o;
    }
  }

  /** A read only returns entries of the files it looks into. */
  lemma {:induction false} HitIsIn(files: seq<File>, k: int, s: nat, e: Entry)
    requires forall f :: f in files ==> e !in f.entries
    ensures FirstHit(files, k, s) != Some(e)
  {
    if files != [] {
      assert files[0] in files && forall f :: f in files[1..] ==> f in files;
      HitIsIn(files[1..], k, s, e);
    }
  }

  lemma {:induction false} ReadMisses(x: Version, level: nat, k: int, s: nat, e: Entry)
    requires level <= |x|
    requires forall l, f :: level <= l < |x| && f in LookedAt(x[l], l, k, s) ==> e !in f.entries
    ensures ReadFrom(x, level, k, s) != Some(e)
    decreases |x| - level
  {
    hide LookedAt;
    if level < |x| {
      HitIsIn(LookedAt(x[level], level, k, s), k, s, e);
      ReadMisses(x, level + 1, k, s, e);
    }
  }

  /** The entry is in one file of the version, so an answer to its own snapshot is that entry. */
  lemma {:induction false} MissedIsWrong(x: Version, l: nat, h: File, e: Entry)
    requires Unique(VersionEntries(x)) && l < |x| && h in x[l] && e in h.entries
    requires ReadFrom(x, 0, e.key.user, e.key.sn) != Some(e)
    ensures !Answers(VersionEntries(x), e.key.user, e.key.sn, ReadFrom(x, 0, e.key.user, e.key.sn))
  {
    hide ReadFrom;
    assert e in VersionEntries(x) && Visible(e, e.key.user, e.key.sn);
  }

  /** What a compaction on `w` leaves when it is installed. */
  ghost predicate Finished(w: Version, x: Version, level: nat, in0: seq<File>, in1: seq<File>, outs: seq<File>) {
    Resumable(w, level, in0, in1) && OutputsOf(w, level, in0, in1, outs) && Replaces(w, x, level, in0, in1, outs)
  }

  lemma FinishedOrder(w: Version, x: Version, level: nat, in0: seq<File>, in1: seq<File>, outs: seq<File>)
    requires Finished(w, x, level, in0, in1, outs)
    ensures FilesValid(x) && NumbersUnique(x) && LevelsOrdered(x) && TidyLevels(x)
    ensures |x| == NUM_LEVELS && NewerByNumber(x[0])
  {
    assert FilesValid(x);
    assert NewerByNumber(x[0]);
    hide FilesValid, NewerByNumber;
    InstallKeepsNumbers(w, x, level, in0, in1, outs);
    InstallKeepsOrder(w, x, level, in0, in1, outs);
  }

  /** No read at its own snapshot finds an entry of the first file under an output. */
  lemma {:induction false} EntryLost(w: Version, x: Version, level: nat, in0: seq<File>, in1: seq<File>,
                                     outs: seq<File>, o: File, h: File, e: Entry)
    requires Finished(w, x, level, in0, in1, outs) && o in outs && Stays(w, level, in1, h) && e in h.entries
    requires FirstUnder(x[level + 1], o, h)
    ensures ReadFrom(x, 0, e.key.user, e.key.sn) != Some(e)
  {
    FinishedOrder(w, x, level, in0, in1, outs);
    NotInOutput(w, level, in0, in1, outs, o, h, e);
    LooksAtStraddler(x, level + 1, o, h, e);
    hide Finished, Stays, NumbersUnique, NewerByNumber, FirstUnder, TidyLevels, FilesValid, LookedAt, ReadFrom;
    forall l, f | 0 <= l < |x| && f in LookedAt(x[l], l, e.key.user, e.key.sn)
      ensures e !in f.entries
    {
      LookedAtMembers(x[l], l, e.key.user, e.key.sn);
      assert l < level + 1 ==> FileNewer(f, h);
      assert level + 1 < l ==> FileNewer(h, f);
    }
    ReadMisses(x, 0, e.key.user, e.key.sn, e);
  }

  lemma NotInOutput(w: Version, level: nat, in0: seq<File>, in1: seq<File>, outs: seq<File>, o: File, h: File, e: Entry)
    requires Resumable(w, level, in0, in1) && OutputsOf(w, level, in0, in1, outs)
    requires o in outs && Stays(w, level, in1, h) && e in h.entries
    ensures e !in o.entries
  {
    hide Resumable, Stays;
    if e in o.entries {
      assert e in LevelEntries(outs);
      InputBeside(w, level, in0, in1, e, h);
    }
  }

  lemma LooksAtStraddler(x: Version, l: nat, o: File, h: File, e: Entry)
    requires FilesValid(x) && TidyLevels(x) && 0 < l < |x| && FirstUnder(x[l], o, h) && e in h.entries
    ensures forall f :: f in LookedAt(x[l], l, e.key.user, e.key.sn) ==> f == o
  {
    var p :| 0 <= p < |x[l]| && x[l][p] == o;
    assert Tidy(x[l]) && AllValid(x[l]);
    hide FirstUnder;
    LandsOnStraddler(x[l], p, h, e);
  }

  /** Under an output that straddles a file there is a first one. */
  lemma {:induction false} FirstExists(w: Version, x: Version, level: nat, in0: seq<File>, in1: seq<File>,
                                       outs: seq<File>,
                                       o: File, q: nat) returns (first: File)
    requires Finished(w, x, level, in0, in1, outs) && o in outs && q < |w[level + 1]|
    requires w[level + 1][q] !in in1 && Straddles(o, w[level + 1][q])
    ensures Stays(w, level, in1, first) && FirstUnder(x[level + 1], o, first)
    decreases q
  {
    var files := w[level + 1];
    hide Finished;
    if g :| g in files[..q] && g !in in1 && Straddles(o, g) {
      var i :| 0 <= i < q && files[i] == g;
      first := FirstExists(w, x, level, in0, in1, outs, o, i);
    } else {
      first := files[q];
      IsFirst(w, x, level, in0, in1, outs, o, q);
    }
  }

  ghost predicate NoneUnder(files: seq<File>, in1: seq<File>, o: File) {
    forall g :: g in files && g !in in1 ==> !Straddles(o, g)
  }

  lemma IsFirst(w: Version, x: Version, level: nat, in0: seq<File>, in1: seq<File>, outs: seq<File>, o: File, q: nat)
    requires Finished(w, x, level, in0, in1, outs) && o in outs && q < |w[level + 1]|
    requires w[level + 1][q] !in in1 && Straddles(o, w[level + 1][q])
    requires NoneUnder(w[level + 1][..q], in1, o)
    ensures FirstUnder(x[level + 1], o, w[level + 1][q])
  {
    var files, h := w[level + 1], w[level + 1][q];
    GoodIsValid(w);
    LevelFacts(w, level + 1);
    assert h in files && h in x[level + 1] && o in x[level + 1];
    forall g | g in x[level + 1] && g != o && g != h
      ensures DisjointFiles(g, o) || (Straddles(o, g) && Less(h.largest, g.smallest))
    {
      OtherUnder(w, x, level, in0, in1, outs, o, q, g);
    }
  }

  lemma OtherUnder(w: Version, x: Version, level: nat, in0: seq<File>, in1: seq<File>, outs: seq<File>, o: File,
                   q: nat, g: File)
    requires Finished(w, x, level, in0, in1, outs) && o in outs && q < |w[level + 1]|
    requires DisjointSorted(w[level + 1]) && g in x[level + 1] && g != o && g != w[level + 1][q]
    requires NoneUnder(w[level + 1][..q], in1, o)
    ensures DisjointFiles(g, o) || (Straddles(o, g) && Less(w[level + 1][q].largest, g.smallest))
  {
    if g !in outs {
      assert Stays(w, level, in1, g);
      assert forall e :: e in o.entries ==> e in LevelEntries(outs);
      OutputBeside(w, level, in0, in1, o, g);
      var j :| 0 <= j < |w[level + 1]| && w[level + 1][j] == g;
      assert j < q ==> g in w[level + 1][..q];
    }
  }

  /** A straddled file costs a read of an entry of the version. */
  lemma StraddledReadLost(w: Version, x: Version, level: nat, in0: seq<File>, in1: seq<File>, outs: seq<File>)
    requires Finished(w, x, level, in0, in1, outs) && Unique(VersionEntries(w)) && SomeStraddles(outs, w, level, in1)
    ensures !ReadsRight(x)
  {
    NothingNew(w, x, level, in0, in1, outs);
    FinishedOrder(w, x, level, in0, in1, outs);
    var o, h :| o in outs && Stays(w, level, in1, h) && Straddles(o, h);
    var q :| 0 <= q < |w[level + 1]| && w[level + 1][q] == h;
    hide Finished, LevelsOrdered, TidyLevels, NumbersUnique, NewerByNumber, ReadFrom, Answers, Straddles;
    var first := FirstExists(w, x, level, in0, in1, outs, o, q);
    var e := FirstEntry(x, level + 1, first);
    EntryLost(w, x, level, in0, in1, outs, o, first, e);
    MissedIsWrong(x, level + 1, first, e);
  }

  lemma NothingNew(w: Version, x: Version, level: nat, in0: seq<File>, in1: seq<File>, outs: seq<File>)
    requires Finished(w, x, level, in0, in1, outs) && Unique(VersionEntries(w))
    ensures Unique(VersionEntries(x))
  {
    hide Good, ClosedInputs, TidyLevels, DisjointFiles;
    forall e | e in VersionEntries(x)
      ensures e in VersionEntries(w)
    {
      var l, g :| 0 <= l < |x| && g in x[l] && e in g.entries;
      if g in outs && l == level + 1 {
        assert e in LevelEntries(outs);
        var m, f := HomeOf(w, level, in0, in1, e);
      }
    }
  }

  /** Reads of the installed version are right, for every key and snapshot, exactly if no output straddles
      a file that stays. */
  lemma CutReads(w: Version, x: Version, level: nat, in0: seq<File>, in1: seq<File>, outs: seq<File>)
    requires Finished(w, x, level, in0, in1, outs) && Unique(VersionEntries(w))
    ensures ReadsRight(x) <==> !SomeStraddles(outs, w, level, in1)
  {
    if SomeStraddles(outs, w, level, in1) {
      StraddledReadLost(w, x, level, in0, in1, outs);
    } else {
      CutDisjoint(w, x, level, in0, in1, outs);
      FinishedOrder(w, x, level, in0, in1, outs);
      hide Finished, FilesValid, LevelsOrdered, TidyLevels, NumbersUnique, NewerByNumber, DisjointLevels, ReadFrom;
      hide Answers;
      GoodIsValid(x);
      hide Good, ValidVersion;
      forall k, s: nat
        ensures Answers(VersionEntries(x), k, s, ReadFrom(x, 0, k, s))
      {
        ReadAnswers(x, 0, k, s);
      }
    }
  }

  lemma FirstEntry(x: Version, l: nat, h: File) returns (e: Entry)
    requires FilesValid(x) && l < |x| && h in x[l]
    ensures e in h.entries
  {
    assert ValidFile(h);
    e := h.entries[0];
  }

  // ----- One flush

  /** `f` is flushed to the output level of a compaction that was selected on `v`. */
  ghost predicate FlushedMeanwhile(v: Version, w: Version, f: File, level: nat, in0: seq<File>, in1: seq<File>) {
    && Good(v) && Selection(v, level, in0, in1)
    && ValidFile(f) && Fits(v, f, level + 1) && NewerThanAll(v, f) && AddsFile(v, w, f, level + 1)
  }

  /** All cuts leave the levels disjoint if and only if the entries written do not lie on both sides of
      the flushed file. */
  lemma FlushIntoGap(v: Version, w: Version, f: File, level: nat, in0: seq<File>, in1: seq<File>,
                     input: seq<Entry>, oldest: nat, next: nat)
    requires FlushedMeanwhile(v, w, f, level, in0, in1) && MergedInput(input, in0, in1) && VersionBelow(w, next)
    ensures Resumable(w, level, in0, in1)
    ensures var kept := Written(v, level, input, oldest);
            EveryCutDisjoint(w, level, in0, in1, kept, next) <==> !OnBothSides(kept, f)
  {
    ResumableAtStart(v, level, in0, in1);
    ResumableAfterFlush(v, w, f, level + 1, level, in0, in1);
    EveryCut(v, w, level, in0, in1, input, oldest, next);
    WrittenFacts(v, v, level, in0, in1, input, oldest);
    var kept := Written(v, level, input, oldest);
    assert Stays(w, level, in1, f) by {
      FlushedIsNew(v, f, level, in0, in1);
    }
    assert FilesValid(v);
    hide Good, Selection, Fits, NewerThanAll, ValidFile, MergedInput, Written, Resumable, EveryCutDisjoint, TidyLevels;
    hide Picked, OnBothSides, FilesValid, Before, After;
    forall h | Stays(w, level, in1, h) && h != f
      ensures !OnBothSides(kept, h)
    {
      assert h in v[level + 1];
      assert Before(h, in0 + in1) || After(h, in0 + in1);
      OneSided(v, level, in0, in1, kept, h);
    }
  }

  lemma FlushedIsNew(v: Version, f: File, level: nat, in0: seq<File>, in1: seq<File>)
    requires Picked(v, level, in0, in1) && NewerThanAll(v, f)
    ensures f !in in1
  {
    forall g | g in in1
      ensures g != f
    {
      assert g in v[level + 1];
    }
  }

  /** A file before or after all inputs has their entries on one side only. */
  lemma OneSided(v: Version, level: nat, in0: seq<File>, in1: seq<File>, kept: seq<Entry>, h: File)
    requires Resumable(v, level, in0, in1) && ValidFile(h) && (Before(h, in0 + in1) || After(h, in0 + in1))
    requires forall e :: e in kept ==> e in LevelEntries(in0) + LevelEntries(in1)
    ensures !OnBothSides(kept, h)
  {
    EntryInBounds(h, h.entries[0]);
    forall e | e in kept
      ensures Before(h, in0 + in1) ==> !Less(e.key, h.smallest)
      ensures After(h, in0 + in1) ==> !Less(h.largest, e.key)
    {
      var m, g := HomeOf(v, level, in0, in1, e);
      assert ValidFile(g) && g in in0 + in1;
      EntryInBounds(g, e);
      hide Resumable;
    }
  }

  /** What a caller can test before the flush: a file outside the interval that the inputs span, or inputs
      without a gap, make every cut safe. */
  lemma SafeFlush(v: Version, w: Version, f: File, level: nat, in0: seq<File>, in1: seq<File>,
                  input: seq<Entry>, oldest: nat, next: nat, lo: int, hi: int)
    requires FlushedMeanwhile(v, w, f, level, in0, in1) && MergedInput(input, in0, in1) && VersionBelow(w, next)
    requires HullIs(in0 + in1, lo, hi)
    requires f.largest.user < lo || hi < f.smallest.user || Connected(in0 + in1)
    ensures EveryCutDisjoint(w, level, in0, in1, Written(v, level, input, oldest), next)
  {
    FlushIntoGap(v, w, f, level, in0, in1, input, oldest, next);
    ResumableAtStart(v, level, in0, in1);
    WrittenFacts(v, v, level, in0, in1, input, oldest);
    EntryInBounds(f, f.entries[0]);
    if Connected(in0 + in1) {
      FlushedAvoidsInputs(v, f, level + 1, level, in0, in1);
      InputsRanged(v, level, in0, in1);
      hide Good, Selection, NewerThanAll, Picked;
      OneSide(in0, in1, f);
    }
    hide Connected, Good, Selection, Fits, NewerThanAll, TidyLevels, Picked;
    assert Before(f, in0 + in1) || After(f, in0 + in1);
    hide FlushedMeanwhile, MergedInput, VersionBelow, Written, Resumable;
    OneSided(v, level, in0, in1, Written(v, level, input, oldest), f);
  }

  lemma InputsRanged(v: Version, level: nat, in0: seq<File>, in1: seq<File>)
    requires Good(v) && Picked(v, level, in0, in1)
    ensures Ranged(in0 + in1)
  {
    assert AllValid(in0 + in1);
    ValidIsRanged(in0 + in1);
  }
}
