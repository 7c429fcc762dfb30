/** A valid version and a selection made by the store's own rules on which compaction brings back a
    deleted key. Level 1 holds one file, for key 0. Level 2 holds two files between which the entries
    of key 5 are split: the deletion marker is last in the first, the deleted value first in the
    second. The first meets the range of the level-1 file and is selected; the second does not. */
module DeletedKeyReturns {
  import opened Keys
  import opened Versions
  import opened Inputs
  import opened Compaction

  const PUT0_NEW := Entry(InternalKey(0, 20, Value), "new")
  const PUT0_OLD := Entry(InternalKey(0, 1, Value), "old")
  const DEL5 := Entry(InternalKey(5, 9, Deletion), "")
  const PUT5 := Entry(InternalKey(5, 5, Value), "deleted")

  const A := File(3, 1, PUT0_NEW.key, PUT0_NEW.key, [PUT0_NEW])
  const B := File(4, 1, PUT0_OLD.key, DEL5.key, [PUT0_OLD, DEL5])
  const C := File(5, 1, PUT5.key, PUT5.key, [PUT5])

  const V: Version := [[], [A], [B, C], [], [], [], []]
  const INPUT := [PUT0_NEW, PUT0_OLD, DEL5]

  lemma FilesOf(l: nat, f: File)
    requires l < |V| && f in V[l]
    ensures ValidFile(f) && ((l == 1 && f == A) || (l == 2 && (f == B || f == C)))
  {
    assert l == 1 || l == 2;
  }

  lemma EntriesOf()
    ensures VersionEntries(V) == {PUT0_NEW, PUT0_OLD, DEL5, PUT5}
    ensures LevelEntries([A]) == {PUT0_NEW} && LevelEntries([B]) == {PUT0_OLD, DEL5}
  {
    assert A in V[1] && B in V[2] && C in V[2] && A in [A] && B in [B];
    assert PUT0_NEW in A.entries && PUT0_OLD in B.entries && DEL5 in B.entries && PUT5 in C.entries;
    forall e | e in VersionEntries(V)
      ensures e in {PUT0_NEW, PUT0_OLD, DEL5, PUT5}
    {
      var l, f :| 0 <= l < |V| && f in V[l] && e in f.entries;
      FilesOf(l, f);
    }
  }

  lemma AllFilesValid()
    ensures FilesValid(V)
  {
    forall l, f | 0 <= l < |V| && f in V[l]
      ensures ValidFile(f)
    {
      FilesOf(l, f);
    }
  }

  lemma AllLevelsOrdered()
    ensures LevelsOrdered(V)
  {
    forall l, m, f, g | 0 <= l < m < |V| && f in V[l] && g in V[m]
      ensures FileNewer(f, g)
    {
      FilesOf(l, f);
      FilesOf(m, g);
    }
  }

  lemma IsValid()
    ensures ValidVersion(V) && Unique(VersionEntries(V))
  {
    AllFilesValid();
    AllLevelsOrdered();
    EntriesOf();
    hide FilesValid, LevelsOrdered;
    assert Less(B.largest, C.smallest);
    assert LevelsSorted(V);
  }

  /** Whatever is selected at level 1, it is A and, at level 2, B without C. */
  lemma SelectedIs(in0: seq<File>, in1: seq<File>)
    requires Selection(V, 1, in0, in1)
    ensures in0 != [] && (forall f :: f in in0 <==> f == A) && in1 == [B]
  {
    assert forall f :: f in in0 ==> f in V[1];
    assert forall f :: f in in0 ==> f == A;
    assert in0[0] in in0;
    var lo, hi :| HullIs(in0, lo, hi) && in1 == Overlapping(V[2], Some(lo), Some(hi));
    assert lo == 0 && hi == 0;
    assert [B, C][..1] == [B] && [B][..0] == [];
    assert Overlapping([B], Some(0), Some(0)) == [B];
    assert Overlapping(V[2], Some(0), Some(0)) == [B];
  }

  /** Before the compaction key 5 reads as deleted, after it as present, at the very snapshot the
      compaction had to respect. No choice of inputs at level 1 avoids it. */
  lemma Witness(in0: seq<File>, in1: seq<File>)
    requires Selection(V, 1, in0, in1)
    ensures ValidVersion(V) && Unique(VersionEntries(V)) && MergedInput(INPUT, in0, in1)
    ensures Lookup(VersionEntries(V), 5, 20) == None
    ensures Lookup(Remaining(V, 1, INPUT, 20), 5, 20) == Some("deleted")
  {
    IsValid();
    SelectedIs(in0, in1);
    SelectionIsPicked(V, 1, in0, in1);
    IsMerged(in0);
    IsResurrected(in0);
    hide ValidVersion, Selection, Resurrects;
    ReadChanged(V, 1, in0, in1, INPUT, 20, DEL5, PUT5);
  }

  /** The store's own choice at level 1 is such a selection. */
  method PickAtLevelOne(pointer: Option<InternalKey>, byteLimit: nat) returns (in0: seq<File>, in1: seq<File>)
    ensures Selection(V, 1, in0, in1) && A in in0 && in1 == [B]
  {
    IsValid();
    hide ValidVersion, Unique;
    var next;
    in0, in1, next := PickCompaction(V, 1, None, pointer, byteLimit);
    SelectedIs(in0, in1);
  }

  lemma SelectedEntries(in0: seq<File>)
    requires forall f :: f in in0 <==> f == A
    ensures LevelEntries(in0) == {PUT0_NEW} && LevelEntries([B]) == {PUT0_OLD, DEL5}
  {
    EntriesOf();
    assert A in in0 && PUT0_NEW in A.entries;
  }

  lemma IsMerged(in0: seq<File>)
    requires forall f :: f in in0 <==> f == A
    ensures MergedInput(INPUT, in0, [B])
  {
    SelectedEntries(in0);
    assert Members(INPUT) == {PUT0_NEW, PUT0_OLD, DEL5} by {
      assert INPUT[0] in INPUT && INPUT[1] in INPUT && INPUT[2] in INPUT;
    }
  }

  lemma IsResurrected(in0: seq<File>)
    requires forall f :: f in in0 <==> f == A
    ensures Resurrects(V, 1, in0, [B], 20, DEL5, PUT5)
  {
    SelectedEntries(in0);
    EntriesOf();
    assert IsBase(V, 1, 5);
    assert IsNewest(VersionEntries(V), 5, 20, DEL5);
    assert LeftBehind(V, 1, [B], PUT5) by {
      assert C in V[2] && C !in [B] && PUT5 in C.entries;
    }
  }
}
