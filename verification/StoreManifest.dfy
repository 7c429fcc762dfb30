/** Appending a record to the manifest, and what the version it describes then holds. */
module StoreManifest {
  import opened Keys
  import opened Versions
  import opened Inputs
  import opened VersionBuilder
  import opened Compaction
  import opened Levels
  import opened Store

  /** What a record must obey: its files are new at their level and below, and on the levels above
      only a file that the record takes away may share a number with one it adds. */
  ghost predicate Legit(manifest: seq<Edit>, v: Version, edit: Edit, n: nat) {
    forall l :: 0 <= l < |v| ==> LegitAt(manifest, v, edit, n, l)
  }

  ghost predicate LegitAt(manifest: seq<Edit>, v: Version, edit: Edit, n: nat, l: nat)
    requires l < |v|
  {
    && DistinctNumbers(AddedAt(edit, l))
    && (forall f :: f in AddedAt(edit, l) ==> f.number < n)
    && (forall f, m, g :: f in AddedAt(edit, l) && l <= m < |v| && g in AddedAfter(manifest, m) ==>
        f.number != g.number)
    && (forall f, m, g :: f in AddedAt(edit, l) && 0 <= m < l && g in v[m] && g.number !in DeletedAt(edit, m) ==>
        f.number != g.number)
    && (forall f, m, g :: f in AddedAt(edit, l) && 0 <= m < l && g in AddedAt(edit, m) ==> f.number != g.number)
  }

  ghost predicate Described(manifest: seq<Edit>, v: Version, n: nat) {
    Replayable(EMPTY, manifest) && Build(EMPTY, manifest) == v && ManifestNumbers(manifest, v, n)
  }

  lemma EmptyTidy()
    ensures TidyLevels(EMPTY)
  {
  }

  lemma {:induction false} FilesWereAdded(manifest: seq<Edit>, l: nat)
    requires l < |EMPTY|
    ensures forall f :: f in Build(EMPTY, manifest)[l] ==> f in AddedAfter(manifest, l)
  {
    MergeMembers(EMPTY[l], AddedAfter(manifest, l), DeletedAfter(manifest, l));
  }

  lemma {:induction false} AddedAfterOneMore(manifest: seq<Edit>, edit: Edit, l: nat)
    ensures forall f :: f in AddedAfter(manifest + [edit], l) <==> f in AddedAfter(manifest, l) || f in AddedAt(edit, l)
  {
    var all := manifest + [edit];
    assert all[..|all| - 1] == manifest;
    SortIntoMembers(AddedAfter(manifest, l), AddedAt(edit, l));
  }

  lemma LegitIsReplayable(manifest: seq<Edit>, v: Version, edit: Edit, n: nat)
    requires Replayable(EMPTY, manifest) && |v| == |EMPTY| && Legit(manifest, v, edit, n)
    ensures Replayable(EMPTY, manifest + [edit])
  {
    hide AddedAfter, AddedAt, DistinctNumbers;
    var all := manifest + [edit];
    forall l | 0 <= l < |EMPTY|
      ensures NeverReadded(EMPTY[l], all, l) && AddsDistinct(all, l)
    {
      assert LegitAt(manifest, v, edit, n, l);
      forall i | 0 <= i < |all|
        ensures FreshAt(EMPTY[l], all[..i], all[i], l) && DistinctNumbers(AddedAt(all[i], l))
      {
        if i < |manifest| {
          assert all[..i] == manifest[..i] && all[i] == manifest[i];
        } else {
          assert all[..i] == manifest;
        }
      }
    }
  }

  lemma LegitIsFresh(manifest: seq<Edit>, v: Version, edit: Edit, n: nat)
    requires Build(EMPTY, manifest) == v && Legit(manifest, v, edit, n)
    ensures FreshEdit(v, edit)
  {
    assert |v| == |EMPTY|;
    hide AddedAfter, AddedAt, DistinctNumbers, Build;
    forall l | 0 <= l < |v|
      ensures Fresh(v, edit, l)
    {
      assert LegitAt(manifest, v, edit, n, l);
      FilesWereAdded(manifest, l);
    }
  }

  ghost predicate EditedAt(v: Version, w: Version, edit: Edit, l: nat)
    requires l < |v| == |w|
  {
    forall f :: f in w[l] <==> (f in v[l] && f.number !in DeletedAt(edit, l)) || f in AddedAt(edit, l)
  }

  lemma LegitNumbers(manifest: seq<Edit>, v: Version, w: Version, edit: Edit, n: nat, n': nat)
    requires ManifestNumbers(manifest, v, n) && n <= n' && |w| == |v| && Legit(manifest, v, edit, n')
    requires forall l :: 0 <= l < |v| ==> EditedAt(v, w, edit, l)
    ensures ManifestNumbers(manifest + [edit], w, n')
  {
    hide AddedAfter, AddedAt, DistinctNumbers;
    forall l, g | 0 <= l < |v| && g in AddedAfter(manifest + [edit], l)
      ensures g.number < n'
    {
      AddedAfterOneMore(manifest, edit, l);
      assert LegitAt(manifest, v, edit, n', l);
    }
    forall l, m, f, g | 0 <= l < m < |v| && f in w[l] && g in AddedAfter(manifest + [edit], m)
      ensures f.number != g.number
    {
      AddedAfterOneMore(manifest, edit, m);
      assert LegitAt(manifest, v, edit, n', l) && LegitAt(manifest, v, edit, n', m) && EditedAt(v, w, edit, l);
    }
  }

  /** A legitimate record turns a described version into the version with the edit applied. */
  lemma Committed(manifest: seq<Edit>, v: Version, edit: Edit, n: nat, n': nat)
    requires Described(manifest, v, n) && n <= n' && Legit(manifest, v, edit, n')
    ensures Described(manifest + [edit], ApplyEdit(v, edit), n') && FreshEdit(v, edit)
  {
    assert |v| == |EMPTY|;
    EmptyTidy();
    var w := ApplyEdit(v, edit);
    LegitIsFresh(manifest, v, edit, n');
    LegitIsReplayable(manifest, v, edit, n');
    hide Legit, ManifestNumbers, ApplyEdit, Tidy, Fresh, Replayable, AddedAt, AddedAfter, Build;
    ReplayOneMore(EMPTY, manifest, edit);
    forall l | 0 <= l < |v|
      ensures |w| == |v| && EditedAt(v, w, edit, l)
    {
      CommittedLevel(manifest, v, edit, l);
    }
    LegitNumbers(manifest, v, w, edit, n, n');
  }

  lemma CommittedLevel(manifest: seq<Edit>, v: Version, edit: Edit, l: nat)
    requires l < |v| && Replayable(EMPTY, manifest) && Build(EMPTY, manifest) == v && FreshEdit(v, edit)
    ensures |ApplyEdit(v, edit)| == |v| && EditedAt(v, ApplyEdit(v, edit), edit, l)
  {
    EmptyTidy();
    assert |v| == |EMPTY|;
    hide Tidy, Fresh, AddedAt, AddedAfter, Build, AddsDistinct, NeverReadded;
    assert Tidy(EMPTY[l]) && Fresh(v, edit, l);
    ReplayTidy(EMPTY, manifest, l);
    ApplyEditLevel(v, edit, l);
  }

  lemma DescribedBelow(manifest: seq<Edit>, v: Version, n: nat)
    requires Described(manifest, v, n)
    ensures VersionBelow(v, n)
  {
    forall l, f | 0 <= l < |v| && f in v[l]
      ensures f.number < n
    {
      FilesWereAdded(manifest, l);
    }
  }

  /** A committed record, with its bookkeeping, keeps the manifest's invariant. */
  lemma ManifestCommitted(manifest: seq<Edit>, v: Version, edit: Edit, logNumber: nat, flushed: nat, flushed': nat,
                          ops: nat, nextFile: nat)
    requires ManifestInv(manifest, v, logNumber, flushed, ops, nextFile)
    requires Legit(manifest, v, edit, nextFile) && edit.nextFile == nextFile && flushed' <= edit.lastSequence <= ops
    ensures ManifestInv(manifest + [edit], ApplyEdit(v, edit), edit.logNumber, flushed', ops, nextFile)
    ensures FreshEdit(v, edit) && VersionBelow(ApplyEdit(v, edit), nextFile)
  {
    Committed(manifest, v, edit, manifest[|manifest| - 1].nextFile, nextFile);
    DescribedBelow(manifest + [edit], ApplyEdit(v, edit), nextFile);
  }
}
