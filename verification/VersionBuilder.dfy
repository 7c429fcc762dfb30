/** Version edits, and the builder that applies a run of them without intermediate versions. */
module VersionBuilder {
  import opened Keys
  import opened Versions
  import Seqs

  /** One manifest record. `deleted` holds (level, file number), `added` holds (level, file). */
  datatype Edit = Edit(deleted: set<(nat, nat)>, added: seq<(nat, File)>,
                       logNumber: nat, nextFile: nat, lastSequence: nat)

  function DeletedAt(edit: Edit, level: nat): set<nat> {
    set p | p in edit.deleted && p.0 == level :: p.1
  }

  /** The files that the first `n` additions put at `level`. */
  function AddedUpTo(added: seq<(nat, File)>, n: nat, level: nat): seq<File>
    requires n <= |added|
  {
    if n == 0 then []
    else AddedUpTo(added, n - 1, level) + (if added[n - 1].0 == level then [added[n - 1].1] else [])
  }

  function AddedAt(edit: Edit, level: nat): seq<File> {
    AddedUpTo(edit.added, |edit.added|, level)
  }

  function Numbers(files: seq<File>): set<nat> {
    set f | f in files :: f.number
  }

  function FileSet(files: seq<File>): set<File> {
    set f | f in files
  }

  // ----- Reference: apply edits one at a time to a plain set of files

  function ApplyPlain(files: set<File>, edit: Edit, level: nat): set<File> {
    (set f | f in files && f.number !in DeletedAt(edit, level)) + FileSet(AddedAt(edit, level))
  }

  function ReplayPlain(base: set<File>, edits: seq<Edit>, level: nat): set<File> {
    if edits == [] then base
    else ApplyPlain(ReplayPlain(base, edits[..|edits| - 1], level), edits[|edits| - 1], level)
  }

  // ----- The builder's order

  /** By smallest key, ties by file number. */
  predicate BySmallest(f: File, g: File) {
    Less(f.smallest, g.smallest) || (!Less(g.smallest, f.smallest) && f.number < g.number)
  }

  predicate Ordered(files: seq<File>) {
    forall i, j :: 0 <= i < j < |files| ==> !BySmallest(files[j], files[i])
  }

  lemma {:induction false} InsertMembers(files: seq<File>, f: File)
    ensures forall g :: g in InsertBySmallest(files, f) <==> g in files || g == f
  {
    if files != [] && !BySmallest(f, files[0]) {
      InsertMembers(files[1..], f);
      assert files == [files[0]] + files[1..];
    }
  }

  function InsertBySmallest(files: seq<File>, f: File): seq<File> {
    if files == [] || BySmallest(f, files[0]) then [f] + files
    else [files[0]] + InsertBySmallest(files[1..], f)
  }

  /** Prepending a file that is not after the head of an ordered list. */
  lemma PrependOrdered(f: File, files: seq<File>)
    requires Ordered(files) && (files != [] ==> !BySmallest(files[0], f))
    ensures Ordered([f] + files)
  {
    var r := [f] + files;
    forall i, j | 0 <= i < j < |r|
      ensures !BySmallest(r[j], r[i])
    {
      if i == 0 && 1 < j {
        assert !BySmallest(files[j - 1], files[0]);
      }
    }
  }

  lemma {:induction false} InsertOrdered(files: seq<File>, f: File)
    requires Ordered(files)
    ensures Ordered(InsertBySmallest(files, f))
  {
    if files == [] || BySmallest(f, files[0]) {
      PrependOrdered(f, files);
    } else {
      InsertOrdered(files[1..], f);
      InsertMembers(files[1..], f);
      var r := InsertBySmallest(files[1..], f);
      if r[0] != f {
        assert r[0] in files[1..];
      }
      PrependOrdered(files[0], r);
    }
  }

  // ----- Builder state for one level, and what SaveTo makes of it

  function SortInto(sorted: seq<File>, files: seq<File>): seq<File> {
    if files == [] then sorted else InsertBySmallest(SortInto(sorted, files[..|files| - 1]), files[|files| - 1])
  }

  /** The set of deleted numbers after a run of edits: an added file is taken out of it again. */
  function DeletedAfter(edits: seq<Edit>, level: nat): set<nat> {
    if edits == [] then {}
    else
      var edit := edits[|edits| - 1];
      DeletedAfter(edits[..|edits| - 1], level) + DeletedAt(edit, level) - Numbers(AddedAt(edit, level))
  }

  function AddedAfter(edits: seq<Edit>, level: nat): seq<File> {
    if edits == [] then []
    else SortInto(AddedAfter(edits[..|edits| - 1], level), AddedAt(edits[|edits| - 1], level))
  }

  function Maybe(f: File, deleted: set<nat>): seq<File> {
    if f.number in deleted then [] else [f]
  }

  /** Merge of the base files with the added ones, deleted files left out. */
  function Merge(base: seq<File>, added: seq<File>, deleted: set<nat>): seq<File>
    decreases |base| + |added|
  {
    if base == [] && added == [] then []
    else if added == [] || (base != [] && !BySmallest(added[0], base[0])) then
      Maybe(base[0], deleted) + Merge(base[1..], added, deleted)
    else
      Maybe(added[0], deleted) + Merge(base, added[1..], deleted)
  }

  /** The version a builder produces. */
  function Build(base: Version, edits: seq<Edit>): Version {
    seq(|base|, l requires 0 <= l < |base| => Merge(base[l], AddedAfter(edits, l), DeletedAfter(edits, l)))
  }

  lemma {:induction false} OneMoreAdded(added: seq<(nat, File)>, i: nat, sorted: seq<File>)
    requires i < |added|
    ensures var level, f := added[i].0, added[i].1;
            && Numbers(AddedUpTo(added, i + 1, level)) == Numbers(AddedUpTo(added, i, level)) + {f.number}
            && SortInto(sorted, AddedUpTo(added, i + 1, level)) ==
                InsertBySmallest(SortInto(sorted, AddedUpTo(added, i, level)), f)
  {
    var level, f := added[i].0, added[i].1;
    var r, r' := AddedUpTo(added, i, level), AddedUpTo(added, i + 1, level);
    assert r' == r + [f];
    assert r'[..|r'| - 1] == r;
    assert f in r';
  }

  /** Builder state after the first `i` additions of an edit. */
  ghost predicate Applied(d1: seq<set<nat>>, a1: seq<seq<File>>, adds: seq<(nat, File)>, i: nat, d: seq<set<nat>>,
                          a: seq<seq<File>>)
    requires i <= |adds|
  {
    && |d| == |d1| == |a| == |a1|
    && (forall l :: 0 <= l < |d| ==> d[l] == d1[l] - Numbers(AddedUpTo(adds, i, l)))
    && (forall l :: 0 <= l < |d| ==> a[l] == SortInto(a1[l], AddedUpTo(adds, i, l)))
  }

  lemma NothingApplied(d1: seq<set<nat>>, a1: seq<seq<File>>, adds: seq<(nat, File)>)
    requires |d1| == |a1|
    ensures Applied(d1, a1, adds, 0, d1, a1)
  {
    assert Numbers([]) == {};
  }

  lemma AppliedStep(d1: seq<set<nat>>, a1: seq<seq<File>>, adds: seq<(nat, File)>, i: nat, d: seq<set<nat>>,
                    a: seq<seq<File>>)
    requires i < |adds| && Applied(d1, a1, adds, i, d, a) && adds[i].0 < |d|
    ensures var level, f := adds[i].0, adds[i].1;
            Applied(d1, a1, adds, i + 1, d[level := d[level] - {f.number}], a[level := InsertBySmallest(a[level], f)])
  {
    var level, f := adds[i].0, adds[i].1;
    OneMoreAdded(adds, i, a1[level]);
    forall l | 0 <= l < |d| && l != level
      ensures AddedUpTo(adds, i + 1, l) == AddedUpTo(adds, i, l)
    {
    }
  }

  /** Each new file leaves the deleted numbers of its level and joins its ordered set. */
  method AddFiles(adds: seq<(nat, File)>, d1: seq<set<nat>>, a1: seq<seq<File>>)
    returns (d: seq<set<nat>>, a: seq<seq<File>>)
    requires |d1| == |a1| && forall i :: 0 <= i < |adds| ==> adds[i].0 < |d1|
    ensures Applied(d1, a1, adds, |adds|, d, a)
  {
    d, a := d1, a1;
    NothingApplied(d1, a1, adds);
    for i := 0 to |adds|
      invariant Applied(d1, a1, adds, i, d, a)
    {
      var level, f := adds[i].0, adds[i].1;
      AppliedStep(d1, a1, adds, i, d, a);
      d, a := d[level := d[level] - {f.number}], a[level := InsertBySmallest(a[level], f)];
    }
  }

  ghost predicate StateAfter(edits: seq<Edit>, d: seq<set<nat>>, a: seq<seq<File>>) {
    && |d| == |a|
    && forall l :: 0 <= l < |d| ==> d[l] == DeletedAfter(edits, l) && a[l] == AddedAfter(edits, l)
  }

  lemma AppliedAll(edits: seq<Edit>, edit: Edit, d0: seq<set<nat>>, d1: seq<set<nat>>, a1: seq<seq<File>>,
                   d: seq<set<nat>>, a: seq<seq<File>>)
    requires StateAfter(edits, d0, a1) && |d1| == |d0|
    requires forall l :: 0 <= l < |d0| ==> d1[l] == d0[l] + DeletedAt(edit, l)
    requires Applied(d1, a1, edit.added, |edit.added|, d, a)
    ensures StateAfter(edits + [edit], d, a)
  {
    var edits' := edits + [edit];
    assert edits'[..|edits'| - 1] == edits;
  }

  lemma {:induction false} MergeStep(base: seq<File>, b: nat, added: seq<File>, a: nat, deleted: set<nat>)
    requires b <= |base| && a <= |added| && (b < |base| || a < |added|)
    ensures Merge(base[b..], added[a..], deleted) ==
            if a == |added| || (b < |base| && !BySmallest(added[a], base[b]))
            then Maybe(base[b], deleted) + Merge(base[b + 1..], added[a..], deleted)
            else Maybe(added[a], deleted) + Merge(base[b..], added[a + 1..], deleted)
  {
    if b < |base| {
      assert base[b..][1..] == base[b + 1..];
    }
    if a < |added| {
      assert added[a..][1..] == added[a + 1..];
    }
  }

  lemma {:induction false} MergeEnd(files: seq<File>, deleted: set<nat>)
    ensures Merge([], [], deleted) == [] && files + [] == files
  {
  }

  /** The nested scan: before each added file, all base files that are not after it. */
  method MergeFiles(base: seq<File>, added: seq<File>, deleted: set<nat>) returns (files: seq<File>)
    ensures files == Merge(base, added, deleted)
  {
    hide Merge, Maybe;
    files := [];
    var b, a := 0, 0;
    Seqs.NothingBefore(Merge(base, added, deleted));
    Seqs.WholeSlice(base);
    Seqs.WholeSlice(added);
    while a < |added|
      invariant 0 <= b <= |base| && 0 <= a <= |added|
      invariant files + Merge(base[b..], added[a..], deleted) == Merge(base, added, deleted)
    {
      while b < |base| && !BySmallest(added[a], base[b])
        invariant 0 <= b <= |base|
        invariant files + Merge(base[b..], added[a..], deleted) == Merge(base, added, deleted)
      {
        MergeStep(base, b, added, a, deleted);
        Seqs.Assoc(files, Maybe(base[b], deleted), Merge(base[b + 1..], added[a..], deleted));
        files := files + Maybe(base[b], deleted);
        b := b + 1;
      }
      MergeStep(base, b, added, a, deleted);
      Seqs.Assoc(files, Maybe(added[a], deleted), Merge(base[b..], added[a + 1..], deleted));
      files := files + Maybe(added[a], deleted);
      a := a + 1;
    }
    while b < |base|
      invariant 0 <= b <= |base|
      invariant files + Merge(base[b..], added[a..], deleted) == Merge(base, added, deleted)
    {
      MergeStep(base, b, added, a, deleted);
      Seqs.Assoc(files, Maybe(base[b], deleted), Merge(base[b + 1..], added[a..], deleted));
      files := files + Maybe(base[b], deleted);
      b := b + 1;
    }
    assert base[b..] == [] && added[a..] == [];
    MergeEnd(files, deleted);
  }

  class Builder {
    const base: Version
    var deleted: seq<set<nat>>
    var added: seq<seq<File>>
    ghost var edits: seq<Edit>

    ghost predicate Valid()
      reads this
    {
      |deleted| == |base| && StateAfter(edits, deleted, added)
    }

    constructor (base: Version)
      ensures Valid() && this.base == base && edits == []
    {
      this.base := base;
      deleted := seq(|base|, _ => {});
      added := seq(|base|, _ => []);
      edits := [];
    }

    /** Deletions first, then each new file: out of the deleted numbers, into the ordered set. */
    method Apply(edit: Edit)
      requires Valid()
      requires forall p :: p in edit.added ==> p.0 < |base|
      modifies this
      ensures Valid() && edits == old(edits) + [edit]
    {
      var d0 := deleted;
      var d1 := seq(|base|, l requires 0 <= l < |base| => d0[l] + DeletedAt(edit, l));
      ghost var a1 := added;
      deleted, added := AddFiles(edit.added, d1, added);
      AppliedAll(edits, edit, d0, d1, a1, deleted, added);
      edits := edits + [edit];
    }

    method SaveLevel(level: nat) returns (files: seq<File>)
      requires Valid() && level < |base|
      ensures files == Merge(base[level], AddedAfter(edits, level), DeletedAfter(edits, level))
    {
      files := MergeFiles(base[level], added[level], deleted[level]);
    }

    method SaveTo() returns (v: Version)
      requires Valid()
      ensures v == Build(base, edits)
    {
      v := [];
      for level := 0 to |base|
        invariant v == Build(base, edits)[..level]
      {
        var files := SaveLevel(level);
        v := v + [files];
      }
    }
  }

  // ----- What the builder computes

  lemma {:induction false} MergeMembers(base: seq<File>, added: seq<File>, deleted: set<nat>)
    ensures forall f :: f in Merge(base, added, deleted) <==> (f in base || f in added) && f.number !in deleted
    decreases |base| + |added|
  {
    if base == [] && added == [] {
    } else if added == [] || (base != [] && !BySmallest(added[0], base[0])) {
      MergeMembers(base[1..], added, deleted);
      assert base == [base[0]] + base[1..];
    } else {
      MergeMembers(base, added[1..], deleted);
      assert added == [added[0]] + added[1..];
    }
  }

  lemma {:induction false} MergeOrdered(base: seq<File>, added: seq<File>, deleted: set<nat>)
    requires Ordered(base) && Ordered(added)
    ensures Ordered(Merge(base, added, deleted))
    decreases |base| + |added|
  {
    if base == [] && added == [] {
    } else if added == [] || (base != [] && !BySmallest(added[0], base[0])) {
      MergeOrdered(base[1..], added, deleted);
      MergeBound(base[0], base[1..], added, deleted);
      PrependOrdered(base[0], Merge(base[1..], added, deleted));
    } else {
      MergeOrdered(base, added[1..], deleted);
      MergeBound(added[0], base, added[1..], deleted);
      PrependOrdered(added[0], Merge(base, added[1..], deleted));
    }
  }

  /** A file not after any file of either list is not after the head of their merge. */
  lemma {:induction false} MergeBound(f: File, base: seq<File>, added: seq<File>, deleted: set<nat>)
    requires forall g :: g in base || g in added ==> !BySmallest(g, f)
    ensures Merge(base, added, deleted) != [] ==> !BySmallest(Merge(base, added, deleted)[0], f)
  {
    MergeMembers(base, added, deleted);
    var r := Merge(base, added, deleted);
    if r != [] {
      assert r[0] in r;
    }
  }

  lemma {:induction false} SortIntoMembers(sorted: seq<File>, files: seq<File>)
    ensures forall f :: f in SortInto(sorted, files) <==> f in sorted || f in files
  {
    if files != [] {
      var n := |files| - 1;
      SortIntoMembers(sorted, files[..n]);
      InsertMembers(SortInto(sorted, files[..n]), files[n]);
      assert files == files[..n] + [files[n]];
    }
  }

  lemma {:induction false} SortIntoOrdered(sorted: seq<File>, files: seq<File>)
    requires Ordered(sorted)
    ensures Ordered(SortInto(sorted, files))
  {
    if files != [] {
      var n := |files| - 1;
      SortIntoOrdered(sorted, files[..n]);
      InsertOrdered(SortInto(sorted, files[..n]), files[n]);
    }
  }

  lemma {:induction false} AddedAfterOrdered(edits: seq<Edit>, level: nat)
    ensures Ordered(AddedAfter(edits, level))
  {
    if edits != [] {
      AddedAfterOrdered(edits[..|edits| - 1], level);
      SortIntoOrdered(AddedAfter(edits[..|edits| - 1], level), AddedAt(edits[|edits| - 1], level));
    }
  }

  /** No edit adds at a level a file number that is or was at that level. */
  ghost predicate NeverReadded(base: seq<File>, edits: seq<Edit>, level: nat) {
    forall n :: 0 <= n < |edits| ==> FreshAt(base, edits[..n], edits[n], level)
  }

  ghost predicate FreshAt(base: seq<File>, before: seq<Edit>, edit: Edit, level: nat) {
    forall f, g :: f in AddedAt(edit, level) && (g in base || g in AddedAfter(before, level)) ==> f.number != g.number
  }

  lemma NeverReaddedPrefix(base: seq<File>, edits: seq<Edit>, level: nat, n: nat)
    requires NeverReadded(base, edits, level) && n <= |edits|
    ensures NeverReadded(base, edits[..n], level)
  {
    forall i | 0 <= i < n
      ensures FreshAt(base, edits[..n][..i], edits[..n][i], level)
    {
      Seqs.PrefixOfPrefix(edits, i, n);
    }
  }

  /** One pass of the builder over a run of edits yields, per level, exactly the files that applying
      the edits one at a time to a plain set would leave. */
  lemma {:induction false} BuilderIsReplay(base: seq<File>, edits: seq<Edit>, level: nat)
    requires NeverReadded(base, edits, level)
    ensures forall f :: f in ReplayPlain(FileSet(base), edits, level) <==>
                        (f in base || f in AddedAfter(edits, level)) && f.number !in DeletedAfter(edits, level)
  {
    if edits != [] {
      var n := |edits| - 1;
      var before, edit := edits[..n], edits[n];
      NeverReaddedPrefix(base, edits, level, n);
      BuilderIsReplay(base, before, level);
      var adds := AddedAt(edit, level);
      SortIntoMembers(AddedAfter(before, level), adds);
      assert FreshAt(base, before, edit, level);
      ReplayStep(base, before, edit, level, AddedAfter(edits, level), DeletedAfter(edits, level));
    }
  }

  lemma {:induction false} ReplayStep(base: seq<File>, before: seq<Edit>, edit: Edit, level: nat, added: seq<File>,
                                      deleted: set<nat>)
    requires FreshAt(base, before, edit, level)
    requires forall f :: f in added <==> f in AddedAfter(before, level) || f in AddedAt(edit, level)
    requires deleted == DeletedAfter(before, level) + DeletedAt(edit, level) - Numbers(AddedAt(edit, level))
    requires forall f :: f in ReplayPlain(FileSet(base), before, level) <==>
                         (f in base || f in AddedAfter(before, level)) && f.number !in DeletedAfter(before, level)
    ensures forall f :: f in ApplyPlain(ReplayPlain(FileSet(base), before, level), edit, level) <==>
                        (f in base || f in added) && f.number !in deleted
  {
  }

  /** Manifest replay: the built version holds, at every level, the files of the plain replay, in order. */
  lemma {:induction false} ManifestReplay(base: Version, edits: seq<Edit>, level: nat)
    requires level < |base| && Ordered(base[level]) && NeverReadded(base[level], edits, level)
    ensures forall f :: f in Build(base, edits)[level] <==> f in ReplayPlain(FileSet(base[level]), edits, level)
    ensures Ordered(Build(base, edits)[level])
  {
    BuilderIsReplay(base[level], edits, level);
    MergeMembers(base[level], AddedAfter(edits, level), DeletedAfter(edits, level));
    AddedAfterOrdered(edits, level);
    MergeOrdered(base[level], AddedAfter(edits, level), DeletedAfter(edits, level));
  }
}
