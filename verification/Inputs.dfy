/** Choosing the files of a compaction: overlap closure at level 0, boundary files above it,
    the matching files of the next level, and the attempt to grow the first set. */
module Inputs {
  import opened Keys
  import opened Versions
  import Seqs

  // ----- Ranges

  ghost predicate AllValid(files: seq<File>) {
    forall f :: f in files ==> ValidFile(f)
  }

  predicate Contains(f: File, x: int) {
    f.smallest.user <= x <= f.largest.user
  }

  ghost predicate UserOverlap(f: File, g: File) {
    f.smallest.user <= g.largest.user && g.smallest.user <= f.largest.user
  }

  ghost predicate Covered(files: seq<File>, x: int) {
    exists f :: f in files && Contains(f, x)
  }

  /** The user-key ranges of `files` leave no gap. */
  ghost predicate Connected(files: seq<File>) {
    forall f, g, x :: f in files && g in files && f.smallest.user <= x <= g.largest.user ==> Covered(files, x)
  }

  /** `[lo, hi]` is the smallest user-key interval holding all of `files`. */
  ghost predicate HullIs(files: seq<File>, lo: int, hi: int) {
    && (exists f :: f in files && f.smallest.user == lo)
    && (exists f :: f in files && f.largest.user == hi)
    && (forall f :: f in files ==> lo <= f.smallest.user && f.largest.user <= hi)
  }

  /** The least and the greatest internal key of a file set. */
  method GetRange(files: seq<File>) returns (smallest: InternalKey, largest: InternalKey)
    requires files != []
    ensures exists f :: f in files && f.smallest == smallest
    ensures exists f :: f in files && f.largest == largest
    ensures forall f :: f in files ==> !Less(f.smallest, smallest) && !Less(largest, f.largest)
    ensures HullIs(files, smallest.user, largest.user)
  {
    smallest, largest := files[0].smallest, files[0].largest;
    ghost var i0, i1 := 0, 0;
    for i := 1 to |files|
      invariant 0 <= i0 < i && 0 <= i1 < i && files[i0].smallest == smallest && files[i1].largest == largest
      invariant forall j :: 0 <= j < i ==> !Less(files[j].smallest, smallest) && !Less(largest, files[j].largest)
    {
      if Less(files[i].smallest, smallest) {
        smallest, i0 := files[i].smallest, i;
      }
      if Less(largest, files[i].largest) {
        largest, i1 := files[i].largest, i;
      }
    }
    assert files[i0] in files && files[i1] in files;
  }

  // ----- Version::GetOverlappingInputs

  function Overlapping(files: seq<File>, begin: Option<int>, end: Option<int>): seq<File> {
    if files == [] then []
    else
      var n := |files| - 1;
      Overlapping(files[..n], begin, end) + (if Overlaps(files[n], begin, end) then [files[n]] else [])
  }

  lemma {:induction false} OverlappingMembers(files: seq<File>, begin: Option<int>, end: Option<int>)
    ensures forall f :: f in Overlapping(files, begin, end) <==> f in files && Overlaps(f, begin, end)
  {
    if files != [] {
      var n := |files| - 1;
      OverlappingMembers(files[..n], begin, end);
      assert files == files[..n] + [files[n]];
    }
  }

  ghost predicate Within(f: File, begin: Option<int>, end: Option<int>) {
    && (begin.Some? ==> begin.value <= f.smallest.user)
    && (end.Some? ==> f.largest.user <= end.value)
  }

  /** `b` is `a` moved outwards (down for a lower bound, up for an upper bound). */
  ghost predicate Widened(begin: Option<int>, end: Option<int>, b: Option<int>, e: Option<int>) {
    && begin.Some? == b.Some? && (b.Some? ==> b.value <= begin.value)
    && end.Some? == e.Some? && (e.Some? ==> end.value <= e.value)
  }

  ghost function StartingBelow(files: seq<File>, b: Option<int>): set<int> {
    set i | 0 <= i < |files| && b.Some? && files[i].smallest.user < b.value
  }

  ghost function EndingAbove(files: seq<File>, e: Option<int>): set<int> {
    set i | 0 <= i < |files| && e.Some? && files[i].largest.user > e.value
  }

  /** Every key the range was widened over lies in some file. */
  ghost predicate WidenedOverFiles(files: seq<File>, begin: Option<int>, end: Option<int>, b: Option<int>,
                                   e: Option<int>) {
    && (begin.Some? && b.Some? ==> forall x :: b.value <= x < begin.value ==> Covered(files, x))
    && (end.Some? && e.Some? ==> forall x :: end.value < x <= e.value ==> Covered(files, x))
  }

  /** No file that meets the range sticks out of it. */
  ghost predicate ClosedRange(files: seq<File>, b: Option<int>, e: Option<int>) {
    forall f :: f in files && Overlaps(f, b, e) ==> Within(f, b, e)
  }

  /** `[b, e]` lies within every wider range that no file sticks out of. */
  ghost predicate Least(files: seq<File>, begin: Option<int>, end: Option<int>, b: Option<int>, e: Option<int>) {
    forall b', e' :: Widened(begin, end, b', e') && ClosedRange(files, b', e') ==> Widened(b, e, b', e')
  }

  /** Files of a level meeting `[begin, end]`. At level 0 a file that sticks out of the range
      widens it and restarts the scan, so the result is closed under overlap; each restart
      strictly widens the range over a file, which is why the scan ends. */
  method GetOverlappingInputs(level: nat, files: seq<File>, begin: Option<int>, end: Option<int>)
    returns (inputs: seq<File>, ghost b: Option<int>, ghost e: Option<int>)
    requires AllValid(files)
    ensures inputs == Overlapping(files, b, e)
    ensures Widened(begin, end, b, e) && WidenedOverFiles(files, begin, end, b, e) && Least(files, begin, end, b, e)
    ensures level > 0 ==> b == begin && e == end
    ensures level == 0 ==> forall f :: f in inputs ==> Within(f, b, e)
    ensures inputs == [] <==> forall f :: f in files ==> !Overlaps(f, begin, end)
  {
    LeastAtStart(files, begin, end);
    hide Least, Covered, ValidFile;
    inputs := [];
    var userBegin, userEnd := begin, end;
    var i := 0;
    while i < |files|
      invariant 0 <= i <= |files|
      invariant Widened(begin, end, userBegin, userEnd) && WidenedOverFiles(files, begin, end, userBegin, userEnd)
      invariant Least(files, begin, end, userBegin, userEnd)
      invariant level > 0 ==> userBegin == begin && userEnd == end
      invariant (userBegin == begin && userEnd == end) || exists f :: f in files && Overlaps(f, begin, end)
      invariant inputs == Overlapping(files[..i], userBegin, userEnd)
      invariant level == 0 ==> forall f :: f in inputs ==> Within(f, userBegin, userEnd)
      decreases StartingBelow(files, userBegin), EndingAbove(files, userEnd), |files| - i
    {
      var f := files[i];
      assert f in files && files[..i + 1][..i] == files[..i];
      i := i + 1;
      if userBegin.Some? && f.largest.user < userBegin.value {
      } else if userEnd.Some? && f.smallest.user > userEnd.value {
      } else {
        inputs := inputs + [f];
        if level == 0 {
          StaysLeast(files, begin, end, userBegin, userEnd, f);
          if userBegin.Some? && f.smallest.user < userBegin.value {
            WidenDown(files, begin, end, userBegin, userEnd, i - 1);
            userBegin := Some(f.smallest.user);
            inputs, i := [], 0;
          } else if userEnd.Some? && f.largest.user > userEnd.value {
            WidenUp(files, begin, end, userBegin, userEnd, i - 1);
            userEnd := Some(f.largest.user);
            inputs, i := [], 0;
          }
        }
      }
    }
    assert files[..|files|] == files;
    b, e := userBegin, userEnd;
    OverlappingMembers(files, b, e);
    EmptyIffNoneOverlap(files, begin, end, b, e);
  }

  lemma {:induction false} EmptyIffNoneOverlap(files: seq<File>, begin: Option<int>, end: Option<int>, b: Option<int>,
                                               e: Option<int>)
    requires Widened(begin, end, b, e)
    requires (b == begin && e == end) || exists f :: f in files && Overlaps(f, begin, end)
    ensures Overlapping(files, b, e) == [] <==> forall f :: f in files ==> !Overlaps(f, begin, end)
  {
    OverlappingMembers(files, b, e);
    var r := Overlapping(files, b, e);
    if r == [] {
      forall f | f in files
        ensures !Overlaps(f, begin, end)
      {
        assert f !in r;
      }
    } else {
      assert r[0] in r;
    }
  }

  lemma LeastAtStart(files: seq<File>, begin: Option<int>, end: Option<int>)
    ensures Least(files, begin, end, begin, end)
  {
  }

  /** A file that meets the range lies in every closed wider range. */
  lemma StaysLeast(files: seq<File>, begin: Option<int>, end: Option<int>, b: Option<int>, e: Option<int>, f: File)
    requires Least(files, begin, end, b, e) && f in files && Overlaps(f, b, e)
    ensures b.Some? && f.smallest.user < b.value ==> Least(files, begin, end, Some(f.smallest.user), e)
    ensures e.Some? && f.largest.user > e.value ==> Least(files, begin, end, b, Some(f.largest.user))
  {
    forall b', e' | Widened(begin, end, b', e') && ClosedRange(files, b', e')
      ensures Widened(b, e, b', e') && Within(f, b', e')
    {
    }
  }

  lemma WidenDown(files: seq<File>, begin: Option<int>, end: Option<int>, b: Option<int>, e: Option<int>, i: nat)
    requires i < |files| && b.Some? && begin.Some?
    requires WidenedOverFiles(files, begin, end, b, e)
    requires files[i].smallest.user < b.value <= files[i].largest.user
    ensures WidenedOverFiles(files, begin, end, Some(files[i].smallest.user), e)
    ensures StartingBelow(files, Some(files[i].smallest.user)) < StartingBelow(files, b)
  {
    assert files[i] in files;
    forall x | files[i].smallest.user <= x < begin.value
      ensures Covered(files, x)
    {
      assert x < b.value ==> Contains(files[i], x);
    }
    assert i in StartingBelow(files, b);
    assert i !in StartingBelow(files, Some(files[i].smallest.user));
  }

  lemma WidenUp(files: seq<File>, begin: Option<int>, end: Option<int>, b: Option<int>, e: Option<int>, i: nat)
    requires i < |files| && e.Some? && end.Some?
    requires WidenedOverFiles(files, begin, end, b, e)
    requires files[i].smallest.user <= e.value < files[i].largest.user
    ensures WidenedOverFiles(files, begin, end, b, Some(files[i].largest.user))
    ensures EndingAbove(files, Some(files[i].largest.user)) < EndingAbove(files, e)
  {
    assert files[i] in files;
    forall x | end.value < x <= files[i].largest.user
      ensures Covered(files, x)
    {
      assert x > e.value ==> Contains(files[i], x);
    }
    assert i in EndingAbove(files, e);
    assert i !in EndingAbove(files, Some(files[i].largest.user));
  }

  /** No file left out of `inputs` overlaps a file in it. */
  ghost predicate OverlapClosed(files: seq<File>, inputs: seq<File>) {
    forall f, g :: f in inputs && g in files && g !in inputs ==> !UserOverlap(f, g)
  }

  lemma {:induction false} WithinIsClosed(files: seq<File>, b: Option<int>, e: Option<int>)
    requires forall f :: f in Overlapping(files, b, e) ==> Within(f, b, e)
    ensures OverlapClosed(files, Overlapping(files, b, e))
  {
    OverlappingMembers(files, b, e);
  }

  /** In a sorted level the files meeting a range are consecutive. */
  lemma OverlappingIsSlice(files: seq<File>, begin: Option<int>, end: Option<int>)
    returns (lo: nat, hi: nat)
    requires AllValid(files) && DisjointSorted(files)
    ensures lo <= hi <= |files| && Overlapping(files, begin, end) == files[lo..hi]
    ensures forall i :: 0 <= i < |files| ==> (lo <= i < hi <==> Overlaps(files[i], begin, end))
  {
    lo, hi := 0, 0;
    for n := 0 to |files|
      invariant 0 <= lo <= hi <= n
      invariant forall i :: 0 <= i < n ==> (lo <= i < hi <==> Overlaps(files[i], begin, end))
    {
      if Overlaps(files[n], begin, end) {
        if lo < hi < n {
          SmallestIncreases(files, hi, n);
          SmallestIncreases(files, hi - 1, hi);
        }
        lo, hi := if lo == hi then n else lo, n + 1;
      }
    }
    FilterOfPrefix(files, begin, end, lo, hi, |files|);
    assert files[..|files|] == files;
  }

  function Min(a: nat, b: nat): nat {
    if a < b then a else b
  }

  lemma {:induction false} FilterOfPrefix(files: seq<File>, begin: Option<int>, end: Option<int>, lo: nat, hi: nat,
                                          n: nat)
    requires lo <= hi <= |files| && n <= |files|
    requires forall i :: 0 <= i < |files| ==> (lo <= i < hi <==> Overlaps(files[i], begin, end))
    ensures Overlapping(files[..n], begin, end) == files[Min(lo, n)..Min(hi, n)]
  {
    if n > 0 {
      FilterOfPrefix(files, begin, end, lo, hi, n - 1);
      Seqs.PrefixOfPrefix(files, n - 1, n);
      if lo < n <= hi {
        Seqs.SliceAppend(files, lo, n - 1);
      }
    }
  }

  // ----- AddBoundaryInputs

  ghost predicate IsLargest(files: seq<File>, key: InternalKey) {
    && (exists f :: f in files && f.largest == key)
    && forall f :: f in files ==> !Less(key, f.largest)
  }

  method FindLargestKey(files: seq<File>) returns (key: Option<InternalKey>)
    ensures key.Some? <==> files != []
    ensures key.Some? ==> IsLargest(files, key.value)
  {
    if files == [] {
      return None;
    }
    var largest := files[0].largest;
    ghost var at := 0;
    for i := 1 to |files|
      invariant 0 <= at < i && files[at].largest == largest
      invariant forall j :: 0 <= j < i ==> !Less(largest, files[j].largest)
    {
      if Less(largest, files[i].largest) {
        largest, at := files[i].largest, i;
      }
    }
    assert files[at] in files;
    return Some(largest);
  }

  /** `f` starts after `key` but with the same user key. */
  predicate IsBoundary(f: File, key: InternalKey) {
    Less(key, f.smallest) && f.smallest.user == key.user
  }

  /** Index of the first of the boundary files among the first `n` with the least start, or `|files|`. */
  function BoundaryIndex(files: seq<File>, key: InternalKey, n: nat): (i: nat)
    requires n <= |files|
    ensures i < n || i == |files|
    ensures i < n ==> IsBoundary(files[i], key)
    ensures forall j :: 0 <= j < n && IsBoundary(files[j], key) ==> i < n && !Less(files[j].smallest, files[i].smallest)
  {
    if n == 0 then |files|
    else
      var i := BoundaryIndex(files, key, n - 1);
      if IsBoundary(files[n - 1], key) && (i == |files| || Less(files[n - 1].smallest, files[i].smallest)) then n - 1
      else i
  }

  method FindSmallestBoundaryFile(files: seq<File>, key: InternalKey) returns (i: nat)
    ensures i == BoundaryIndex(files, key, |files|)
  {
    i := |files|;
    for j := 0 to |files|
      invariant i == BoundaryIndex(files, key, j)
    {
      if IsBoundary(files[j], key) {
        if i == |files| || Less(files[j].smallest, files[i].smallest) {
          i := j;
        }
      }
    }
  }

  ghost predicate SmallestBoundary(files: seq<File>, key: InternalKey, i: nat) {
    && i <= |files|
    && (i < |files| ==> IsBoundary(files[i], key))
    && forall f :: f in files && IsBoundary(f, key) ==> i < |files| && !Less(f.smallest, files[i].smallest)
  }

  lemma {:induction false} BoundaryIndexIsSmallest(files: seq<File>, key: InternalKey)
    ensures SmallestBoundary(files, key, BoundaryIndex(files, key, |files|))
  {
  }

  ghost function EndingAfter(files: seq<File>, key: InternalKey): set<int> {
    set i | 0 <= i < |files| && Less(key, files[i].largest)
  }

  /** The file after a consecutive selection does not continue its last user key. */
  ghost predicate UserKeyEndsAt(files: seq<File>, hi: nat) {
    0 < hi <= |files| && (hi == |files| || files[hi].smallest.user != files[hi - 1].largest.user)
  }

  ghost predicate IsSlice(files: seq<File>, inputs: seq<File>, lo: nat, hi: nat) {
    DisjointSorted(files) && lo < hi <= |files| && inputs == files[lo..hi]
  }

  /** `r` is `inputs` extended by boundary files, `largest` its greatest key. */
  ghost predicate Grown(files: seq<File>, inputs: seq<File>, lo: nat, hi: nat, r: seq<File>, largest: InternalKey,
                        hi': nat) {
    && inputs <= r && AllValid(r) && IsLargest(r, largest)
    && (forall f :: f in r ==> f in inputs || f in files)
    && (IsSlice(files, inputs, lo, hi) ==> hi <= hi' && IsSlice(files, r, lo, hi') && largest == files[hi' - 1].largest)
    && (OverlapClosed(files, inputs) ==> r == inputs)
    && Chained(r, |inputs|)
  }

  /** Every file from position `n` on starts with the last user key of an earlier one. */
  ghost predicate Chained(r: seq<File>, n: nat) {
    forall i :: n <= i < |r| ==> Continues(r[..i], r[i])
  }

  ghost predicate Continues(r: seq<File>, f: File) {
    exists g :: g in r && g.largest.user == f.smallest.user
  }

  lemma GrownByOne(files: seq<File>, inputs: seq<File>, lo: nat, hi: nat, r: seq<File>, largest: InternalKey,
                   hi': nat, i: nat)
    requires AllValid(files) && Grown(files, inputs, lo, hi, r, largest, hi')
    requires i < |files| && SmallestBoundary(files, largest, i)
    ensures Grown(files, inputs, lo, hi, r + [files[i]], files[i].largest, hi' + 1)
  {
    var f := files[i];
    assert f in files;
    LargestGrows(files, r, largest, i);
    BoundaryOverlaps(files, r, largest, f);
    ChainGrows(r, |inputs|, f, largest);
    if IsSlice(files, inputs, lo, hi) {
      BoundaryIsNext(files, hi', i);
      Seqs.SliceAppend(files, lo, hi');
    }
  }

  /** `r` extends `inputs` by files that continue its last user key, and no file of the level
      continues the last user key of `r`. */
  ghost predicate BoundaryClosure(files: seq<File>, inputs: seq<File>, r: seq<File>) {
    && inputs <= r && AllValid(r) && Chained(r, |inputs|)
    && (forall f :: f in r ==> f in inputs || f in files)
    && (forall key, f :: IsLargest(r, key) && f in files ==> !IsBoundary(f, key))
    && (OverlapClosed(files, inputs) ==> r == inputs)
  }

  /** `r` with the boundary files that follow `largest`. */
  function WithBoundary(files: seq<File>, r: seq<File>, largest: InternalKey): seq<File>
    requires AllValid(files)
    decreases EndingAfter(files, largest)
  {
    var i := BoundaryIndex(files, largest, |files|);
    if i == |files| then r
    else
      EndsLater(files, largest, i);
      WithBoundary(files, r + [files[i]], files[i].largest)
  }

  /** Extends a selection by the files that continue its last user key. */
  method AddBoundaryInputs(files: seq<File>, inputs: seq<File>) returns (r: seq<File>)
    requires AllValid(files)
    ensures inputs == [] ==> r == []
    ensures inputs != [] ==> exists key :: IsLargest(inputs, key) && r == WithBoundary(files, inputs, key)
  {
    r := inputs;
    var found := FindLargestKey(inputs);
    if found.None? {
      return;
    }
    var largest := found.value;
    var i := FindSmallestBoundaryFile(files, largest);
    while i != |files|
      invariant i == BoundaryIndex(files, largest, |files|)
      invariant WithBoundary(files, r, largest) == WithBoundary(files, inputs, found.value)
      decreases EndingAfter(files, largest)
    {
      EndsLater(files, largest, i);
      r, largest := r + [files[i]], files[i].largest;
      i := FindSmallestBoundaryFile(files, largest);
    }
  }

  /** The closure on any selection; on a consecutive selection `files[lo..hi]` of a sorted level the
      result is again consecutive, and no file after it shares a user key with it; an
      overlap-closed selection stays as it is. */
  lemma BoundaryIsClosure(files: seq<File>, inputs: seq<File>, key: InternalKey, lo: nat, hi: nat)
    returns (hi': nat)
    requires AllValid(files) && AllValid(inputs) && IsLargest(inputs, key)
    ensures BoundaryClosure(files, inputs, WithBoundary(files, inputs, key))
    ensures IsSlice(files, inputs, lo, hi) ==>
              hi <= hi' && IsSlice(files, WithBoundary(files, inputs, key), lo, hi') && UserKeyEndsAt(files, hi')
  {
    NothingGrown(files, inputs, lo, hi, key);
    var largest;
    largest, hi' := GrowsToEnd(files, inputs, lo, hi, inputs, key, hi);
    FullyGrown(files, inputs, lo, hi, WithBoundary(files, inputs, key), largest, hi');
  }

  lemma {:induction false} GrowsToEnd(files: seq<File>, inputs: seq<File>, lo: nat, hi: nat, r: seq<File>,
                                      key: InternalKey, n: nat)
    returns (largest: InternalKey, hi': nat)
    requires AllValid(files) && Grown(files, inputs, lo, hi, r, key, n)
    ensures Grown(files, inputs, lo, hi, WithBoundary(files, r, key), largest, hi')
    ensures SmallestBoundary(files, largest, |files|)
    decreases EndingAfter(files, key)
  {
    var i := BoundaryIndex(files, key, |files|);
    BoundaryIndexIsSmallest(files, key);
    if i == |files| {
      largest, hi' := key, n;
    } else {
      GrownByOne(files, inputs, lo, hi, r, key, n, i);
      EndsLater(files, key, i);
      largest, hi' := GrowsToEnd(files, inputs, lo, hi, r + [files[i]], files[i].largest, n + 1);
    }
  }

  lemma NothingGrown(files: seq<File>, inputs: seq<File>, lo: nat, hi: nat, largest: InternalKey)
    requires AllValid(files) && AllValid(inputs) && IsLargest(inputs, largest)
    ensures Grown(files, inputs, lo, hi, inputs, largest, hi)
  {
    if IsSlice(files, inputs, lo, hi) {
      LastIsLargest(files, lo, hi, largest);
    }
  }

  lemma FullyGrown(files: seq<File>, inputs: seq<File>, lo: nat, hi: nat, r: seq<File>, largest: InternalKey, hi': nat)
    requires AllValid(files) && Grown(files, inputs, lo, hi, r, largest, hi')
    requires SmallestBoundary(files, largest, |files|)
    ensures BoundaryClosure(files, inputs, r)
    ensures IsSlice(files, inputs, lo, hi) ==> UserKeyEndsAt(files, hi')
  {
    if IsSlice(files, inputs, lo, hi) {
      NextIsNotBoundary(files, hi');
    }
    LargestIsUnique(files, r, largest);
  }

  lemma LastIsLargest(files: seq<File>, lo: nat, hi: nat, key: InternalKey)
    requires AllValid(files) && DisjointSorted(files) && lo < hi <= |files|
    requires IsLargest(files[lo..hi], key)
    ensures key == files[hi - 1].largest
  {
    var f :| f in files[lo..hi] && f.largest == key;
    var j :| lo <= j < hi && files[j] == f;
    if j < hi - 1 {
      assert files[hi - 1] in files[lo..hi];
      LargestIncreases(files, j, hi - 1);
    }
  }

  lemma LargestIsUnique(files: seq<File>, r: seq<File>, largest: InternalKey)
    requires IsLargest(r, largest) && forall f :: f in files ==> !IsBoundary(f, largest)
    ensures forall key, f :: IsLargest(r, key) && f in files ==> !IsBoundary(f, key)
  {
    forall key | IsLargest(r, key)
      ensures key.user == largest.user && Tag(key) == Tag(largest)
    {
    }
  }

  lemma EndsLater(files: seq<File>, key: InternalKey, i: nat)
    requires AllValid(files) && i < |files| && IsBoundary(files[i], key)
    ensures Less(key, files[i].largest)
    ensures EndingAfter(files, files[i].largest) < EndingAfter(files, key)
  {
    var f := files[i];
    assert f in files;
    EntryInBounds(f, f.entries[0]);
    assert i in EndingAfter(files, key);
  }

  lemma LargestGrows(files: seq<File>, r: seq<File>, key: InternalKey, i: nat)
    requires AllValid(files) && AllValid(r) && IsLargest(r, key) && i < |files| && IsBoundary(files[i], key)
    ensures AllValid(r + [files[i]]) && IsLargest(r + [files[i]], files[i].largest)
  {
    EndsLater(files, key, i);
    assert files[i] in files && files[i] in r + [files[i]];
  }

  lemma NextIsNotBoundary(files: seq<File>, hi: nat)
    requires DisjointSorted(files) && 0 < hi <= |files|
    requires forall f :: f in files ==> !IsBoundary(f, files[hi - 1].largest)
    ensures UserKeyEndsAt(files, hi)
  {
    if hi < |files| {
      assert files[hi] in files;
      assert Less(files[hi - 1].largest, files[hi].smallest);
    }
  }

  /** In a sorted level the smallest boundary file is the next file. */
  lemma BoundaryIsNext(files: seq<File>, hi: nat, i: nat)
    requires AllValid(files) && DisjointSorted(files) && 0 < hi <= |files| && i < |files|
    requires SmallestBoundary(files, files[hi - 1].largest, i)
    ensures i == hi
  {
    if i < hi {
      if i < hi - 1 {
        LargestIncreases(files, i, hi - 1);
      }
      var f := files[i];
      assert f in files;
      EntryInBounds(f, f.entries[0]);
    } else if hi < i {
      assert files[hi] in files;
      assert Less(files[hi - 1].largest, files[hi].smallest) && Less(files[hi].largest, files[i].smallest);
      EntryInBounds(files[hi], files[hi].entries[0]);
      assert IsBoundary(files[hi], files[hi - 1].largest);
    }
  }

  lemma BoundaryOverlaps(files: seq<File>, r: seq<File>, largest: InternalKey, f: File)
    requires AllValid(r) && ValidFile(f) && f in files && IsLargest(r, largest) && IsBoundary(f, largest)
    ensures f !in r && !OverlapClosed(files, r)
  {
    EntryInBounds(f, f.entries[0]);
    var g :| g in r && g.largest == largest;
    EntryInBounds(g, g.entries[0]);
    assert UserOverlap(g, f);
  }

  lemma ChainGrows(r: seq<File>, n: nat, f: File, largest: InternalKey)
    requires Chained(r, n) && IsLargest(r, largest) && f.smallest.user == largest.user
    ensures Chained(r + [f], n)
  {
    var r' := r + [f];
    forall i | n <= i < |r'|
      ensures Continues(r'[..i], r'[i])
    {
      if i < |r| {
        assert r'[..i] == r[..i];
      } else {
        assert r'[..i] == r;
      }
    }
  }

  /** A file that touches a connected set can join it. */
  lemma ConnectedGrows(r: seq<File>, f: File, g: File)
    requires Connected(r) && g in r && UserOverlap(f, g)
    ensures Connected(r + [f])
  {
    forall a, b, x | a in r + [f] && b in r + [f] && a.smallest.user <= x <= b.largest.user
      ensures Covered(r + [f], x)
    {
      assert f in r + [f];
      if !Contains(f, x) {
        var a', b' := if a in r then a else g, if b in r then b else g;
        assert Covered(r, x);
        var h :| h in r && Contains(h, x);
        assert h in r + [f];
      }
    }
  }

  /** Boundary files keep a connected set connected. */
  lemma {:induction false} ChainIsConnected(core: seq<File>, inputs: seq<File>, r: seq<File>)
    requires Ranged(r) && inputs <= r && Connected(core + inputs) && Chained(r, |inputs|)
    ensures Connected(core + r)
  {
    hide Connected, Ranged, Chained;
    if |r| == |inputs| {
      assert r == inputs;
    } else {
      var n := |r| - 1;
      ChainedPrefix(r, |inputs|);
      ChainIsConnected(core, inputs, r[..n]);
      var g := LinkOf(r, |inputs|);
      Seqs.LastApart(core, r);
      ConnectedGrows(core + r[..n], r[n], g);
    }
  }

  lemma ChainedPrefix(r: seq<File>, m: nat)
    requires Ranged(r) && Chained(r, m) && m < |r|
    ensures Ranged(r[..|r| - 1]) && Chained(r[..|r| - 1], m)
  {
    var n := |r| - 1;
    forall i | m <= i < n
      ensures Continues(r[..n][..i], r[i])
    {
      Seqs.PrefixOfPrefix(r, i, n);
    }
  }

  /** The file that the last file of a chain continues. */
  lemma LinkOf(r: seq<File>, m: nat) returns (g: File)
    requires Ranged(r) && Chained(r, m) && m < |r|
    ensures g in r[..|r| - 1] && g.largest.user == r[|r| - 1].smallest.user
    ensures g.smallest.user <= g.largest.user && r[|r| - 1].smallest.user <= r[|r| - 1].largest.user
  {
    var n := |r| - 1;
    assert Continues(r[..n], r[n]);
    g :| g in r[..n] && g.largest.user == r[n].smallest.user;
    assert g in r && r[n] in r;
  }

  ghost predicate Ranged(files: seq<File>) {
    forall f :: f in files ==> f.smallest.user <= f.largest.user
  }

  lemma ValidIsRanged(files: seq<File>)
    requires AllValid(files)
    ensures Ranged(files)
  {
    forall f | f in files
      ensures f.smallest.user <= f.largest.user
    {
      EntryInBounds(f, f.entries[0]);
    }
  }

  /** `h` meets the interval spanned by `core`. */
  ghost predicate Meets(core: seq<File>, h: File) {
    exists f, g :: f in core && g in core && f.smallest.user <= h.largest.user && h.smallest.user <= g.largest.user
  }

  lemma ConnectedWith(core: seq<File>, more: seq<File>)
    requires Connected(core) && Ranged(core) && forall h :: h in more ==> Meets(core, h)
    ensures Connected(core + more)
  {
    var all := core + more;
    forall a, b, x | a in all && b in all && a.smallest.user <= x <= b.largest.user
      ensures Covered(all, x)
    {
      if !Contains(a, x) && !Contains(b, x) {
        var f := SpansLow(core, more, a);
        var g := SpansHigh(core, more, b);
        assert Covered(core, x);
        var h :| h in core && Contains(h, x);
        assert h in all;
      }
    }
  }

  lemma SpansLow(core: seq<File>, more: seq<File>, a: File) returns (f: File)
    requires Ranged(core) && a in core + more && forall h :: h in more ==> Meets(core, h)
    ensures f in core && f.smallest.user <= a.largest.user
  {
    if a in core {
      f := a;
    } else {
      assert Meets(core, a);
      var f', g :| f' in core && g in core && f'.smallest.user <= a.largest.user && a.smallest.user <= g.largest.user;
      f := f';
    }
  }

  lemma SpansHigh(core: seq<File>, more: seq<File>, b: File) returns (g: File)
    requires Ranged(core) && b in core + more && forall h :: h in more ==> Meets(core, h)
    ensures g in core && b.smallest.user <= g.largest.user
  {
    if b in core {
      g := b;
    } else {
      assert Meets(core, b);
      var f, g' :| f in core && g' in core && f.smallest.user <= b.largest.user && b.smallest.user <= g'.largest.user;
      g := g';
    }
  }

  lemma ConnectedSameFiles(a: seq<File>, b: seq<File>)
    requires Connected(a) && forall f :: f in a <==> f in b
    ensures Connected(b)
  {
    forall f, g, x | f in b && g in b && f.smallest.user <= x <= g.largest.user
      ensures Covered(b, x)
    {
      assert Covered(a, x);
    }
  }

  // ----- What a finished selection guarantees

  /** Every file of the level left out holds only newer entries for the user keys selected. */
  ghost predicate RestNewer(files: seq<File>, inputs: seq<File>) {
    forall f, g :: f in files && f !in inputs && g in inputs ==> FileNewer(f, g)
  }

  ghost predicate ClosedInputs(files: seq<File>, inputs: seq<File>) {
    inputs != [] && (forall f :: f in inputs ==> f in files) && RestNewer(files, inputs)
  }

  /** A starting set: consecutive above level 0, overlap-closed at level 0. */
  ghost predicate Seed(v: Version, level: nat, inputs: seq<File>)
    requires level < |v|
  {
    && inputs != [] && (forall f :: f in inputs ==> f in v[level])
    && (level == 0 ==> OverlapClosed(v[0], inputs))
    && (level > 0 ==> exists lo, hi :: IsSlice(v[level], inputs, lo, hi))
  }

  /** The files to compact: `in0` of `level`, closed, and all files of the next level that meet its range. */
  ghost predicate Selection(v: Version, level: nat, in0: seq<File>, in1: seq<File>) {
    && level + 1 < |v|
    && ClosedInputs(v[level], in0)
    && exists lo, hi :: HullIs(in0, lo, hi) && in1 == Overlapping(v[level + 1], Some(lo), Some(hi))
  }

  lemma ClosedAtLevel0(files: seq<File>, inputs: seq<File>)
    requires AllValid(files) && OverlapClosed(files, inputs) && forall f :: f in inputs ==> f in files
    ensures RestNewer(files, inputs)
  {
    forall f, g | f in files && f !in inputs && g in inputs
      ensures FileNewer(f, g)
    {
      forall x, y | x in f.entries && y in g.entries
        ensures x.key.user != y.key.user
      {
        EntryInBounds(f, x);
        EntryInBounds(g, y);
        assert !UserOverlap(g, f);
      }
    }
  }

  lemma ClosedAboveLevel0(files: seq<File>, lo: nat, hi: nat)
    requires AllValid(files) && DisjointSorted(files) && Unique(LevelEntries(files))
    requires lo < hi <= |files| && UserKeyEndsAt(files, hi)
    ensures RestNewer(files, files[lo..hi])
  {
    hide Unique, FileNewer;
    forall f, g | f in files && f !in files[lo..hi] && g in files[lo..hi]
      ensures FileNewer(f, g)
    {
      var i := OutsideSlice(files, lo, hi, f);
      var j :| lo <= j < hi && files[j] == g;
      if i < lo {
        EarlierFileNewer(files, i, j);
      } else {
        AfterSlice(files, hi, j, i);
        LaterFileDisjoint(files, j, i);
      }
    }
  }

  lemma OutsideSlice(files: seq<File>, lo: nat, hi: nat, f: File) returns (i: nat)
    requires lo <= hi <= |files| && f in files && f !in files[lo..hi]
    ensures i < |files| && files[i] == f && !(lo <= i < hi)
  {
    i :| 0 <= i < |files| && files[i] == f;
  }

  lemma AfterSlice(files: seq<File>, hi: nat, j: nat, i: nat)
    requires AllValid(files) && DisjointSorted(files) && UserKeyEndsAt(files, hi) && j < hi <= i < |files|
    ensures files[j].largest.user < files[i].smallest.user
  {
    SmallestIncreases(files, j, hi - 1);
    SmallestIncreases(files, hi, i);
    assert Less(files[hi - 1].largest, files[hi].smallest);
  }

  lemma EarlierFileNewer(files: seq<File>, i: nat, j: nat)
    requires AllValid(files) && DisjointSorted(files) && Unique(LevelEntries(files)) && i < j < |files|
    ensures FileNewer(files[i], files[j])
  {
    assert files[i] in files && files[j] in files && Less(files[i].largest, files[j].smallest);
    NoTies(files, files[i], files[j]);
    InOrderIsNewer(files[i], files[j]);
  }

  /** Entries of one user key in two files of a level never carry the same sequence number
      unless they are the same entry. */
  ghost predicate TieFree(f: File, g: File) {
    forall x, y :: x in f.entries && y in g.entries && x.key.user == y.key.user && x.key.sn == y.key.sn ==> x == y
  }

  lemma NoTies(files: seq<File>, f: File, g: File)
    requires Unique(LevelEntries(files)) && f in files && g in files
    ensures TieFree(f, g)
  {
    forall x, y | x in f.entries && y in g.entries && x.key.user == y.key.user && x.key.sn == y.key.sn
      ensures x == y
    {
      assert x in LevelEntries(files) && y in LevelEntries(files);
    }
  }

  lemma InOrderIsNewer(f: File, g: File)
    requires ValidFile(f) && ValidFile(g) && Less(f.largest, g.smallest) && TieFree(f, g)
    ensures FileNewer(f, g)
  {
    forall x, y | x in f.entries && y in g.entries && x.key.user == y.key.user
      ensures x.key.sn > y.key.sn
    {
      EntriesInOrder(f, g, x, y);
    }
  }

  lemma EntriesInOrder(f: File, g: File, x: Entry, y: Entry)
    requires ValidFile(f) && ValidFile(g) && Less(f.largest, g.smallest) && x in f.entries && y in g.entries
    ensures Less(x.key, y.key)
  {
    EntryInBounds(f, x);
    EntryInBounds(g, y);
  }

  lemma LaterFileDisjoint(files: seq<File>, j: nat, i: nat)
    requires AllValid(files) && i < |files| && j < |files| && files[j].largest.user < files[i].smallest.user
    ensures FileNewer(files[i], files[j])
  {
    var f, g := files[i], files[j];
    assert f in files && g in files;
    forall x, y | x in f.entries && y in g.entries
      ensures x.key.user != y.key.user
    {
      EntryInBounds(f, x);
      EntryInBounds(g, y);
    }
  }

  lemma LevelIsUnique(v: Version, level: nat)
    requires Unique(VersionEntries(v)) && level < |v|
    ensures Unique(LevelEntries(v[level]))
  {
    forall e | e in LevelEntries(v[level])
      ensures e in VersionEntries(v)
    {
    }
  }

  lemma LevelFacts(v: Version, level: nat)
    requires ValidVersion(v) && level < |v|
    ensures AllValid(v[level]) && (level > 0 ==> DisjointSorted(v[level]))
  {
  }

  /** `r` is `inputs` with every boundary file that follows. */
  ghost predicate ClosureOf(files: seq<File>, inputs: seq<File>, r: seq<File>) {
    AllValid(files) && exists key :: IsLargest(inputs, key) && r == WithBoundary(files, inputs, key)
  }

  /** Boundary files close a starting set. */
  method CloseInputs(v: Version, level: nat, seed: seq<File>) returns (r: seq<File>)
    requires ValidVersion(v) && Unique(VersionEntries(v)) && level < |v| && Seed(v, level, seed)
    ensures ClosedInputs(v[level], r) && AllValid(r) && ClosureOf(v[level], seed, r)
    ensures seed <= r && Chained(r, |seed|)
  {
    LevelFacts(v, level);
    assert AllValid(seed);
    r := AddBoundaryInputs(v[level], seed);
    ghost var key :| IsLargest(seed, key) && r == WithBoundary(v[level], seed, key);
    if level == 0 {
      ghost var _ := BoundaryIsClosure(v[0], seed, key, 0, 0);
      ClosedAtLevel0(v[0], r);
    } else {
      ghost var lo, hi :| IsSlice(v[level], seed, lo, hi);
      ghost var hi' := BoundaryIsClosure(v[level], seed, key, lo, hi);
      LevelIsUnique(v, level);
      ClosedAboveLevel0(v[level], lo, hi');
    }
  }

  // ----- SetupOtherInputs, PickCompaction, CompactRange

  function TotalSize(files: seq<File>): nat {
    TotalUpTo(files, |files|)
  }

  function TotalUpTo(files: seq<File>, n: nat): nat
    requires n <= |files|
  {
    if n == 0 then 0 else TotalUpTo(files, n - 1) + files[n - 1].size
  }

  lemma {:induction false} TotalIncreases(files: seq<File>, m: nat, n: nat)
    requires m <= n <= |files|
    ensures TotalUpTo(files, m) <= TotalUpTo(files, n)
  {
    if m < n {
      TotalIncreases(files, m, n - 1);
    }
  }

  ghost predicate NextOf(v: Version, level: nat, in0: seq<File>, in1: seq<File>) {
    && level + 1 < |v|
    && exists lo, hi :: HullIs(in0, lo, hi) && in1 == Overlapping(v[level + 1], Some(lo), Some(hi))
  }

  /** The files of the next level that meet the range of `in0`. */
  method NextInputs(v: Version, level: nat, in0: seq<File>) returns (in1: seq<File>)
    requires ValidVersion(v) && level + 1 < |v| && ClosedInputs(v[level], in0) && AllValid(in0)
    ensures Selection(v, level, in0, in1) && NextOf(v, level, in0, in1)
    ensures AllValid(in1) && forall h :: h in in1 ==> h in v[level + 1] && Meets(in0, h)
  {
    var smallest, largest := GetRange(in0);
    LevelFacts(v, level + 1);
    ghost var b, e;
    in1, b, e := GetOverlappingInputs(level + 1, v[level + 1], Some(smallest.user), Some(largest.user));
    OverlappingMembers(v[level + 1], b, e);
    MeetsHull(in0, smallest.user, largest.user, in1);
  }

  lemma MeetsHull(core: seq<File>, lo: int, hi: int, more: seq<File>)
    requires HullIs(core, lo, hi) && forall h :: h in more ==> Overlaps(h, Some(lo), Some(hi))
    ensures forall h :: h in more ==> Meets(core, h)
  {
    var f :| f in core && f.smallest.user == lo;
    var g :| g in core && g.largest.user == hi;
    forall h | h in more
      ensures Meets(core, h)
    {
      assert f.smallest.user <= h.largest.user && h.smallest.user <= g.largest.user;
    }
  }

  /** The files that meet `[begin, end]`; at level 0 the range first grows over files until none sticks out. */
  ghost predicate Meeting(level: nat, files: seq<File>, begin: Option<int>, end: Option<int>, r: seq<File>) {
    exists b, e :: MeetingWithin(level, files, begin, end, b, e) && r == Overlapping(files, b, e)
  }

  ghost predicate MeetingWithin(level: nat, files: seq<File>, begin: Option<int>, end: Option<int>,
                                b: Option<int>, e: Option<int>) {
    && Widened(begin, end, b, e) && Least(files, begin, end, b, e)
    && (if level == 0 then ClosedRange(files, b, e) else b == begin && e == end)
  }

  /** The files of `level` that meet the whole range of a compaction. */
  ghost predicate MeetingAll(v: Version, level: nat, in0: seq<File>, in1: seq<File>, r: seq<File>) {
    level < |v| && exists lo, hi :: HullIs(in0 + in1, lo, hi) && Meeting(level, v[level], Some(lo), Some(hi), r)
  }

  /** The files of `level` that meet the whole range of a compaction, as a new starting set. */
  method Reselect(v: Version, level: nat, in0: seq<File>, in1: seq<File>) returns (seed: seq<File>)
    requires ValidVersion(v) && level + 1 < |v| && in0 != [] && AllValid(in0) && AllValid(in1)
    requires forall f :: f in in0 ==> f in v[level]
    ensures Seed(v, level, seed) && MeetingAll(v, level, in0, in1, seed) && forall f :: f in in0 ==> f in seed
    ensures Connected(in0 + in1) ==> Connected(in0 + in1 + seed)
  {
    var smallest, largest := GetRange(in0 + in1);
    LevelFacts(v, level);
    ghost var b, e;
    seed, b, e := GetOverlappingInputs(level, v[level], Some(smallest.user), Some(largest.user));
    OverlappingMembers(v[level], b, e);
    assert MeetingWithin(level, v[level], Some(smallest.user), Some(largest.user), b, e);
    ReselectKeeps(in0, in1, smallest.user, largest.user, v[level], b, e);
    assert in0[0] in seed;
    if level == 0 {
      WithinIsClosed(v[0], b, e);
      if Connected(in0 + in1) {
        WidenedIsConnected(in0 + in1, smallest.user, largest.user, v[0], b, e);
      }
    } else {
      ghost var lo, hi := OverlappingIsSlice(v[level], b, e);
      assert IsSlice(v[level], seed, lo, hi);
      if Connected(in0 + in1) {
        MeetsHull(in0 + in1, smallest.user, largest.user, seed);
        ValidIsRanged(in0 + in1);
        ConnectedWith(in0 + in1, seed);
      }
    }
  }

  lemma {:induction false} ReselectKeeps(in0: seq<File>, in1: seq<File>, lo: int, hi: int, files: seq<File>,
                                         b: Option<int>, e: Option<int>)
    requires HullIs(in0 + in1, lo, hi) && Widened(Some(lo), Some(hi), b, e)
    requires AllValid(in0) && forall f :: f in in0 ==> f in files
    ensures forall f :: f in in0 ==> f in Overlapping(files, b, e)
  {
    OverlappingMembers(files, b, e);
    ValidIsRanged(in0);
    forall f | f in in0
      ensures Overlaps(f, b, e)
    {
      assert f in in0 + in1;
    }
  }

  lemma {:induction false} WidenedIsConnected(core: seq<File>, lo: int, hi: int, files: seq<File>, b: Option<int>,
                                              e: Option<int>)
    requires Connected(core) && HullIs(core, lo, hi)
    requires Widened(Some(lo), Some(hi), b, e) && WidenedOverFiles(files, Some(lo), Some(hi), b, e)
    requires forall f :: f in Overlapping(files, b, e) ==> Within(f, b, e)
    ensures Connected(core + Overlapping(files, b, e))
  {
    var seed := Overlapping(files, b, e);
    var all := core + seed;
    OverlappingMembers(files, b, e);
    forall f, g, x | f in all && g in all && f.smallest.user <= x <= g.largest.user
      ensures Covered(all, x)
    {
      if lo <= x <= hi {
        var f0 :| f0 in core && f0.smallest.user == lo;
        var g0 :| g0 in core && g0.largest.user == hi;
        assert Covered(core, x);
        var h :| h in core && Contains(h, x);
        assert h in all;
      } else {
        assert b.value <= x <= e.value;
        assert Covered(files, x);
        var h :| h in files && Contains(h, x);
        assert h in all;
      }
    }
  }

  /** The inputs before the attempt to grow them: the closed starting set and the next level's files in its range. */
  ghost predicate BaseOf(v: Version, level: nat, seed: seq<File>, in0: seq<File>, in1: seq<File>) {
    level < |v| && ClosureOf(v[level], seed, in0) && NextOf(v, level, in0, in1)
  }

  /** The grown first set: start again from all files of the level in the range of both. */
  ghost predicate GrowthOf(v: Version, level: nat, in0: seq<File>, in1: seq<File>, ex0: seq<File>) {
    level < |v| && exists seed :: MeetingAll(v, level, in0, in1, seed) && ClosureOf(v[level], seed, ex0)
  }

  /** More files of this level, and together with the next level's files below the limit in size. */
  ghost predicate WorthGrowing(in0: seq<File>, in1: seq<File>, ex0: seq<File>, byteLimit: nat) {
    |ex0| > |in0| && TotalSize(in1) + TotalSize(ex0) < byteLimit
  }

  /** The growth is taken if it is worth it and does not bring in one more file of the next level. */
  ghost predicate GrownFrom(v: Version, level: nat, base0: seq<File>, base1: seq<File>, byteLimit: nat,
                            in0: seq<File>, in1: seq<File>) {
    if base1 == [] then in0 == base0 && in1 == base1
    else
      exists ex0 :: GrowthOf(v, level, base0, base1, ex0) &&
        if !WorthGrowing(base0, base1, ex0, byteLimit) then in0 == base0 && in1 == base1
        else
          exists ex1 :: NextOf(v, level, ex0, ex1) &&
            if |ex1| == |base1| then in0 == ex0 && in1 == ex1 else in0 == base0 && in1 == base1
  }

  /** How a compaction follows from its starting set. */
  ghost predicate SetupOf(v: Version, level: nat, seed: seq<File>, byteLimit: nat, in0: seq<File>, in1: seq<File>) {
    exists base0, base1 ::
      BaseOf(v, level, seed, base0, base1) && GrownFrom(v, level, base0, base1, byteLimit, in0, in1)
  }

  /** Completes a starting set to a compaction; the pointer for the next one is the greatest key selected. */
  method SetupOtherInputs(v: Version, level: nat, seed: seq<File>, byteLimit: nat)
    returns (in0: seq<File>, in1: seq<File>, pointer: InternalKey)
    requires ValidVersion(v) && Unique(VersionEntries(v)) && level + 1 < |v| && Seed(v, level, seed)
    ensures Selection(v, level, in0, in1) && forall f :: f in seed ==> f in in0
    ensures Connected(seed) ==> Connected(in0 + in1)
    ensures SetupOf(v, level, seed, byteLimit, in0, in1) && IsLargest(in0, pointer)
  {
    hide ValidVersion, Unique, Seed, Selection, Chained, Meets, ClosedInputs, ClosureOf, NextOf, GrownFrom, Connected;
    in0 := CloseInputs(v, level, seed);
    in1 := NextInputs(v, level, in0);
    Seqs.PrefixMembers(seed, in0);
    if Connected(seed) {
      SetupConnected(seed, in0, in1);
    }
    ghost var base0, base1 := in0, in1;
    in0, in1 := GrowInputs(v, level, in0, in1, byteLimit);
    assert BaseOf(v, level, seed, base0, base1);
    SelectedNonEmpty(v, level, in0, in1);
    var smallest;
    smallest, pointer := GetRange(in0);
    assert IsLargest(in0, pointer);
  }

  lemma SelectedNonEmpty(v: Version, level: nat, in0: seq<File>, in1: seq<File>)
    requires Selection(v, level, in0, in1)
    ensures in0 != []
  {
  }

  /** Tries to grow the first set without changing which files of the next level are selected. */
  method GrowInputs(v: Version, level: nat, base0: seq<File>, base1: seq<File>, byteLimit: nat)
    returns (in0: seq<File>, in1: seq<File>)
    requires ValidVersion(v) && Unique(VersionEntries(v)) && Selection(v, level, base0, base1)
    requires AllValid(base0) && AllValid(base1)
    ensures Selection(v, level, in0, in1) && forall f :: f in base0 ==> f in in0
    ensures Connected(base0 + base1) ==> Connected(in0 + in1)
    ensures GrownFrom(v, level, base0, base1, byteLimit, in0, in1)
  {
    SelectedFiles(v, level, base0, base1);
    hide ValidVersion, Unique, Seed, Selection, Chained, Meets, ClosedInputs, ClosureOf, NextOf, MeetingAll, Connected;
    hide GrownFrom, GrowthOf, AllValid;
    in0, in1 := base0, base1;
    if base1 == [] {
      NothingBelow(v, level, base0, byteLimit);
      return;
    }
    var reseed := Reselect(v, level, base0, base1);
    var ex0 := CloseInputs(v, level, reseed);
    Seqs.PrefixMembers(reseed, ex0);
    IsGrowth(v, level, base0, base1, reseed, ex0);
    if |ex0| <= |base0| || TotalSize(base1) + TotalSize(ex0) >= byteLimit {
      NotWorth(v, level, base0, base1, byteLimit, ex0);
      return;
    }
    hide WorthGrowing;
    var ex1 := NextInputs(v, level, ex0);
    Settled(v, level, base0, base1, byteLimit, ex0, ex1);
    if |ex1| == |base1| {
      if Connected(base0 + base1) {
        ExpansionConnected(v, level, base0, base1, reseed, ex0, ex1);
      }
      in0, in1 := ex0, ex1;
    }
  }

  lemma IsGrowth(v: Version, level: nat, in0: seq<File>, in1: seq<File>, seed: seq<File>, ex0: seq<File>)
    requires level < |v| && MeetingAll(v, level, in0, in1, seed) && ClosureOf(v[level], seed, ex0)
    ensures GrowthOf(v, level, in0, in1, ex0)
  {
    hide MeetingAll, ClosureOf;
  }

  lemma NothingBelow(v: Version, level: nat, base0: seq<File>, byteLimit: nat)
    ensures GrownFrom(v, level, base0, [], byteLimit, base0, [])
  {
  }

  lemma NotWorth(v: Version, level: nat, base0: seq<File>, base1: seq<File>, byteLimit: nat, ex0: seq<File>)
    requires base1 != [] && GrowthOf(v, level, base0, base1, ex0) && !WorthGrowing(base0, base1, ex0, byteLimit)
    ensures GrownFrom(v, level, base0, base1, byteLimit, base0, base1)
  {
    hide GrowthOf, WorthGrowing;
  }

  lemma Settled(v: Version, level: nat, base0: seq<File>, base1: seq<File>, byteLimit: nat, ex0: seq<File>,
                ex1: seq<File>)
    requires base1 != [] && GrowthOf(v, level, base0, base1, ex0) && WorthGrowing(base0, base1, ex0, byteLimit)
    requires NextOf(v, level, ex0, ex1)
    ensures |ex1| == |base1| ==> GrownFrom(v, level, base0, base1, byteLimit, ex0, ex1)
    ensures |ex1| != |base1| ==> GrownFrom(v, level, base0, base1, byteLimit, base0, base1)
  {
    hide GrowthOf, WorthGrowing, NextOf;
  }

  lemma SelectedFiles(v: Version, level: nat, in0: seq<File>, in1: seq<File>)
    requires Selection(v, level, in0, in1)
    ensures level + 1 < |v| && in0 != [] && forall f :: f in in0 ==> f in v[level]
  {
  }

  lemma SetupConnected(seed: seq<File>, in0: seq<File>, in1: seq<File>)
    requires Connected(seed) && AllValid(in0) && seed <= in0 && Chained(in0, |seed|)
    requires forall h :: h in in1 ==> Meets(in0, h)
    ensures Connected(in0 + in1)
  {
    ValidIsRanged(in0);
    assert [] + seed == seed && [] + in0 == in0;
    ChainIsConnected([], seed, in0);
    ConnectedWith(in0, in1);
  }

  lemma ExpansionConnected(v: Version, level: nat, in0: seq<File>, in1: seq<File>, reseed: seq<File>, ex0: seq<File>,
                           ex1: seq<File>)
    requires level + 1 < |v| && Selection(v, level, in0, in1) && Selection(v, level, ex0, ex1)
    requires AllValid(in0) && AllValid(in1) && AllValid(ex0)
    requires forall f :: f in in0 ==> f in reseed
    requires reseed <= ex0 && Chained(ex0, |reseed|) && Connected(in0 + in1 + reseed)
    requires forall h :: h in ex1 ==> Meets(ex0, h)
    ensures Connected(ex0 + ex1)
  {
    var core := in0 + in1;
    ValidIsRanged(ex0);
    ValidIsRanged(core);
    ChainIsConnected(core, reseed, ex0);
    MeetsMore(core, ex0, ex1);
    ConnectedWith(core + ex0, ex1);
    NextInputsGrow(v, level, in0, in1, ex0, ex1);
    ConnectedSameFiles(core + ex0 + ex1, ex0 + ex1);
  }

  lemma MeetsMore(core: seq<File>, ex0: seq<File>, ex1: seq<File>)
    requires forall h :: h in ex1 ==> Meets(ex0, h)
    ensures forall h :: h in ex1 ==> Meets(core + ex0, h)
  {
    forall h | h in ex1
      ensures Meets(core + ex0, h)
    {
      var f, g :| f in ex0 && g in ex0 && f.smallest.user <= h.largest.user && h.smallest.user <= g.largest.user;
      assert f in core + ex0 && g in core + ex0;
    }
  }

  /** Growing the first set never loses a file of the next level. */
  lemma NextInputsGrow(v: Version, level: nat, in0: seq<File>, in1: seq<File>, ex0: seq<File>, ex1: seq<File>)
    requires Selection(v, level, in0, in1) && Selection(v, level, ex0, ex1)
    requires forall f :: f in in0 ==> f in ex0
    ensures forall f :: f in in1 ==> f in ex1
  {
    var lo, hi :| HullIs(in0, lo, hi) && in1 == Overlapping(v[level + 1], Some(lo), Some(hi));
    var lo', hi' :| HullIs(ex0, lo', hi') && ex1 == Overlapping(v[level + 1], Some(lo'), Some(hi'));
    OverlappingMembers(v[level + 1], Some(lo), Some(hi));
    OverlappingMembers(v[level + 1], Some(lo'), Some(hi'));
    assert lo' <= lo && hi <= hi';
  }

  /** Without a pointer the first file; else the first that ends after it, or the first of all if none does. */
  ghost predicate IsNext(files: seq<File>, pointer: Option<InternalKey>, pick: nat) {
    && pick < |files|
    && (pointer.None? ==> pick == 0)
    && (pointer.Some? && Less(pointer.value, files[pick].largest) ==>
          forall i :: 0 <= i < pick ==> !Less(pointer.value, files[i].largest))
    && (pointer.Some? && !Less(pointer.value, files[pick].largest) ==>
          pick == 0 && forall i :: 0 <= i < |files| ==> !Less(pointer.value, files[i].largest))
  }

  /** The first file after the place where the last compaction of the level stopped, or the first. */
  method PickFile(files: seq<File>, pointer: Option<InternalKey>) returns (pick: nat)
    requires files != []
    ensures IsNext(files, pointer, pick)
  {
    for i := 0 to |files|
      invariant pointer.None? ==> i == 0
      invariant pointer.Some? ==> forall j :: 0 <= j < i ==> !Less(pointer.value, files[j].largest)
    {
      if pointer.None? || Less(pointer.value, files[i].largest) {
        return i;
      }
    }
    return 0;
  }

  ghost predicate FromFile(v: Version, level: nat, pick: nat, seed: seq<File>) {
    && level < |v| && pick < |v[level]|
    && var f := v[level][pick];
       if level == 0 then Meeting(0, v[0], Some(f.smallest.user), Some(f.largest.user), seed) else seed == [f]
  }

  /** One file as a starting set; at level 0 with every file that overlaps it, directly or not. */
  method SeedFromFile(v: Version, level: nat, pick: nat) returns (seed: seq<File>)
    requires ValidVersion(v) && level < |v| && pick < |v[level]|
    ensures Seed(v, level, seed) && Connected(seed) && v[level][pick] in seed
    ensures FromFile(v, level, pick, seed)
  {
    var f := v[level][pick];
    LevelFacts(v, level);
    assert f in v[level];
    EntryInBounds(f, f.entries[0]);
    seed := [f];
    OneIsConnected(f);
    if level == 0 {
      ghost var b, e;
      seed, b, e := GetOverlappingInputs(0, v[0], Some(f.smallest.user), Some(f.largest.user));
      OverlappingMembers(v[0], b, e);
      assert MeetingWithin(0, v[0], Some(f.smallest.user), Some(f.largest.user), b, e);
      WithinIsClosed(v[0], b, e);
      WidenedIsConnected([f], f.smallest.user, f.largest.user, v[0], b, e);
      ConnectedSameFiles([f] + seed, seed);
    } else {
      assert IsSlice(v[level], seed, pick, pick + 1);
    }
  }

  lemma OneIsConnected(f: File)
    ensures Connected([f]) && HullIs([f], f.smallest.user, f.largest.user)
  {
    assert f in [f];
  }

  /** The file a seek singled out, or the next one. */
  ghost predicate Picks(files: seq<File>, seek: Option<nat>, pointer: Option<InternalKey>, pick: nat) {
    if seek.Some? then pick == seek.value < |files| else IsNext(files, pointer, pick)
  }

  /** A compaction the store picks itself, from one file: the one a seek singled out, or the next
      after the last compaction of the level. Its ranges leave no gap. */
  method PickCompaction(v: Version, level: nat, seek: Option<nat>, pointer: Option<InternalKey>, byteLimit: nat)
    returns (in0: seq<File>, in1: seq<File>, next: InternalKey)
    requires ValidVersion(v) && Unique(VersionEntries(v)) && level + 1 < |v|
    requires v[level] != [] && (seek.Some? ==> seek.value < |v[level]|)
    ensures Selection(v, level, in0, in1) && Connected(in0 + in1)
    ensures exists pick, seed :: Picks(v[level], seek, pointer, pick) && FromFile(v, level, pick, seed) &&
              SetupOf(v, level, seed, byteLimit, in0, in1)
    ensures IsLargest(in0, next)
  {
    var pick: nat;
    if seek.Some? {
      pick := seek.value;
    } else {
      pick := PickFile(v[level], pointer);
    }
    var seed := SeedFromFile(v, level, pick);
    in0, in1, next := SetupOtherInputs(v, level, seed, byteLimit);
    assert Picks(v[level], seek, pointer, pick);
  }

  /** How many files to take before their sizes reach `maxBytes`, at least one. */
  method CutShort(inputs: seq<File>, maxBytes: nat) returns (n: nat)
    requires inputs != []
    ensures CutTo(inputs, maxBytes, n)
  {
    var total := 0;
    for i := 0 to |inputs|
      invariant total == TotalUpTo(inputs, i)
      invariant forall j :: 0 < j <= i ==> TotalUpTo(inputs, j) < maxBytes
    {
      total := total + inputs[i].size;
      if total >= maxBytes {
        return i + 1;
      }
    }
    return |inputs|;
  }

  /** A manual compaction of a key range; above level 0 it is cut short after `maxBytes`. */
  method CompactRange(v: Version, level: nat, begin: Option<int>, end: Option<int>, maxBytes: nat, byteLimit: nat)
    returns (in0: seq<File>, in1: seq<File>, next: Option<InternalKey>)
    requires ValidVersion(v) && Unique(VersionEntries(v)) && level + 1 < |v|
    ensures in0 == [] <==> forall f :: f in v[level] ==> !Overlaps(f, begin, end)
    ensures in0 != [] ==> Selection(v, level, in0, in1)
    ensures in0 != [] ==> exists seed :: FromRange(v, level, begin, end, maxBytes, seed) &&
                            SetupOf(v, level, seed, byteLimit, in0, in1)
    ensures next.Some? <==> in0 != []
    ensures next.Some? ==> IsLargest(in0, next.value)
    ensures level > 0 && TotalSize(Overlapping(v[level], begin, end)) < maxBytes ==>
              forall f :: f in v[level] && Overlaps(f, begin, end) ==> f in in0
  {
    OverlappingMembers(v[level], begin, end);
    in0, in1, next := [], [], None;
    var seed := SeedFromRange(v, level, begin, end, maxBytes);
    if seed != [] {
      var largest;
      in0, in1, largest := SetupOtherInputs(v, level, seed, byteLimit);
      next := Some(largest);
    }
  }

  /** The shortest prefix whose sizes reach `maxBytes`, or all files if none does. */
  ghost predicate CutTo(all: seq<File>, maxBytes: nat, n: nat) {
    && 0 < n <= |all|
    && (forall i :: 0 < i < n ==> TotalUpTo(all, i) < maxBytes)
    && (n < |all| ==> TotalUpTo(all, n) >= maxBytes)
  }

  /** The files that meet a manual range; above level 0 cut short. */
  ghost predicate FromRange(v: Version, level: nat, begin: Option<int>, end: Option<int>, maxBytes: nat,
                            seed: seq<File>) {
    && level < |v|
    && if level == 0 then Meeting(0, v[0], begin, end, seed)
       else
         var all := Overlapping(v[level], begin, end);
         exists n: nat :: CutTo(all, maxBytes, n) && seed == all[..n]
  }

  method SeedFromRange(v: Version, level: nat, begin: Option<int>, end: Option<int>, maxBytes: nat)
    returns (seed: seq<File>)
    requires ValidVersion(v) && level < |v|
    ensures seed == [] <==> forall f :: f in v[level] ==> !Overlaps(f, begin, end)
    ensures seed != [] ==> Seed(v, level, seed) && FromRange(v, level, begin, end, maxBytes, seed)
    ensures level > 0 && TotalSize(Overlapping(v[level], begin, end)) < maxBytes ==>
              seed == Overlapping(v[level], begin, end)
  {
    LevelFacts(v, level);
    ghost var b, e;
    seed, b, e := GetOverlappingInputs(level, v[level], begin, end);
    if seed == [] {
      return;
    }
    if level == 0 {
      OverlappingMembers(v[level], b, e);
      assert MeetingWithin(0, v[0], begin, end, b, e);
      WithinIsClosed(v[0], b, e);
    } else {
      ghost var lo, hi := OverlappingIsSlice(v[level], b, e);
      var n := CutShort(seed, maxBytes);
      TotalIncreases(seed, n, |seed|);
      FirstOfSlice(v[level], lo, hi, n);
      seed := seed[..n];
      assert IsSlice(v[level], seed, lo, lo + n);
    }
  }

  lemma FirstOfSlice(files: seq<File>, lo: nat, hi: nat, n: nat)
    requires lo <= hi <= |files| && n <= hi - lo
    ensures files[lo..hi][..n] == files[lo..lo + n]
    ensures forall f :: f in files[lo..hi] ==> f in files
  {
  }
}
