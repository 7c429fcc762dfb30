/** Table files, versions and the read path through them. */
module Versions {
  import opened Keys
  import Seqs

  const NUM_LEVELS: nat := 7

  /** A table's metadata together with the immutable entries it serves. */
  datatype File = File(number: nat, size: nat, smallest: InternalKey, largest: InternalKey, entries: seq<Entry>)

  predicate ValidFile(f: File) {
    && |f.entries| > 0
    && Sorted(f.entries)
    && f.smallest == f.entries[0].key
    && f.largest == f.entries[|f.entries| - 1].key
    && forall i :: 0 <= i < |f.entries| ==> f.entries[i].key.sn <= MAX_SEQUENCE
  }

  type Version = seq<seq<File>>

  ghost function FileEntries(f: File): set<Entry> {
    Members(f.entries)
  }

  ghost function LevelEntries(files: seq<File>): (r: set<Entry>)
    ensures forall e :: e in r <==> exists f :: f in files && e in f.entries
  {
    set f, e | f in files && e in f.entries :: e
  }

  ghost function VersionEntries(v: Version): (r: set<Entry>)
    ensures forall e :: e in r <==> exists l, f :: 0 <= l < |v| && f in v[l] && e in f.entries
  {
    set l, f, e | 0 <= l < |v| && f in v[l] && e in f.entries :: e
  }

  /** Every entry of `f` is newer than every entry of `g` for the same user key. */
  ghost predicate FileNewer(f: File, g: File) {
    forall x, y :: x in f.entries && y in g.entries && x.key.user == y.key.user ==> x.key.sn > y.key.sn
  }

  /** Files of a level above 0: sorted, with disjoint internal-key ranges. */
  predicate DisjointSorted(files: seq<File>) {
    forall i, j :: 0 <= i < j < |files| ==> Less(files[i].largest, files[j].smallest)
  }

  /** Files of level 0 carry distinct numbers, and a higher number holds newer entries. */
  ghost predicate NumbersNewer(files: seq<File>) {
    && (forall i, j :: 0 <= i < j < |files| ==> files[i].number != files[j].number)
    && (forall f, g :: f in files && g in files && f.number > g.number ==> FileNewer(f, g))
  }

  ghost predicate FilesValid(v: Version) {
    forall l, f :: 0 <= l < |v| && f in v[l] ==> ValidFile(f)
  }

  ghost predicate LevelsSorted(v: Version) {
    forall l :: 0 < l < |v| ==> DisjointSorted(v[l])
  }

  ghost predicate LevelsOrdered(v: Version) {
    forall l, m, f, g :: 0 <= l < m < |v| && f in v[l] && g in v[m] ==> FileNewer(f, g)
  }

  /** What the read path relies on: entries never hop across levels. */
  ghost predicate ValidVersion(v: Version) {
    && |v| == NUM_LEVELS
    && FilesValid(v)
    && LevelsSorted(v)
    && NumbersNewer(v[0])
    && LevelsOrdered(v)
  }

  /** A file's entries lie between its bounds. */
  lemma EntryInBounds(f: File, e: Entry)
    requires ValidFile(f) && e in f.entries
    ensures f.smallest.user <= e.key.user <= f.largest.user
    ensures !Less(e.key, f.smallest) && !Less(f.largest, e.key)
  {
    var i :| 0 <= i < |f.entries| && f.entries[i] == e;
    if 0 < i {
      assert Less(f.entries[0].key, f.entries[i].key);
    }
    if i < |f.entries| - 1 {
      assert Less(f.entries[i].key, f.entries[|f.entries| - 1].key);
    }
  }

  // ----- One table

  /** Index of the first entry at or after `target`. */
  function SeekIndex(es: seq<Entry>, target: InternalKey): (i: nat)
    ensures i <= |es|
    ensures forall j :: 0 <= j < i ==> Less(es[j].key, target)
    ensures i < |es| ==> !Less(es[i].key, target)
  {
    if es == [] || !Less(es[0].key, target) then 0 else 1 + SeekIndex(es[1..], target)
  }

  /** A search of one sorted run: the first entry at or after the lookup key, if it is for the
      same user key. Tables and memtables are both searched this way. */
  function SearchRun(es: seq<Entry>, k: int, s: nat): Option<Entry> {
    var i := SeekIndex(es, LookupKey(k, s));
    if i < |es| && es[i].key.user == k then Some(es[i]) else None
  }

  ghost predicate Answers(es: set<Entry>, k: int, s: nat, r: Option<Entry>) {
    match r
    case Some(e) => IsNewest(es, k, s, e)
    case None => NoneVisible(es, k, s)
  }


  lemma SearchRunAnswers(es: seq<Entry>, k: int, s: nat)
    requires Sorted(es)
    ensures Answers(Members(es), k, s, SearchRun(es, k, s))
  {
    var i := SeekIndex(es, LookupKey(k, s));
    forall j | 0 <= j < |es| && Visible(es[j], k, s)
      ensures i <= j && es[i].key.user == k && es[j].key.sn <= es[i].key.sn
    {
      LookupKeyCuts(es[j], k, s);
      LookupKeyCuts(es[i], k, s);
      if i < j {
        assert Less(es[i].key, es[j].key);
      }
    }
    if i < |es| {
      LookupKeyCuts(es[i], k, s);
    }
  }

  // ----- Files of one level

  /** The binary search between two positions, on any files. */
  function SearchBetween(files: seq<File>, key: InternalKey, left: nat, right: nat): (index: nat)
    requires left <= right <= |files|
    ensures left <= index <= right
    decreases right - left
  {
    if left == right then right
    else
      var mid := (left + right) / 2;
      if Less(files[mid].largest, key) then SearchBetween(files, key, mid + 1, right)
      else SearchBetween(files, key, left, mid)
  }

  /** Where the search for `key` lands in a level, sorted or not. */
  function LandsAt(files: seq<File>, key: InternalKey): nat {
    SearchBetween(files, key, 0, |files|)
  }

  /** Position `i` lies between a file that ends before the key and one that does not. */
  ghost predicate Splits(files: seq<File>, key: InternalKey, i: nat) {
    && i <= |files|
    && (i > 0 ==> Less(files[i - 1].largest, key))
    && (i < |files| ==> !Less(files[i].largest, key))
  }

  lemma {:induction false} LandsBetween(files: seq<File>, key: InternalKey, left: nat, right: nat)
    requires left <= right <= |files|
    requires left > 0 ==> Less(files[left - 1].largest, key)
    requires right < |files| ==> !Less(files[right].largest, key)
    ensures Splits(files, key, SearchBetween(files, key, left, right))
    decreases right - left
  {
    hide Less;
    if left < right {
      var mid := (left + right) / 2;
      if Less(files[mid].largest, key) {
        LandsBetween(files, key, mid + 1, right);
      } else {
        LandsBetween(files, key, left, mid);
      }
    }
  }

  /** In a sorted level the search splits the files into those that end before the key and the rest. */
  lemma LandsInSorted(files: seq<File>, key: InternalKey)
    requires forall f :: f in files ==> ValidFile(f)
    requires DisjointSorted(files)
    ensures var index := LandsAt(files, key);
            && (forall i :: 0 <= i < index ==> Less(files[i].largest, key))
            && (forall i :: index <= i < |files| ==> !Less(files[i].largest, key))
  {
    var index := LandsAt(files, key);
    LandsBetween(files, key, 0, |files|);
    forall i | 0 <= i < index
      ensures Less(files[i].largest, key)
    {
      if i < index - 1 {
        LargestIncreases(files, i, index - 1);
      }
    }
    forall i | index <= i < |files|
      ensures !Less(files[i].largest, key)
    {
      if index < i {
        LargestIncreases(files, index, i);
      }
    }
  }

  /** Binary search for the first file whose largest key is at or after `key`. */
  method FindFile(files: seq<File>, key: InternalKey) returns (index: nat)
    ensures index == LandsAt(files, key) <= |files|
    ensures (forall f :: f in files ==> ValidFile(f)) && DisjointSorted(files) ==>
              && (forall i :: 0 <= i < index ==> Less(files[i].largest, key))
              && (forall i :: index <= i < |files| ==> !Less(files[i].largest, key))
  {
    var left, right := 0, |files|;
    while left < right
      invariant 0 <= left <= right <= |files|
      invariant SearchBetween(files, key, left, right) == LandsAt(files, key)
    {
      var mid := (left + right) / 2;
      if Less(files[mid].largest, key) {
        left := mid + 1;
      } else {
        right := mid;
      }
    }
    index := right;
    if (forall f :: f in files ==> ValidFile(f)) && DisjointSorted(files) {
      LandsInSorted(files, key);
    }
  }

  lemma LargestIncreases(files: seq<File>, i: nat, j: nat)
    requires forall f :: f in files ==> ValidFile(f)
    requires DisjointSorted(files) && i < j < |files|
    ensures Less(files[i].largest, files[j].largest)
  {
    assert Less(files[i].largest, files[j].smallest);
    var g := files[j];
    assert g in files;
    EntryInBounds(g, g.entries[0]);
  }

  /** Does a file's user-key range meet `[begin, end]`? An absent bound is infinite. */
  predicate Overlaps(f: File, begin: Option<int>, end: Option<int>) {
    && (begin.Some? ==> begin.value <= f.largest.user)
    && (end.Some? ==> f.smallest.user <= end.value)
  }

  predicate AfterFile(userKey: Option<int>, f: File) {
    userKey.Some? && userKey.value > f.largest.user
  }

  predicate BeforeFile(userKey: Option<int>, f: File) {
    userKey.Some? && userKey.value < f.smallest.user
  }

  /** Both search strategies decide whether some file meets the range. */
  method SomeFileOverlapsRange(disjoint: bool, files: seq<File>, begin: Option<int>, end: Option<int>)
    returns (b: bool)
    requires forall f :: f in files ==> ValidFile(f)
    requires disjoint ==> DisjointSorted(files)
    ensures b <==> exists f :: f in files && Overlaps(f, begin, end)
  {
    if !disjoint {
      for i := 0 to |files|
        invariant forall j :: 0 <= j < i ==> !Overlaps(files[j], begin, end)
      {
        if !(AfterFile(begin, files[i]) || BeforeFile(end, files[i])) {
          assert files[i] in files && Overlaps(files[i], begin, end);
          return true;
        }
      }
      return false;
    }
    var index := 0;
    if begin.Some? {
      index := FindFile(files, InternalKey(begin.value, MAX_SEQUENCE, Value));
      forall i | 0 <= i < |files|
        ensures i < index ==> files[i].largest.user < begin.value
        ensures index <= i ==> begin.value <= files[i].largest.user
      {
        var f := files[i];
        assert f in files;
        assert f.entries[|f.entries| - 1].key.sn <= MAX_SEQUENCE;
      }
    }
    if index >= |files| {
      return false;
    }
    forall i | index <= i < |files|
      ensures files[index].smallest.user <= files[i].smallest.user
    {
      SmallestIncreases(files, index, i);
    }
    b := !BeforeFile(end, files[index]);
    assert b ==> files[index] in files && Overlaps(files[index], begin, end);
  }

  lemma SmallestIncreases(files: seq<File>, i: nat, j: nat)
    requires forall f :: f in files ==> ValidFile(f)
    requires DisjointSorted(files) && i <= j < |files|
    ensures files[i].smallest.user <= files[j].smallest.user
    ensures files[i].largest.user <= files[j].largest.user
    ensures i < j ==> files[i].largest.user <= files[j].smallest.user
  {
    if i < j {
      assert Less(files[i].largest, files[j].smallest);
      var f, g := files[i], files[j];
      assert f in files && g in files;
      EntryInBounds(f, f.entries[0]);
      EntryInBounds(g, g.entries[0]);
    }
  }

  // ----- Version::Get

  /** Insertion by descending file number. */
  function InsertNewestFirst(files: seq<File>, f: File): (r: seq<File>)
    ensures forall g :: g in r <==> g in files || g == f
    ensures |r| == |files| + 1
  {
    if files == [] || files[0].number < f.number then [f] + files
    else
      var r := InsertNewestFirst(files[1..], f);
      assert files == [files[0]] + files[1..];
      [files[0]] + r
  }

  predicate NewestFirst(files: seq<File>) {
    forall i, j :: 0 <= i < j < |files| ==> files[i].number >= files[j].number
  }

  lemma {:induction false} InsertKeepsNewestFirst(files: seq<File>, f: File)
    requires NewestFirst(files)
    ensures NewestFirst(InsertNewestFirst(files, f))
  {
    if files == [] || files[0].number < f.number {
    } else {
      InsertKeepsNewestFirst(files[1..], f);
      var r := InsertNewestFirst(files[1..], f);
      forall j | 0 <= j < |r|
        ensures files[0].number >= r[j].number
      {
        assert r[j] in r;
        if r[j] in files[1..] {
          var i :| 0 <= i < |files[1..]| && files[1..][i] == r[j];
          assert files[i + 1] == r[j];
        }
      }
    }
  }

  /** `files` answers for the whole level: whatever the level shows of `k`, some file among
      `files` shows an entry at least as new. */
  ghost predicate Covers(files: seq<File>, level: seq<File>, k: int, s: nat) {
    forall e :: e in LevelEntries(level) && Visible(e, k, s) ==>
      exists x :: x in LevelEntries(files) && Visible(x, k, s) && x.key.sn >= e.key.sn
  }

  /** The files among the first `n` whose range holds `k`, newest first. */
  function NewestHolding(files: seq<File>, k: int, n: nat): seq<File>
    requires n <= |files|
  {
    if n == 0 then []
    else
      var r, f := NewestHolding(files, k, n - 1), files[n - 1];
      if f.smallest.user <= k <= f.largest.user then InsertNewestFirst(r, f) else r
  }

  lemma {:induction false} NewestHoldingMembers(files: seq<File>, k: int, n: nat)
    requires n <= |files|
    ensures NewestFirst(NewestHolding(files, k, n))
    ensures forall f :: f in NewestHolding(files, k, n) <==> f in files[..n] && f.smallest.user <= k <= f.largest.user
  {
    if n > 0 {
      NewestHoldingMembers(files, k, n - 1);
      InsertKeepsNewestFirst(NewestHolding(files, k, n - 1), files[n - 1]);
      Seqs.Advance(files, n - 1);
    }
  }

  /** The files that a read looks into at a level, whatever the level holds. */
  function LookedAt(files: seq<File>, level: nat, k: int, s: nat): seq<File> {
    if level == 0 then NewestHolding(files, k, |files|)
    else
      var index := LandsAt(files, LookupKey(k, s));
      if index < |files| && files[index].smallest.user <= k then [files[index]] else []
  }

  lemma LookedAtMembers(files: seq<File>, level: nat, k: int, s: nat)
    ensures forall f :: f in LookedAt(files, level, k, s) ==> f in files
    ensures level == 0 ==> NewestFirst(LookedAt(files, level, k, s))
    ensures level > 0 ==> |LookedAt(files, level, k, s)| <= 1
  {
    NewestHoldingMembers(files, k, |files|);
  }

  /** The files of level 0 whose range holds `k`, newest first. */
  method FilesHolding(files: seq<File>, k: int) returns (r: seq<File>)
    ensures r == NewestHolding(files, k, |files|)
  {
    r := [];
    for i := 0 to |files|
      invariant r == NewestHolding(files, k, i)
    {
      if files[i].smallest.user <= k <= files[i].largest.user {
        r := InsertNewestFirst(r, files[i]);
      }
    }
  }

  /** The files of a level to search for `k`, newest first. */
  method Candidates(v: Version, level: nat, k: int, s: nat) returns (files: seq<File>)
    requires level < |v|
    ensures files == LookedAt(v[level], level, k, s)
    ensures forall f :: f in files ==> f in v[level]
    ensures ValidVersion(v) ==> Covers(files, v[level], k, s)
    ensures level == 0 ==> NewestFirst(files)
    ensures level > 0 ==> |files| <= 1
  {
    hide ValidVersion, Covers, LandsAt;
    LookedAtMembers(v[level], level, k, s);
    if ValidVersion(v) {
      LookedAtCovers(v, level, k, s);
    }
    files := [];
    if level == 0 {
      files := FilesHolding(v[0], k);
    } else {
      var index := FindFile(v[level], LookupKey(k, s));
      if index < |v[level]| && v[level][index].smallest.user <= k {
        files := [v[level][index]];
      }
    }
  }

  /** In a valid version the files looked into show an entry of `k` at least as new as any at their level. */
  lemma LookedAtCovers(v: Version, level: nat, k: int, s: nat)
    requires ValidVersion(v) && level < |v|
    ensures Covers(LookedAt(v[level], level, k, s), v[level], k, s)
  {
    var files := LookedAt(v[level], level, k, s);
    if level > 0 {
      LandsInSorted(v[level], LookupKey(k, s));
    } else {
      NewestHoldingMembers(v[0], k, |v[0]|);
    }
    forall e | e in LevelEntries(v[level]) && Visible(e, k, s)
      ensures exists x :: x in LevelEntries(files) && Visible(x, k, s) && x.key.sn >= e.key.sn
    {
      var f :| f in v[level] && e in f.entries;
      if level == 0 {
        EntryInBounds(f, e);
        assert f in files;
        assert e in LevelEntries(files);
      } else {
        var i :| 0 <= i < |v[level]| && v[level][i] == f;
        var x := FoundFileCovers(v[level], LandsAt(v[level], LookupKey(k, s)), k, s, i, e);
        assert x in LevelEntries(files);
      }
    }
  }

  /** In a sorted level the file the binary search lands on shows the newest visible entry of `k`,
      even when the entries of `k` run over into later files. */
  lemma FoundFileCovers(files: seq<File>, index: nat, k: int, s: nat, i: nat, e: Entry) returns (x: Entry)
    requires forall f :: f in files ==> ValidFile(f)
    requires DisjointSorted(files)
    requires index <= |files| && i < |files|
    requires forall j :: 0 <= j < index ==> Less(files[j].largest, LookupKey(k, s))
    requires forall j :: index <= j < |files| ==> !Less(files[j].largest, LookupKey(k, s))
    requires e in files[i].entries && Visible(e, k, s)
    ensures index < |files| && files[index].smallest.user <= k
    ensures x in files[index].entries && Visible(x, k, s) && x.key.sn >= e.key.sn
  {
    var f := files[i];
    assert f in files;
    EntryInBounds(f, e);
    LookupKeyCuts(e, k, s);
    LookupKeyCuts(f.entries[|f.entries| - 1], k, s);
    assert index <= i;
    if index == i {
      x := e;
    } else {
      var g := files[index];
      assert g in files && Less(g.largest, f.smallest);
      x := g.entries[|g.entries| - 1];
      LookupKeyCuts(x, k, s);
      EntryInBounds(g, x);
    }
  }

  /** The first entry of `k` that one of the files shows, in their order. */
  function FirstHit(files: seq<File>, k: int, s: nat): Option<Entry> {
    if files == [] then None
    else
      var r := SearchRun(files[0].entries, k, s);
      if r.Some? then r else FirstHit(files[1..], k, s)
  }

  /** The hit is the newest visible entry of its file, and the files before show none. */
  lemma {:induction false} FirstHitAt(files: seq<File>, k: int, s: nat) returns (i: nat)
    requires forall f :: f in files ==> ValidFile(f)
    ensures i <= |files| && (i < |files| <==> FirstHit(files, k, s).Some?)
    ensures forall j :: 0 <= j < i ==> NoneVisible(FileEntries(files[j]), k, s)
    ensures i < |files| ==> IsNewest(FileEntries(files[i]), k, s, FirstHit(files, k, s).value)
  {
    i := 0;
    if files != [] {
      assert files[0] in files;
      SearchRunAnswers(files[0].entries, k, s);
      if SearchRun(files[0].entries, k, s).None? {
        assert forall f :: f in files[1..] ==> f in files;
        var r := FirstHitAt(files[1..], k, s);
        i := r + 1;
        assert forall j :: 1 <= j < |files| ==> files[j] == files[1..][j - 1];
      }
    }
  }

  /** Searches files in order and stops at the first that shows an entry of `k`. */
  method SearchFiles(files: seq<File>, k: int, s: nat) returns (found: Option<Entry>)
    ensures found == FirstHit(files, k, s)
  {
    for i := 0 to |files|
      invariant FirstHit(files, k, s) == FirstHit(files[i..], k, s)
    {
      Seqs.Advance(files, i);
      found := SearchRun(files[i].entries, k, s);
      if found.Some? {
        return;
      }
    }
    found := None;
  }

  /** What a read finds from a level on, whatever the levels hold. */
  function ReadFrom(v: Version, level: nat, k: int, s: nat): Option<Entry>
    requires level <= |v|
    decreases |v| - level
  {
    if level == |v| then None
    else
      var r := FirstHit(LookedAt(v[level], level, k, s), k, s);
      if r.Some? then r else ReadFrom(v, level + 1, k, s)
  }

  /** Levels are searched from the newest; in a valid version the first hit is the newest visible entry. */
  method VersionGet(v: Version, k: int, s: nat) returns (r: Option<Entry>)
    ensures r == ReadFrom(v, 0, k, s)
    ensures ValidVersion(v) ==> Answers(VersionEntries(v), k, s, r)
  {
    hide ValidVersion, FirstHit, LookedAt, Answers;
    if ValidVersion(v) {
      ReadAnswers(v, 0, k, s);
    }
    for level := 0 to |v|
      invariant ReadFrom(v, 0, k, s) == ReadFrom(v, level, k, s)
    {
      var files := Candidates(v, level, k, s);
      r := SearchFiles(files, k, s);
      if r.Some? {
        return;
      }
    }
    r := None;
  }

  /** If the levels above show nothing, the read from a level on answers for the whole version. */
  lemma {:induction false} ReadAnswers(v: Version, level: nat, k: int, s: nat)
    requires ValidVersion(v) && level <= |v|
    requires forall l :: 0 <= l < level ==> NoneVisible(LevelEntries(v[l]), k, s)
    ensures Answers(VersionEntries(v), k, s, ReadFrom(v, level, k, s))
    decreases |v| - level
  {
    hide ValidVersion, NoneVisible, LookedAt, FirstHit;
    if level == |v| {
      NoHitInVersion(v, k, s);
    } else {
      LevelAnswers(v, level, k, s);
      if FirstHit(LookedAt(v[level], level, k, s), k, s).None? {
        ReadAnswers(v, level + 1, k, s);
      }
    }
  }

  /** If the levels above show nothing, a hit at a level answers, and no hit means that the level shows nothing. */
  lemma {:induction false} LevelAnswers(v: Version, level: nat, k: int, s: nat)
    requires ValidVersion(v) && level < |v|
    requires forall l :: 0 <= l < level ==> NoneVisible(LevelEntries(v[l]), k, s)
    ensures var r := FirstHit(LookedAt(v[level], level, k, s), k, s);
            if r.Some? then Answers(VersionEntries(v), k, s, r) else NoneVisible(LevelEntries(v[level]), k, s)
  {
    hide FirstHit, LookedAt, Covers, NoneVisible, IsNewest, NewestFirst, ValidFile, Visible;
    var files := LookedAt(v[level], level, k, s);
    LookedAtMembers(v[level], level, k, s);
    LookedAtCovers(v, level, k, s);
    assert forall f :: f in files ==> f in v[level] && ValidFile(f);
    var i := FirstHitAt(files, k, s);
    if i < |files| {
      FirstHitIsNewest(v, level, files, i, k, s, FirstHit(files, k, s).value);
    } else {
      NoHitInLevel(v[level], files, k, s);
    }
  }

  lemma NoHitInVersion(v: Version, k: int, s: nat)
    requires forall l :: 0 <= l < |v| ==> NoneVisible(LevelEntries(v[l]), k, s)
    ensures NoneVisible(VersionEntries(v), k, s)
  {
    forall e | e in VersionEntries(v)
      ensures !Visible(e, k, s)
    {
      var l, f :| 0 <= l < |v| && f in v[l] && e in f.entries;
      assert e in LevelEntries(v[l]);
    }
  }

  lemma NoHitInLevel(level: seq<File>, files: seq<File>, k: int, s: nat)
    requires Covers(files, level, k, s)
    requires forall j :: 0 <= j < |files| ==> NoneVisible(FileEntries(files[j]), k, s)
    ensures NoneVisible(LevelEntries(level), k, s)
  {
    forall x | x in LevelEntries(files)
      ensures !Visible(x, k, s)
    {
      var f :| f in files && x in f.entries;
      assert x in FileEntries(f);
    }
  }

  lemma FirstHitIsNewest(v: Version, level: nat, files: seq<File>, i: nat, k: int, s: nat, e: Entry)
    requires ValidVersion(v) && level < |v| && i < |files|
    requires forall f :: f in files ==> f in v[level]
    requires Covers(files, v[level], k, s)
    requires level == 0 ==> NewestFirst(files)
    requires level > 0 ==> |files| <= 1
    requires forall l :: 0 <= l < level ==> NoneVisible(LevelEntries(v[l]), k, s)
    requires forall j :: 0 <= j < i ==> NoneVisible(FileEntries(files[j]), k, s)
    requires IsNewest(FileEntries(files[i]), k, s, e)
    ensures IsNewest(VersionEntries(v), k, s, e)
  {
    assert files[i] in v[level];
    forall x | x in VersionEntries(v) && Visible(x, k, s)
      ensures x.key.sn <= e.key.sn
    {
      var l, f :| 0 <= l < |v| && f in v[l] && x in f.entries;
      assert x in LevelEntries(v[l]);
      if l > level {
        OlderInDeeperLevel(v, level, files[i], l, f, e, x);
      } else if l == level {
        var y :| y in LevelEntries(files) && Visible(y, k, s) && y.key.sn >= x.key.sn;
        OlderThanFirstHit(v[level], files, i, k, s, e, y);
      }
    }
  }

  lemma OlderInDeeperLevel(v: Version, level: nat, f: File, deeper: nat, g: File, e: Entry, x: Entry)
    requires LevelsOrdered(v) && level < deeper < |v| && f in v[level] && g in v[deeper]
    requires e in f.entries && x in g.entries && e.key.user == x.key.user
    ensures x.key.sn < e.key.sn
  {
    assert FileNewer(f, g);
  }

  lemma OlderThanFirstHit(level: seq<File>, files: seq<File>, i: nat, k: int, s: nat, e: Entry, y: Entry)
    requires i < |files| && forall f :: f in files ==> f in level
    requires (NewestFirst(files) && NumbersNewer(level)) || |files| <= 1
    requires forall j :: 0 <= j < i ==> NoneVisible(FileEntries(files[j]), k, s)
    requires IsNewest(FileEntries(files[i]), k, s, e)
    requires y in LevelEntries(files) && Visible(y, k, s)
    ensures y.key.sn <= e.key.sn
  {
    var f :| f in files && y in f.entries;
    var j :| 0 <= j < |files| && files[j] == f;
    assert y in FileEntries(f);
    if j > i && files[j] != files[i] {
      assert files[i] in level && files[j] in level;
      assert files[i].number > files[j].number;
      assert FileNewer(files[i], files[j]);
    }
  }

  // ----- DBImpl::Get

  ghost predicate AllNewer(a: set<Entry>, b: set<Entry>) {
    forall x, y :: x in a && y in b ==> x.key.sn > y.key.sn
  }

  /** What a search in that order relies on: each layer is sorted and newer than the layers below. */
  ghost predicate Searchable(mem: seq<Entry>, imm: Option<seq<Entry>>, v: Version) {
    && Sorted(mem) && (imm.Some? ==> Sorted(imm.value)) && ValidVersion(v)
    && AllNewer(Members(mem), VersionEntries(v))
    && (imm.Some? ==> AllNewer(Members(mem), Members(imm.value)) && AllNewer(Members(imm.value), VersionEntries(v)))
    && Unique(Live(mem, imm, v))
  }

  /** Memtable, then immutable memtable, then the tables. */
  method DbGet(mem: seq<Entry>, imm: Option<seq<Entry>>, v: Version, k: int, s: nat) returns (r: Option<string>)
    requires Searchable(mem, imm, v)
    ensures r == Lookup(Live(mem, imm, v), k, s)
  {
    SearchRunAnswers(mem, k, s);
    var found := SearchRun(mem, k, s);
    if found.None? && imm.Some? {
      SearchRunAnswers(imm.value, k, s);
      found := SearchRun(imm.value, k, s);
    }
    if found.None? {
      found := VersionGet(v, k, s);
    }
    if found.Some? {
      LookupFound(Live(mem, imm, v), k, s, found.value);
      return ResultOf(found.value);
    }
    LookupMissing(Live(mem, imm, v), k, s);
    return None;
  }

  ghost function Live(mem: seq<Entry>, imm: Option<seq<Entry>>, v: Version): set<Entry> {
    Members(mem) + (if imm.Some? then Members(imm.value) else {}) + VersionEntries(v)
  }
}
