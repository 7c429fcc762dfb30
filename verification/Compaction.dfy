/** The compaction loop: which entries it drops, and when dropping them changes no read. */
module Compaction {
  import opened Keys
  import opened Versions
  import opened Inputs
  import Seqs

  // ----- The two drop rules, declaratively

  /** Rule (A): a newer entry of the same user key is itself old enough for every live snapshot. */
  ghost predicate Hidden(input: seq<Entry>, oldest: nat, e: Entry) {
    exists n :: n in input && n.key.user == e.key.user && e.key.sn < n.key.sn <= oldest
  }

  /** No file below the output level covers `k`. */
  ghost predicate IsBase(v: Version, level: nat, k: int) {
    forall l, f :: level + 2 <= l < |v| && f in v[l] ==> !Contains(f, k)
  }

  /** Rule (B): a deletion marker old enough for every live snapshot, with nothing below to delete. */
  ghost predicate Obsolete(v: Version, level: nat, oldest: nat, e: Entry) {
    e.key.kind.Deletion? && e.key.sn <= oldest && IsBase(v, level, e.key.user)
  }

  ghost predicate Dropped(v: Version, level: nat, input: seq<Entry>, oldest: nat, e: Entry) {
    Hidden(input, oldest, e) || Obsolete(v, level, oldest, e)
  }

  /** The first `n` entries of the merged input without the dropped ones. */
  ghost function Kept(v: Version, level: nat, input: seq<Entry>, oldest: nat, n: nat): seq<Entry>
    requires n <= |input|
  {
    if n == 0 then []
    else
      Kept(v, level, input, oldest, n - 1) +
      (if Dropped(v, level, input, oldest, input[n - 1]) then [] else [input[n - 1]])
  }

  lemma {:induction false} KeptMembers(v: Version, level: nat, input: seq<Entry>, oldest: nat, n: nat)
    requires n <= |input|
    ensures forall e :: e in Kept(v, level, input, oldest, n) <==>
                        e in input[..n] && !Dropped(v, level, input, oldest, e)
  {
    if n > 0 {
      KeptMembers(v, level, input, oldest, n - 1);
      assert input[..n] == input[..n - 1] + [input[n - 1]];
    }
  }

  lemma {:induction false} KeptSorted(v: Version, level: nat, input: seq<Entry>, oldest: nat, n: nat)
    requires n <= |input| && Sorted(input)
    ensures Sorted(Kept(v, level, input, oldest, n))
  {
    if n > 0 {
      KeptSorted(v, level, input, oldest, n - 1);
      KeptMembers(v, level, input, oldest, n - 1);
      var r := Kept(v, level, input, oldest, n - 1);
      forall i | 0 <= i < |r|
        ensures Less(r[i].key, input[n - 1].key)
      {
        assert r[i] in r;
        var j :| 0 <= j < n - 1 && input[j] == r[i];
      }
    }
  }

  /** In a sorted run, rule (A) can be decided from the preceding entry alone. */
  lemma HiddenByPredecessor(input: seq<Entry>, oldest: nat, i: nat)
    requires Sorted(input) && Unique(Members(input)) && i < |input|
    ensures Hidden(input, oldest, input[i]) <==>
            0 < i && input[i - 1].key.user == input[i].key.user && input[i - 1].key.sn <= oldest
  {
    var e := input[i];
    if 0 < i && input[i - 1].key.user == e.key.user && input[i - 1].key.sn <= oldest {
      assert Less(input[i - 1].key, e.key);
      assert input[i - 1] in Members(input) && e in Members(input) && input[i - 1].key.sn != e.key.sn;
      assert input[i - 1] in input;
    }
    if Hidden(input, oldest, e) {
      var n :| n in input && n.key.user == e.key.user && e.key.sn < n.key.sn <= oldest;
      var j :| 0 <= j < |input| && input[j] == n;
      if j > i {
        assert Less(e.key, n.key);
      }
      if j < i - 1 {
        assert Less(input[j].key, input[i - 1].key) && Less(input[i - 1].key, e.key);
      }
    }
  }

  // ----- The compaction object

  function Flatten(outputs: seq<seq<Entry>>): seq<Entry> {
    if outputs == [] then [] else Flatten(outputs[..|outputs| - 1]) + outputs[|outputs| - 1]
  }

  class Compactor {
    const version: Version
    const level: nat
    /** Per level, the first file that may still cover a later key. */
    var levelPtrs: seq<nat>

    ghost predicate Valid()
      reads this
    {
      && level + 1 < |version| == |levelPtrs|
      && forall l :: 0 <= l < |version| ==> levelPtrs[l] <= |version[l]|
    }

    /** Files already passed end before `k`. */
    ghost predicate Passed(k: int)
      requires Valid()
      reads this
    {
      forall l, i :: level + 2 <= l < |version| && 0 <= i < levelPtrs[l] ==> version[l][i].largest.user < k
    }

    constructor (version: Version, level: nat)
      requires level + 1 < |version|
      ensures Valid() && this.version == version && this.level == level && forall k :: Passed(k)
    {
      this.version := version;
      this.level := level;
      levelPtrs := seq(|version|, _ => 0);
    }

    /** Scans one level on from its pointer; stops at the first file that does not end before `k`. */
    method ScanLevel(lvl: nat, k: int) returns (covered: bool)
      requires Valid() && ValidVersion(version) && level + 2 <= lvl < |version| && Passed(k)
      modifies this
      ensures Valid() && Passed(k)
      ensures covered <==> exists f :: f in version[lvl] && Contains(f, k)
    {
      var files := version[lvl];
      LevelFacts(version, lvl);
      var p := levelPtrs[lvl];
      while p < |files| && files[p].largest.user < k
        invariant 0 <= p <= |files|
        invariant forall i :: 0 <= i < p ==> files[i].largest.user < k
      {
        p := p + 1;
      }
      levelPtrs := levelPtrs[lvl := p];
      covered := p < |files| && files[p].smallest.user <= k;
      if p < |files| {
        assert files[p] in files;
        forall i | p <= i < |files|
          ensures files[p].smallest.user <= files[i].smallest.user
        {
          SmallestIncreases(files, p, i);
        }
      }
    }

    /** Called with user keys in increasing order, the forward-only scan decides `IsBase`. */
    method IsBaseLevelForKey(k: int) returns (base: bool)
      requires Valid() && ValidVersion(version) && Passed(k)
      modifies this
      ensures Valid() && Passed(k)
      ensures base <==> IsBase(version, level, k)
    {
      for lvl := level + 2 to |version|
        invariant Valid() && Passed(k)
        invariant forall l, f :: level + 2 <= l < lvl && f in version[l] ==> !Contains(f, k)
      {
        var covered := ScanLevel(lvl, k);
        if covered {
          return false;
        }
      }
      return true;
    }
  
    /** What the loop remembers of the entries before `i`: the last user key and its last sequence. */
    static ghost predicate Remembers(input: seq<Entry>, i: nat, userKey: Option<int>, sn: nat)
      requires i <= |input|
    {
      if i == 0 then userKey.None? else userKey == Some(input[i - 1].key.user) && sn == input[i - 1].key.sn
    }

    static ghost predicate BelowOldest(input: seq<Entry>, oldest: nat) {
      forall i :: 0 <= i < |input| ==> input[i].key.sn <= oldest
    }

    /** Decides entry `i` from what the loop remembers. The largest sequence number stands for "no entry of
        this user key yet", so a smallest snapshot that reaches it makes every entry look hidden. */
    method ShouldDrop(input: seq<Entry>, i: nat, oldest: nat, userKey: Option<int>, sn: nat) returns (drop: bool)
      requires Valid() && ValidVersion(version) && i < |input| && Passed(input[i].key.user)
      requires Sorted(input) && Unique(Members(input))
      requires Remembers(input, i, userKey, sn)
      modifies this
      ensures Valid() && Passed(input[i].key.user)
      ensures oldest < MAX_SEQUENCE ==> (drop <==> Dropped(version, level, input, oldest, input[i]))
      ensures oldest >= MAX_SEQUENCE && BelowOldest(input, oldest) ==> drop
    {
      var e := input[i];
      var lastSequenceForKey := if userKey == Some(e.key.user) then sn else MAX_SEQUENCE;
      HiddenByPredecessor(input, oldest, i);
      drop := lastSequenceForKey <= oldest;
      if !drop && e.key.kind.Deletion? && e.key.sn <= oldest {
        drop := IsBaseLevelForKey(e.key.user);
      }
    }

    /** One pass over the merged input. Where an output file ends is left open; every output is
        non-empty, and together they hold exactly the entries that no drop rule removes. */
    method DoCompactionWork(input: seq<Entry>, oldest: nat) returns (outputs: seq<seq<Entry>>)
      requires Valid() && ValidVersion(version) && (input != [] ==> Passed(input[0].key.user))
      requires Sorted(input) && Unique(Members(input))
      modifies this
      ensures oldest < MAX_SEQUENCE ==> Flatten(outputs) == Kept(version, level, input, oldest, |input|)
      ensures oldest >= MAX_SEQUENCE && BelowOldest(input, oldest) ==> outputs == []
      ensures forall o :: o in outputs ==> o != []
    {
      hide ValidVersion, Dropped, Unique;
      outputs := [];
      var builder: seq<Entry> := [];
      var currentUserKey: Option<int> := None;
      var lastSequenceForKey := 0;
      for i := 0 to |input|
        invariant Valid() && (i < |input| ==> Passed(input[i].key.user))
        invariant oldest < MAX_SEQUENCE ==> Flatten(outputs) + builder == Kept(version, level, input, oldest, i)
        invariant oldest >= MAX_SEQUENCE && BelowOldest(input, oldest) ==> outputs == [] && builder == []
        invariant forall o :: o in outputs ==> o != []
        invariant Remembers(input, i, currentUserKey, lastSequenceForKey)
      {
        var drop := ShouldDrop(input, i, oldest, currentUserKey, lastSequenceForKey);
        currentUserKey, lastSequenceForKey := Some(input[i].key.user), input[i].key.sn;
        outputs, builder := AddToOutput(drop, input[i], outputs, builder);
        assert i + 1 < |input| ==> input[i].key.user <= input[i + 1].key.user by {
          assert i + 1 < |input| ==> Less(input[i].key, input[i + 1].key);
        }
      }
      outputs, builder := FinishOutput(true, outputs, builder);
    }
  }

  /** Adds an entry unless it is dropped; an output file may end before or after it. */
  method AddToOutput(drop: bool, e: Entry, outputs: seq<seq<Entry>>, builder: seq<Entry>)
    returns (outputs': seq<seq<Entry>>, builder': seq<Entry>)
    requires forall o :: o in outputs ==> o != []
    ensures Flatten(outputs') + builder' == Flatten(outputs) + builder + (if drop then [] else [e])
    ensures drop && builder == [] ==> outputs' == outputs && builder' == []
    ensures forall o :: o in outputs' ==> o != []
  {
    var stopBefore: bool := *;
    outputs', builder' := FinishOutput(stopBefore, outputs, builder);
    if !drop {
      Seqs.Assoc(Flatten(outputs'), builder', [e]);
      builder' := builder' + [e];
      var bigEnough: bool := *;
      outputs', builder' := FinishOutput(bigEnough, outputs', builder');
    }
  }

  /** Closes the current output file if asked to and if one is open. */
  method FinishOutput(finish: bool, outputs: seq<seq<Entry>>, builder: seq<Entry>)
    returns (outputs': seq<seq<Entry>>, builder': seq<Entry>)
    requires forall o :: o in outputs ==> o != []
    ensures Flatten(outputs') + builder' == Flatten(outputs) + builder
    ensures forall o :: o in outputs' ==> o != []
    ensures finish ==> builder' == []
    ensures builder == [] ==> outputs' == outputs && builder' == []
  {
    outputs', builder' := outputs, builder;
    if finish && builder != [] {
      FlattenOne(outputs, builder);
      outputs', builder' := outputs + [builder], [];
    }
  }

  lemma {:induction false} FlattenOne(outputs: seq<seq<Entry>>, o: seq<Entry>)
    ensures Flatten(outputs + [o]) == Flatten(outputs) + o
  {
    var r := outputs + [o];
    assert r[..|r| - 1] == outputs;
  }

  // ----- When dropping changes no read

  /** The merged input of a compaction: the selected files' entries in one sorted run. */
  ghost predicate MergedInput(input: seq<Entry>, in0: seq<File>, in1: seq<File>) {
    Sorted(input) && Members(input) == LevelEntries(in0) + LevelEntries(in1)
  }

  /** Everything in the version but the dropped entries. */
  ghost function Remaining(v: Version, level: nat, input: seq<Entry>, oldest: nat): set<Entry> {
    set e | e in VersionEntries(v) && !(e in input && Dropped(v, level, input, oldest, e))
  }

  /** No read at a snapshot from `oldest` on changes. */
  ghost predicate SameReads(a: set<Entry>, b: set<Entry>, oldest: nat) {
    forall k, s: nat :: oldest <= s ==> Lookup(a, k, s) == Lookup(b, k, s)
  }

  /** An entry of the next level in a file that was not selected. */
  ghost predicate LeftBehind(v: Version, level: nat, in1: seq<File>, o: Entry) {
    level + 1 < |v| && exists f :: f in v[level + 1] && f !in in1 && o in f.entries
  }

  /** A deletion marker that rule (B) drops is what hides `o`, the value a read would find next, and
      `o` sits in a file of the output level that was not selected. */
  ghost predicate Resurrects(v: Version, level: nat, in0: seq<File>, in1: seq<File>, oldest: nat, d: Entry, o: Entry) {
    && d in LevelEntries(in0) + LevelEntries(in1) && Obsolete(v, level, oldest, d)
    && IsNewest(VersionEntries(v), d.key.user, oldest, d)
    && LeftBehind(v, level, in1, o) && o.key.kind.Value? && o.key.user == d.key.user && o.key.sn < d.key.sn
    && forall x :: x in VersionEntries(v) && x.key.user == o.key.user && o.key.sn < x.key.sn < d.key.sn ==>
         x in LevelEntries(in0) + LevelEntries(in1)
  }

  ghost predicate NothingResurrects(v: Version, level: nat, in0: seq<File>, in1: seq<File>, oldest: nat) {
    forall d, o :: !Resurrects(v, level, in0, in1, oldest, d, o)
  }

  /** Where an entry older than a selected one of its user key can be: among the selected entries,
      in a file of the output level left behind, or under a file below that covers the key. */
  lemma OlderThanSelected(v: Version, level: nat, in0: seq<File>, in1: seq<File>, d: Entry, o: Entry)
    requires ValidVersion(v) && Picked(v, level, in0, in1)
    requires d in LevelEntries(in0) + LevelEntries(in1)
    requires o in VersionEntries(v) && o.key.user == d.key.user && o.key.sn < d.key.sn
    requires IsBase(v, level, d.key.user)
    ensures o in LevelEntries(in0) + LevelEntries(in1) || LeftBehind(v, level, in1, o)
  {
    var l, f :| 0 <= l < |v| && f in v[l] && o in f.entries;
    var m, g := HomeOf(v, level, in0, in1, d);
    assert l < m ==> FileNewer(f, g);
    assert l == m == level && f !in in0 ==> FileNewer(f, g);
    if l >= level + 2 {
      assert f in v[l] && !Contains(f, d.key.user);
      EntryInBounds(f, o);
    } else if f in in0 {
      assert o in LevelEntries(in0);
    } else if f in in1 {
      assert o in LevelEntries(in1);
    }
  }

  /** The files selected lie in their levels, and `in0` is closed. */
  ghost predicate Picked(v: Version, level: nat, in0: seq<File>, in1: seq<File>) {
    && level + 1 < |v|
    && ClosedInputs(v[level], in0)
    && forall f :: f in in1 ==> f in v[level + 1]
  }

  lemma HomeOf(v: Version, level: nat, in0: seq<File>, in1: seq<File>, d: Entry) returns (m: nat, g: File)
    requires Picked(v, level, in0, in1) && d in LevelEntries(in0) + LevelEntries(in1)
    ensures (m == level && g in in0) || (m == level + 1 && g in in1)
    ensures g in v[m] && d in g.entries
  {
    if d in LevelEntries(in0) {
      g :| g in in0 && d in g.entries;
      m := level;
    } else {
      g :| g in in1 && d in g.entries;
      m := level + 1;
    }
  }

  lemma SelectionIsPicked(v: Version, level: nat, in0: seq<File>, in1: seq<File>)
    requires Selection(v, level, in0, in1)
    ensures Picked(v, level, in0, in1)
  {
    var lo, hi :| HullIs(in0, lo, hi) && in1 == Overlapping(v[level + 1], Some(lo), Some(hi));
    OverlappingMembers(v[level + 1], Some(lo), Some(hi));
  }

  /** Compaction preserves every read at a live snapshot if and only if no dropped deletion marker
      uncovers a value in an unselected file of the output level. */
  lemma CompactionPreservesReads(v: Version, level: nat, in0: seq<File>, in1: seq<File>, input: seq<Entry>, oldest: nat)
    requires ValidVersion(v) && Unique(VersionEntries(v)) && Picked(v, level, in0, in1) && MergedInput(input, in0, in1)
    ensures SameReads(Remaining(v, level, input, oldest), VersionEntries(v), oldest) <==>
            NothingResurrects(v, level, in0, in1, oldest)
  {
    var kept, all := Remaining(v, level, input, oldest), VersionEntries(v);
    if NothingResurrects(v, level, in0, in1, oldest) {
      forall k, s: nat | oldest <= s
        ensures Lookup(kept, k, s) == Lookup(all, k, s)
      {
        ReadPreserved(v, level, in0, in1, input, oldest, k, s);
      }
    } else {
      var d, o :| Resurrects(v, level, in0, in1, oldest, d, o);
      ReadChanged(v, level, in0, in1, input, oldest, d, o);
    }
  }

  lemma ReadPreserved(v: Version, level: nat, in0: seq<File>, in1: seq<File>, input: seq<Entry>, oldest: nat, k: int,
                      s: nat)
    requires ValidVersion(v) && Unique(VersionEntries(v)) && Picked(v, level, in0, in1) && MergedInput(input, in0, in1)
    requires NothingResurrects(v, level, in0, in1, oldest) && oldest <= s
    ensures Lookup(Remaining(v, level, input, oldest), k, s) == Lookup(VersionEntries(v), k, s)
  {
    var kept, all := Remaining(v, level, input, oldest), VersionEntries(v);
    if NoneVisible(all, k, s) {
      LookupMissing(all, k, s);
      LookupMissing(kept, k, s);
    } else {
      var d := NewestExists(all, k, s);
      LookupFound(all, k, s, d);
      if d in kept {
        assert IsNewest(kept, k, s, d);
        LookupFound(kept, k, s, d);
      } else {
        DroppedNewest(v, level, in0, in1, input, oldest, k, s, d);
        if NoneVisible(kept, k, s) {
          LookupMissing(kept, k, s);
        } else {
          var o := NewestExists(kept, k, s);
          LookupFound(kept, k, s, o);
          UncoveredIsNoValue(v, level, in0, in1, input, oldest, s, d, o);
        }
      }
    }
  }

  /** If the newest visible entry is dropped, it is by rule (B). */
  lemma DroppedNewest(v: Version, level: nat, in0: seq<File>, in1: seq<File>, input: seq<Entry>, oldest: nat, k: int,
                      s: nat, d: Entry)
    requires Picked(v, level, in0, in1) && MergedInput(input, in0, in1) && oldest <= s
    requires IsNewest(VersionEntries(v), k, s, d) && d !in Remaining(v, level, input, oldest)
    ensures d in LevelEntries(in0) + LevelEntries(in1) && Obsolete(v, level, oldest, d)
  {
    assert d in Members(input);
    forall n | n in input
      ensures n in VersionEntries(v)
    {
      assert n in Members(input);
      var m, g := HomeOf(v, level, in0, in1, n);
    }
  }

  lemma UncoveredIsNoValue(v: Version, level: nat, in0: seq<File>, in1: seq<File>, input: seq<Entry>, oldest: nat,
                           s: nat, d: Entry, o: Entry)
    requires ValidVersion(v) && Picked(v, level, in0, in1) && MergedInput(input, in0, in1)
    requires NothingResurrects(v, level, in0, in1, oldest) && oldest <= s
    requires IsNewest(VersionEntries(v), d.key.user, s, d) && Unique(VersionEntries(v))
    requires d in LevelEntries(in0) + LevelEntries(in1) && Obsolete(v, level, oldest, d)
    requires d !in Remaining(v, level, input, oldest)
    requires IsNewest(Remaining(v, level, input, oldest), d.key.user, s, o)
    ensures o.key.kind.Deletion?
  {
    var selected := LevelEntries(in0) + LevelEntries(in1);
    assert o.key.sn < d.key.sn;
    OlderThanSelected(v, level, in0, in1, d, o);
    OlderSelectedHidden(input, oldest, d);
    assert o !in Members(input);
    forall x | x in VersionEntries(v) && x !in selected
      ensures x in Remaining(v, level, input, oldest)
    {
      assert x !in Members(input);
    }
    assert !Resurrects(v, level, in0, in1, oldest, d, o);
  }

  lemma OlderSelectedHidden(input: seq<Entry>, oldest: nat, d: Entry)
    requires d in Members(input) && d.key.sn <= oldest
    ensures forall x :: x in input && x.key.user == d.key.user && x.key.sn < d.key.sn ==> Hidden(input, oldest, x)
  {
  }

  lemma ReadChanged(v: Version, level: nat, in0: seq<File>, in1: seq<File>, input: seq<Entry>, oldest: nat, d: Entry,
                    o: Entry)
    requires Unique(VersionEntries(v)) && Picked(v, level, in0, in1) && MergedInput(input, in0, in1)
    requires ValidVersion(v) && Resurrects(v, level, in0, in1, oldest, d, o)
    ensures Lookup(VersionEntries(v), d.key.user, oldest) == None
    ensures Lookup(Remaining(v, level, input, oldest), d.key.user, oldest) == Some(o.value)
  {
    var kept, all, k := Remaining(v, level, input, oldest), VersionEntries(v), d.key.user;
    LookupFound(all, k, oldest, d);
    assert d in Members(input);
    LeftBehindSurvives(v, level, in0, in1, input, oldest, o);
    OlderSelectedHidden(input, oldest, d);
    forall x | x in all && x.key.user == k && o.key.sn < x.key.sn < d.key.sn
      ensures x !in kept
    {
      assert x in Members(input);
    }
    assert d !in kept;
    assert IsNewest(kept, k, oldest, o);
    LookupFound(kept, k, oldest, o);
  }

  /** An entry of an unselected file of the output level is in no selected file. */
  lemma LeftBehindSurvives(v: Version, level: nat, in0: seq<File>, in1: seq<File>, input: seq<Entry>, oldest: nat,
                           o: Entry)
    requires ValidVersion(v) && Picked(v, level, in0, in1) && MergedInput(input, in0, in1)
    requires LeftBehind(v, level, in1, o)
    ensures o in Remaining(v, level, input, oldest)
  {
    var f :| f in v[level + 1] && f !in in1 && o in f.entries;
    assert o in VersionEntries(v);
    forall g | g in in0
      ensures FileNewer(g, f)
    {
    }
    LevelFacts(v, level + 1);
    forall g | g in in1 && o in g.entries
      ensures f == g
    {
      OneFilePerEntry(v[level + 1], f, g, o);
    }
    assert o !in Members(input);
  }

  lemma OneFilePerEntry(files: seq<File>, f: File, g: File, e: Entry)
    requires AllValid(files) && DisjointSorted(files) && f in files && g in files && e in f.entries && e in g.entries
    ensures f == g
  {
    var i :| 0 <= i < |files| && files[i] == f;
    var j :| 0 <= j < |files| && files[j] == g;
    EntryInBounds(f, e);
    EntryInBounds(g, e);
  }

  // ----- The closure that rules resurrection out, and a version that lacks it

  /** No unselected file of the output level holds an older entry for a user key that a selected file holds. */
  ghost predicate NextLevelClosed(v: Version, level: nat, in0: seq<File>, in1: seq<File>) {
    forall d, o :: d in LevelEntries(in0) + LevelEntries(in1) ==>
                   LeftBehind(v, level, in1, o) && o.key.user == d.key.user ==> o.key.sn > d.key.sn
  }

  lemma ClosedNothingResurrects(v: Version, level: nat, in0: seq<File>, in1: seq<File>, oldest: nat)
    requires NextLevelClosed(v, level, in0, in1)
    ensures NothingResurrects(v, level, in0, in1, oldest)
  {
  }
}
