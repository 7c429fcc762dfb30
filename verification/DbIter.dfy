/** The user-facing iterator: over the internal entries of one sorted run it behaves as a cursor on
    the plain map visible at its sequence number, in both directions and across direction changes. */
module DbIter {
  import opened Keys
  import opened Versions

  // ----- The plain map and its cursor

  /** The plain map that a reader at sequence number `s` sees. */
  ghost function View(es: seq<Entry>, s: nat): (m: map<int, string>)
    ensures forall k :: k in m <==> Lookup(Members(es), k, s).Some?
    ensures forall k :: k in m ==> Some(m[k]) == Lookup(Members(es), k, s)
  {
    forall k | Lookup(Members(es), k, s).Some?
      ensures k in Users(es)
    {
      LookupNeedsEntry(es, k, s);
    }
    map k | k in Users(es) && Lookup(Members(es), k, s).Some? :: Lookup(Members(es), k, s).value
  }

  ghost function Users(es: seq<Entry>): set<int> {
    set e | e in es :: e.key.user
  }

  lemma LookupNeedsEntry(es: seq<Entry>, k: int, s: nat)
    ensures Lookup(Members(es), k, s).Some? ==> k in Users(es)
  {
    if Lookup(Members(es), k, s).Some? {
      var e :| IsNewest(Members(es), k, s, e);
      assert e in es;
    }
  }

  /** Absent bounds are infinite. */
  ghost predicate Above(lo: Option<int>, k: int) {
    lo.None? || k > lo.value
  }

  ghost predicate Below(hi: Option<int>, k: int) {
    hi.None? || k < hi.value
  }

  /** `r` is the least key above `lo`, if there is one. */
  ghost predicate IsLeastAbove(m: map<int, string>, lo: Option<int>, r: Option<int>) {
    match r
    case Some(k) => k in m && Above(lo, k) && forall j :: j in m && Above(lo, j) ==> k <= j
    case None => forall j :: j in m ==> !Above(lo, j)
  }

  ghost predicate IsGreatestBelow(m: map<int, string>, hi: Option<int>, r: Option<int>) {
    match r
    case Some(k) => k in m && Below(hi, k) && forall j :: j in m && Below(hi, j) ==> j <= k
    case None => forall j :: j in m ==> !Below(hi, j)
  }

  // ----- Shown entries

  ghost predicate Seen(es: seq<Entry>, s: nat, i: nat)
    requires i < |es|
  {
    es[i].key.sn <= s
  }

  /** Entry `i` is what the iterator yields for its user key: the newest visible one, and a value. */
  ghost predicate Shown(es: seq<Entry>, s: nat, i: nat)
    requires i < |es|
  {
    && Seen(es, s, i) && es[i].key.kind.Value?
    && forall j :: 0 <= j < i && es[j].key.user == es[i].key.user ==> !Seen(es, s, j)
  }

  ghost predicate Run(es: seq<Entry>) {
    Sorted(es) && Unique(Members(es))
  }

  lemma UsersIncrease(es: seq<Entry>, i: nat, j: nat)
    requires Sorted(es) && i <= j < |es|
    ensures es[i].key.user <= es[j].key.user
  {
    if i < j {
      assert Less(es[i].key, es[j].key);
    }
  }

  lemma FirstSeenIsNewest(es: seq<Entry>, s: nat, i: nat)
    requires Run(es) && i < |es| && Seen(es, s, i)
    requires forall j :: 0 <= j < i && es[j].key.user == es[i].key.user ==> !Seen(es, s, j)
    ensures IsNewest(Members(es), es[i].key.user, s, es[i])
  {
    forall x | x in Members(es) && Visible(x, es[i].key.user, s)
      ensures x.key.sn <= es[i].key.sn
    {
      var j :| 0 <= j < |es| && es[j] == x;
      if i < j {
        assert Less(es[i].key, es[j].key);
      }
    }
  }

  /** A shown entry is the value of its key in the plain map, and every key of the map is shown. */
  lemma ShownIsInView(es: seq<Entry>, s: nat, i: nat)
    requires Run(es) && i < |es| && Shown(es, s, i)
    ensures es[i].key.user in View(es, s) && View(es, s)[es[i].key.user] == es[i].value
  {
    FirstSeenIsNewest(es, s, i);
    LookupFound(Members(es), es[i].key.user, s, es[i]);
  }

  lemma ViewIsShown(es: seq<Entry>, s: nat, k: int) returns (i: nat)
    requires Run(es) && k in View(es, s)
    ensures i < |es| && Shown(es, s, i) && es[i].key.user == k
  {
    var e :| IsNewest(Members(es), k, s, e);
    LookupFound(Members(es), k, s, e);
    i :| 0 <= i < |es| && es[i] == e;
    NewestIsFirstSeen(es, s, i);
  }

  lemma NewestIsFirstSeen(es: seq<Entry>, s: nat, i: nat)
    requires Run(es) && i < |es| && IsNewest(Members(es), es[i].key.user, s, es[i])
    ensures forall j :: 0 <= j < i && es[j].key.user == es[i].key.user ==> !Seen(es, s, j)
  {
    forall j | 0 <= j < i && es[j].key.user == es[i].key.user
      ensures !Seen(es, s, j)
    {
      assert es[j] in Members(es) && Less(es[j].key, es[i].key);
    }
  }

  // ----- What each scan knows

  /** Forward scan at `p`, looking for the least key above `lo`; with `skip`, keys up to it are done. */
  ghost predicate Ahead(es: seq<Entry>, s: nat, lo: Option<int>, p: nat, skip: Option<int>) {
    && p <= |es|
    && (forall j :: 0 <= j < p && Seen(es, s, j) ==> if skip.Some? then es[j].key.user <= skip.value
        else !Above(lo, es[j].key.user))
    && (forall i :: p <= i < |es| && Seen(es, s, i) ==> if skip.Some? then skip.value <= es[i].key.user
        else Above(lo, es[i].key.user))
    && (skip.Some? ==>
         && (forall k :: k > skip.value ==> Above(lo, k))
         && (forall i :: 0 <= i < |es| && Shown(es, s, i) && Above(lo, es[i].key.user) ==> es[i].key.user > skip.value))
  }

  /** Backward scan at `p` (-1 is before the first entry), looking for the greatest key below `hi`; with
      `best`, entry `best` is the last visible one passed, and it is a value. */
  ghost predicate Behind(es: seq<Entry>, s: nat, hi: Option<int>, p: int, best: Option<nat>) {
    && -1 <= p < |es|
    && (forall i :: 0 <= i <= p && Seen(es, s, i) ==> Below(hi, es[i].key.user))
    && match best
       case None => forall i :: p < i < |es| && Shown(es, s, i) ==> !Below(hi, es[i].key.user)
       case Some(q) =>
         && p < q < |es| && Seen(es, s, q) && es[q].key.kind.Value? && Below(hi, es[q].key.user)
         && (forall i :: p < i < q ==> !Seen(es, s, i))
         && (forall i :: q < i < |es| && Shown(es, s, i) ==> !Below(hi, es[i].key.user))
  }

  /** Reverse position: `q` is shown, and nothing visible lies between `p` and it. */
  ghost predicate JustBefore(es: seq<Entry>, s: nat, p: int, q: nat) {
    && -1 <= p < q < |es| && Shown(es, s, q)
    && (forall i :: p < i < q ==> !Seen(es, s, i))
    && (0 <= p ==> es[p].key.user < es[q].key.user)
  }

  lemma AheadFound(es: seq<Entry>, s: nat, lo: Option<int>, p: nat, skip: Option<int>)
    requires Run(es) && Ahead(es, s, lo, p, skip) && p < |es| && Seen(es, s, p) && es[p].key.kind.Value?
    requires skip.Some? ==> es[p].key.user > skip.value
    ensures Shown(es, s, p) && IsLeastAbove(View(es, s), lo, Some(es[p].key.user))
  {
    var k := es[p].key.user;
    ShownIsInView(es, s, p);
    hide View, Unique, Members;
    forall j | j in View(es, s) && Above(lo, j)
      ensures k <= j
    {
      var i := ViewIsShown(es, s, j);
      UsersIncrease(es, if i < p then i else p, if i < p then p else i);
    }
  }

  lemma AheadSkips(es: seq<Entry>, s: nat, lo: Option<int>, p: nat, skip: Option<int>)
    requires Run(es) && Ahead(es, s, lo, p, skip) && p < |es|
    requires Seen(es, s, p) && es[p].key.kind.Value? ==> skip.Some? && es[p].key.user <= skip.value
    ensures Ahead(es, s, lo, p + 1, if Seen(es, s, p) && es[p].key.kind.Deletion? then Some(es[p].key.user) else skip)
  {
    if Seen(es, s, p) && es[p].key.kind.Deletion? {
      var u := es[p].key.user;
      forall i | p <= i < |es|
        ensures u <= es[i].key.user
      {
        UsersIncrease(es, p, i);
      }
      forall j | 0 <= j < p
        ensures es[j].key.user <= u
      {
        UsersIncrease(es, j, p);
      }
      forall i | 0 <= i < |es| && Shown(es, s, i) && Above(lo, es[i].key.user)
        ensures es[i].key.user > u
      {
      }
    }
  }

  lemma AheadNone(es: seq<Entry>, s: nat, lo: Option<int>, skip: Option<int>)
    requires Run(es) && Ahead(es, s, lo, |es|, skip)
    ensures IsLeastAbove(View(es, s), lo, None)
  {
    hide View, Unique, Members;
    forall j | j in View(es, s)
      ensures !Above(lo, j)
    {
      var i := ViewIsShown(es, s, j);
    }
  }

  lemma BehindSkips(es: seq<Entry>, s: nat, hi: Option<int>, p: nat, best: Option<nat>)
    requires Run(es) && Behind(es, s, hi, p, best)
    requires Seen(es, s, p) && best.Some? ==> es[best.value].key.user <= es[p].key.user
    ensures Behind(es, s, hi, p - 1, if !Seen(es, s, p) then best else if es[p].key.kind.Value? then Some(p) else None)
  {
    if Seen(es, s, p) && best.Some? {
      UsersIncrease(es, p, best.value);
      forall i | p < i < |es| && Shown(es, s, i)
        ensures !Below(hi, es[i].key.user)
      {
      }
    }
  }

  lemma BehindFound(es: seq<Entry>, s: nat, hi: Option<int>, p: int, q: nat)
    requires Run(es) && Behind(es, s, hi, p, Some(q))
    requires 0 <= p ==> es[p].key.user < es[q].key.user
    ensures JustBefore(es, s, p, q) && IsGreatestBelow(View(es, s), hi, Some(es[q].key.user))
  {
    hide View, Unique, Members;
    forall j | 0 <= j <= p
      ensures es[j].key.user < es[q].key.user
    {
      UsersIncrease(es, j, p);
    }
    ShownIsInView(es, s, q);
    forall j | j in View(es, s) && Below(hi, j)
      ensures j <= es[q].key.user
    {
      var i := ViewIsShown(es, s, j);
      if i < q {
        UsersIncrease(es, i, q);
      }
    }
  }

  lemma BehindNone(es: seq<Entry>, s: nat, hi: Option<int>)
    requires Run(es) && Behind(es, s, hi, -1, None)
    ensures IsGreatestBelow(View(es, s), hi, None)
  {
    hide View, Unique, Members;
    forall j | j in View(es, s)
      ensures !Below(hi, j)
    {
      var i := ViewIsShown(es, s, j);
    }
  }

  // ----- The iterator

  class DBIter {
    /** The internal iterator walks these entries; it is not valid at position `|entries|`. */
    const entries: seq<Entry>
    const sequence: nat
    var pos: nat
    var reverse: bool
    var valid: bool
    var savedKey: Option<int>
    var savedValue: string

    ghost predicate Inv()
      reads this
    {
      && Run(entries) && pos <= |entries|
      && (valid && !reverse ==> pos < |entries| && Shown(entries, sequence, pos))
      && (valid && reverse ==> exists q :: Reverse(q))
    }

    ghost predicate Reverse(q: nat)
      reads this
    {
      && pos <= |entries| && JustBefore(entries, sequence, Place(), q)
      && savedKey == Some(entries[q].key.user) && savedValue == entries[q].value
    }

    /** The internal position as an index, -1 when it ran off the front. */
    ghost function Place(): int
      reads this
    {
      if pos == |entries| then -1 else pos
    }

    function Key(): int
      requires Inv() && valid
      reads this
    {
      if reverse then savedKey.value else entries[pos].key.user
    }

    function Value(): string
      requires Inv() && valid
      reads this
    {
      if reverse then savedValue else entries[pos].value
    }

    /** The abstract cursor: a key of the plain map, or nowhere. */
    ghost function Cursor(): Option<int>
      requires Inv()
      reads this
    {
      if valid then Some(Key()) else None
    }

    /** Wherever the cursor stands, key and value are those of the plain map. */
    lemma CursorInView()
      requires Inv() && valid
      ensures Key() in View(entries, sequence) && View(entries, sequence)[Key()] == Value()
    {
      if reverse {
        var q :| Reverse(q);
        ShownIsInView(entries, sequence, q);
      } else {
        ShownIsInView(entries, sequence, pos);
      }
    }

    constructor (entries: seq<Entry>, sequence: nat)
      requires Run(entries)
      ensures Inv() && !valid && this.entries == entries && this.sequence == sequence
    {
      this.entries, this.sequence := entries, sequence;
      pos, reverse, valid, savedKey, savedValue := |entries|, false, false, None, "";
    }

    method PrevInternal()
      requires pos < |entries|
      modifies this`pos
      ensures pos == if old(pos) == 0 then |entries| else old(pos) - 1
    {
      pos := if pos == 0 then |entries| else pos - 1;
    }

    method FindNextUserEntry(skip: Option<int>, ghost lo: Option<int>)
      requires Run(entries) && !reverse && pos < |entries| && Ahead(entries, sequence, lo, pos, skip)
      modifies this
      ensures Inv() && IsLeastAbove(View(entries, sequence), lo, Cursor())
    {
      hide Ahead, View, Run, IsLeastAbove;
      var skipping := skip;
      while pos < |entries|
        invariant !reverse && pos <= |entries| && Ahead(entries, sequence, lo, pos, skipping)
        decreases |entries| - pos
      {
        var e := entries[pos];
        if e.key.sn <= sequence && e.key.kind.Value? && !(skipping.Some? && e.key.user <= skipping.value) {
          AheadFound(entries, sequence, lo, pos, skipping);
          valid, savedKey := true, None;
          return;
        }
        AheadSkips(entries, sequence, lo, pos, skipping);
        if e.key.sn <= sequence && e.key.kind.Deletion? {
          skipping := Some(e.key.user);
        }
        pos := pos + 1;
      }
      AheadNone(entries, sequence, lo, skipping);
      savedKey, valid := None, false;
    }

    method FindPrevUserEntry(ghost hi: Option<int>)
      requires Run(entries) && reverse && pos <= |entries| && Behind(entries, sequence, hi, Place(), None)
      modifies this
      ensures Inv() && IsGreatestBelow(View(entries, sequence), hi, Cursor())
    {
      hide View, Run, IsGreatestBelow;
      var kind := Deletion;
      ghost var best: Option<nat> := None;
      while pos < |entries|
        invariant reverse && pos <= |entries| && Behind(entries, sequence, hi, Place(), best)
        invariant kind.Value? <==> best.Some?
        invariant best.Some? ==>
                    savedKey == Some(entries[best.value].key.user) && savedValue == entries[best.value].value
        decreases Place()
      {
        var e := entries[pos];
        if e.key.sn <= sequence && kind.Value? && e.key.user < savedKey.value {
          break;
        }
        BehindSkips(entries, sequence, hi, pos, best);
        if e.key.sn <= sequence {
          kind := e.key.kind;
          if kind.Deletion? {
            savedKey, savedValue, best := None, "", None;
          } else {
            savedKey, savedValue, best := Some(e.key.user), e.value, Some(pos);
          }
        }
        PrevInternal();
      }
      if kind.Deletion? {
        BehindNone(entries, sequence, hi);
        valid, savedKey, savedValue, reverse := false, None, "", false;
      } else {
        BehindFound(entries, sequence, hi, Place(), best.value);
        valid := true;
        assert Reverse(best.value);
      }
    }

    method Next()
      requires Inv() && valid
      modifies this
      ensures Inv() && IsLeastAbove(View(entries, sequence), Some(old(Key())), Cursor())
    {
      ghost var k := Key();
      if reverse {
        ghost var q :| Reverse(q);
        reverse := false;
        pos := if pos == |entries| then 0 else pos + 1;
        AfterReverse(q);
      } else {
        savedKey := Some(entries[pos].key.user);
        AfterForward();
      }
      FindNextUserEntry(savedKey, Some(k));
    }

    lemma AfterReverse(q: nat)
      requires Run(entries) && pos < |entries| && savedKey.Some? && JustBefore(entries, sequence, pos - 1, q)
      requires savedKey == Some(entries[q].key.user)
      ensures Ahead(entries, sequence, savedKey, pos, savedKey)
    {
      forall i | q <= i < |entries|
        ensures savedKey.value <= entries[i].key.user
      {
        UsersIncrease(entries, q, i);
      }
      forall j | 0 <= j < pos
        ensures entries[j].key.user <= savedKey.value
      {
        UsersIncrease(entries, j, q);
      }
    }

    lemma AfterForward()
      requires Run(entries) && pos < |entries| && savedKey == Some(entries[pos].key.user)
      ensures Ahead(entries, sequence, savedKey, pos, savedKey)
    {
      forall i | 0 <= i < |entries|
        ensures i <= pos ==> entries[i].key.user <= savedKey.value
        ensures pos <= i ==> savedKey.value <= entries[i].key.user
      {
        UsersIncrease(entries, if i < pos then i else pos, if i < pos then pos else i);
      }
    }

    method Prev()
      requires Inv() && valid
      modifies this
      ensures Inv() && IsGreatestBelow(View(entries, sequence), Some(old(Key())), Cursor())
    {
      hide View, IsGreatestBelow, Unique;
      ghost var k := Key();
      if !reverse {
        savedKey := Some(entries[pos].key.user);
        ghost var start := pos;
        while true
          invariant pos <= start < |entries| && savedKey == Some(k) && entries[start].key.user == k && !reverse
          invariant forall i :: pos <= i < |entries| ==> k <= entries[i].key.user
          decreases pos
        {
          PrevInternal();
          if pos == |entries| {
            assert Behind(entries, sequence, Some(k), -1, None);
            BehindNone(entries, sequence, Some(k));
            valid, savedKey, savedValue := false, None, "";
            return;
          }
          if entries[pos].key.user < savedKey.value {
            break;
          }
        }
        reverse := true;
      }
      FindPrevUserEntry(Some(k));
    }

    method Seek(target: int)
      requires Inv()
      modifies this
      ensures Inv() && IsLeastAbove(View(entries, sequence), Some(target - 1), Cursor())
    {
      reverse, savedValue, savedKey := false, "", None;
      pos := SeekIndex(entries, LookupKey(target, sequence));
      SeekIsAhead(target);
      if pos < |entries| {
        FindNextUserEntry(None, Some(target - 1));
      } else {
        AheadNone(entries, sequence, Some(target - 1), None);
        valid := false;
      }
    }

    lemma SeekIsAhead(target: int)
      requires Run(entries) && pos == SeekIndex(entries, LookupKey(target, sequence))
      ensures Ahead(entries, sequence, Some(target - 1), pos, None)
    {
      forall i | 0 <= i < |entries| && Seen(entries, sequence, i)
        ensures i < pos ==> entries[i].key.user < target
        ensures pos <= i ==> target <= entries[i].key.user
      {
        LookupKeyCuts(entries[i], target, sequence);
        if pos <= i {
          LookupKeyCuts(entries[pos], target, sequence);
          UsersIncrease(entries, pos, i);
        }
      }
    }

    method SeekToFirst()
      requires Inv()
      modifies this
      ensures Inv() && IsLeastAbove(View(entries, sequence), None, Cursor())
    {
      reverse, savedValue, pos := false, "", 0;
      if pos < |entries| {
        FindNextUserEntry(None, None);
      } else {
        AheadNone(entries, sequence, None, None);
        valid := false;
      }
    }

    method SeekToLast()
      requires Inv()
      modifies this
      ensures Inv() && IsGreatestBelow(View(entries, sequence), None, Cursor())
    {
      reverse, savedValue := true, "";
      pos := if entries == [] then 0 else |entries| - 1;
      FindPrevUserEntry(None);
    }
  }
}
