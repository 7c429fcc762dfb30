/** One shard of the block cache: reference counts, the two lists, the charge and the deleters. */
module LruCache {
  import opened Keys
  import opened HandleTable
  import Seqs

  /** An entry on the heap; `refs` counts client handles and the cache's own reference. */
  datatype Handle = Handle(key: Key, charge: nat, inCache: bool, refs: nat)

  /** The entries that are allocated, the two lists (oldest first), and the entries handed to their deleter. */
  datatype Core = Core(entries: map<nat, Handle>, lru: seq<nat>, inUse: seq<nat>, deleted: seq<nat>)

  // ----- Lists

  ghost predicate NoDup(s: seq<nat>) {
    forall i, j :: 0 <= i < j < |s| ==> s[i] != s[j]
  }

  function Without(s: seq<nat>, id: nat): seq<nat> {
    if s == [] then [] else if s[0] == id then s[1..] else [s[0]] + Without(s[1..], id)
  }

  lemma {:induction false} WithoutMembers(s: seq<nat>, id: nat)
    requires NoDup(s)
    ensures NoDup(Without(s, id)) && forall x :: x in Without(s, id) <==> x in s && x != id
  {
    if s != [] {
      assert s == [s[0]] + s[1..];
      WithoutMembers(s[1..], id);
      assert s[0] !in s[1..];
      var r := Without(s, id);
      forall i, j | 0 <= i < j < |r|
        ensures r[i] != r[j]
      {
        if s[0] != id {
          assert r == [s[0]] + Without(s[1..], id);
          assert r[j] in Without(s[1..], id);
        }
      }
    }
  }

  lemma {:induction false} WithoutAppend(s: seq<nat>, id: nat, x: nat)
    requires id in s
    ensures Without(s + [x], id) == Without(s, id) + [x]
  {
    if s[0] == id {
      assert (s + [x])[1..] == s[1..] + [x];
    } else {
      assert s == [s[0]] + s[1..];
      WithoutAppend(s[1..], id, x);
      assert (s + [x])[1..] == s[1..] + [x];
    }
  }

  lemma {:induction false} WithoutAbsent(s: seq<nat>, id: nat)
    requires id !in s
    ensures Without(s, id) == s
  {
    if s != [] {
      WithoutAbsent(s[1..], id);
    }
  }

  /** `r` is `s` without its element `id`; the others keep their order. */
  ghost predicate TakenOut(s: seq<nat>, id: nat, r: seq<nat>) {
    if id in s then exists i :: 0 <= i < |s| && s[i] == id && r == s[..i] + s[i + 1..] else r == s
  }

  lemma {:induction false} WithoutTakesOut(s: seq<nat>, id: nat)
    ensures TakenOut(s, id, Without(s, id))
  {
    if id !in s {
      WithoutAbsent(s, id);
    } else {
      var i := FirstAt(s, id);
      assert s[i] == id;
    }
  }

  lemma {:induction false} FirstAt(s: seq<nat>, id: nat) returns (i: nat)
    requires id in s
    ensures i < |s| && s[i] == id && Without(s, id) == s[..i] + s[i + 1..]
  {
    if s[0] == id {
      i := 0;
    } else {
      Seqs.Advance(s, 0);
      Seqs.WholeSlice(s);
      var j := FirstAt(s[1..], id);
      i := j + 1;
      Shifted(s, j);
    }
  }

  lemma Shifted(s: seq<nat>, j: nat)
    requires j + 1 < |s|
    ensures [s[0]] + (s[1..][..j] + s[1..][j + 1..]) == s[..j + 1] + s[j + 2..]
  {
  }

  // ----- Charges

  ghost function Sum(entries: map<nat, Handle>, ids: seq<nat>): nat {
    if ids == [] then 0 else (if ids[0] in entries then entries[ids[0]].charge else 0) + Sum(entries, ids[1..])
  }

  lemma {:induction false} SumAppend(entries: map<nat, Handle>, ids: seq<nat>, id: nat)
    requires id in entries
    ensures Sum(entries, ids + [id]) == Sum(entries, ids) + entries[id].charge
  {
    if ids != [] {
      SumAppend(entries, ids[1..], id);
      assert (ids + [id])[1..] == ids[1..] + [id];
    }
  }

  lemma {:induction false} SumWithout(entries: map<nat, Handle>, ids: seq<nat>, id: nat)
    requires id in ids && id in entries
    ensures Sum(entries, ids) == Sum(entries, Without(ids, id)) + entries[id].charge
  {
    if ids[0] != id {
      assert ids == [ids[0]] + ids[1..];
      SumWithout(entries, ids[1..], id);
      var rest := [ids[0]] + Without(ids[1..], id);
      assert rest[1..] == Without(ids[1..], id);
    }
  }

  /** Only the charges of the listed entries matter. */
  lemma {:induction false} SumSame(a: map<nat, Handle>, b: map<nat, Handle>, ids: seq<nat>)
    requires forall id :: id in ids ==> id in a && id in b && a[id].charge == b[id].charge
    ensures Sum(a, ids) == Sum(b, ids)
  {
    if ids != [] {
      SumSame(a, b, ids[1..]);
    }
  }

  // ----- Reference counting

  function RefCore(c: Core, id: nat): Core
    requires id in c.entries
  {
    var e := c.entries[id];
    var moved := if e.refs == 1 && e.inCache then c.(lru := Without(c.lru, id), inUse := c.inUse + [id]) else c;
    moved.(entries := c.entries[id := e.(refs := e.refs + 1)])
  }

  function UnrefCore(c: Core, id: nat): Core
    requires id in c.entries && c.entries[id].refs > 0
  {
    var e := c.entries[id].(refs := c.entries[id].refs - 1);
    if e.refs == 0 then c.(entries := c.entries - {id}, deleted := c.deleted + [id])
    else if e.inCache && e.refs == 1
        then c.(entries := c.entries[id := e], inUse := Without(c.inUse, id), lru := c.lru + [id])
    else c.(entries := c.entries[id := e])
  }

  /** The entry leaves its list and loses the cache's reference. */
  function EraseCore(c: Core, id: nat): Core
    requires id in c.entries && c.entries[id].refs > 0
  {
    var e := c.entries[id];
    UnrefCore(c.(entries := c.entries[id := e.(inCache := false)], lru := Without(c.lru, id),
        inUse := Without(c.inUse, id)), id)
  }

  function AddCore(c: Core, id: nat, e: Handle): Core {
    c.(entries := c.entries[id := e], inUse := c.inUse + [id])
  }

  /** A reference is taken: an entry that nobody held leaves the list of unreferenced ones. */
  ghost predicate Holds(c: Core, c': Core, id: nat)
    requires id in c.entries
  {
    var e := c.entries[id];
    && c'.entries == c.entries[id := e.(refs := e.refs + 1)] && c'.deleted == c.deleted
    && (if e.refs == 1 && e.inCache then TakenOut(c.lru, id, c'.lru) && c'.inUse == c.inUse + [id]
        else c'.lru == c.lru && c'.inUse == c.inUse)
  }

  /** A reference is given back: on the last one the deleter runs; a cached entry that nobody holds any more becomes
      the newest of the unreferenced ones. */
  ghost predicate LetsGo(c: Core, c': Core, id: nat)
    requires id in c.entries && c.entries[id].refs > 0
  {
    var e := c.entries[id];
    if e.refs == 1 then c' == c.(entries := c.entries - {id}, deleted := c.deleted + [id])
    else
      && c'.entries == c.entries[id := e.(refs := e.refs - 1)] && c'.deleted == c.deleted
      && (if e.refs == 2 && e.inCache then TakenOut(c.inUse, id, c'.inUse) && c'.lru == c.lru + [id]
          else c'.lru == c.lru && c'.inUse == c.inUse)
  }

  /** An entry leaves the cache: it is on no list, and its deleter runs if nobody holds it. */
  ghost predicate Leaves(c: Core, c': Core, id: nat)
    requires id in c.entries && c.entries[id].refs > 0
  {
    var e := c.entries[id];
    && TakenOut(c.lru, id, c'.lru) && TakenOut(c.inUse, id, c'.inUse)
    && (if e.refs == 1 then c'.entries == c.entries - {id} && c'.deleted == c.deleted + [id]
        else c'.entries == c.entries[id := e.(inCache := false, refs := e.refs - 1)] && c'.deleted == c.deleted)
  }

  /** A new entry is held by the cache and by its client, and takes the place of any entry for its key. */
  ghost predicate Caches(c: Core, usage: int, table: map<Key, nat>, c': Core, usage': int, id: nat, e: Handle) {
    var c1 := Core(c.entries[id := e], c.lru, c.inUse + [id], c.deleted);
    if e.key !in table then c' == c1 && usage' == usage + e.charge
    else
      var gone := table[e.key];
      && gone in c.entries && gone != id && c1.entries[gone].refs > 0
      && Leaves(c1, c', gone) && usage' == usage + e.charge - c.entries[gone].charge
  }

  lemma CachedStays(c: Core, usage: int, table: map<Key, nat>, c': Core, usage': int, id: nat, e: Handle)
    requires Caches(c, usage, table, c', usage', id, e)
    ensures id in c'.entries && c'.entries[id] == e
  {
  }

  lemma RefHolds(c: Core, id: nat)
    requires id in c.entries
    ensures Holds(c, RefCore(c, id), id)
  {
    WithoutTakesOut(c.lru, id);
  }

  lemma UnrefLetsGo(c: Core, id: nat)
    requires id in c.entries && c.entries[id].refs > 0
    ensures LetsGo(c, UnrefCore(c, id), id)
  {
    WithoutTakesOut(c.inUse, id);
  }

  lemma EraseLeaves(c: Core, id: nat)
    requires id in c.entries && c.entries[id].refs > 0
    ensures Leaves(c, EraseCore(c, id), id)
  {
    WithoutTakesOut(c.lru, id);
    WithoutTakesOut(c.inUse, id);
    hide Without, TakenOut;
  }

  // ----- What every operation keeps

  /** Each cached entry is on exactly one list, by its reference count. */
  ghost predicate Listed(c: Core) {
    && NoDup(c.lru) && NoDup(c.inUse)
    && (forall id :: id in c.lru <==> id in c.entries && c.entries[id].inCache && c.entries[id].refs == 1)
    && (forall id :: id in c.inUse <==> id in c.entries && c.entries[id].inCache && c.entries[id].refs >= 2)
  }

  /** References are the client handles plus the cache's own. */
  ghost predicate Counted(c: Core, handles: multiset<nat>) {
    && (forall id :: id in c.entries ==>
          c.entries[id].refs == handles[id] + (if c.entries[id].inCache then 1 else 0) && c.entries[id].refs > 0)
    && (forall id :: id in handles ==> id in c.entries)
  }

  /** The hash table names exactly the cached entries. */
  ghost predicate Tabled(c: Core, table: map<Key, nat>) {
    && (forall id :: id in c.entries && c.entries[id].inCache ==>
          c.entries[id].key in table && table[c.entries[id].key] == id)
    && (forall k :: k in table ==> table[k] in c.entries && c.entries[table[k]].inCache && c.entries[table[k]].key == k)
  }

  /** Every entry ever made is either allocated or was handed to its deleter, once. */
  ghost predicate Once(c: Core, nextId: nat) {
    && NoDup(c.deleted)
    && (forall id :: id in c.deleted ==> id !in c.entries)
    && (forall id: nat :: id < nextId <==> id in c.entries || id in c.deleted)
  }

  ghost predicate Sound(c: Core, table: map<Key, nat>, usage: nat, handles: multiset<nat>, nextId: nat) {
    && Listed(c) && Counted(c, handles) && Tabled(c, table) && Once(c, nextId)
    && usage == Sum(c.entries, c.lru) + Sum(c.entries, c.inUse)
  }

  lemma RefKeeps(c: Core, table: map<Key, nat>, usage: nat, handles: multiset<nat>, nextId: nat, id: nat)
    requires Sound(c, table, usage, handles, nextId) && id in c.entries && c.entries[id].inCache
    ensures Sound(RefCore(c, id), table, usage, handles + multiset{id}, nextId)
  {
    hide Listed, Counted, Tabled, Once, Sum;
    RefOthers(c, table, handles, nextId, id);
    RefListed(c, id);
    RefSum(c, id);
  }

  lemma RefListed(c: Core, id: nat)
    requires Listed(c) && id in c.entries && c.entries[id].inCache && c.entries[id].refs > 0
    ensures Listed(RefCore(c, id))
  {
    WithoutMembers(c.lru, id);
    hide Without;
  }

  lemma RefOthers(c: Core, table: map<Key, nat>, handles: multiset<nat>, nextId: nat, id: nat)
    requires Counted(c, handles) && Tabled(c, table) && Once(c, nextId) && id in c.entries && c.entries[id].inCache
    ensures Counted(RefCore(c, id), handles + multiset{id}) && Tabled(RefCore(c, id), table)
    ensures Once(RefCore(c, id), nextId)
    ensures c.entries[id].refs > 0
  {
    hide Without, NoDup;
  }

  lemma RefSum(c: Core, id: nat)
    requires Listed(c) && id in c.entries && c.entries[id].inCache && c.entries[id].refs > 0
    ensures var c' := RefCore(c, id);
            Sum(c'.entries, c'.lru) + Sum(c'.entries, c'.inUse) == Sum(c.entries, c.lru) + Sum(c.entries, c.inUse)
  {
    var c' := RefCore(c, id);
    WithoutMembers(c.lru, id);
    hide Without, Sum;
    if c.entries[id].refs == 1 {
      SumWithout(c.entries, c.lru, id);
      SumAppend(c.entries, c.inUse, id);
    }
    SumSame(c.entries, c'.entries, c'.lru);
    SumSame(c.entries, c'.entries, c'.inUse);
  }

  lemma UnrefKeeps(c: Core, table: map<Key, nat>, usage: nat, handles: multiset<nat>, nextId: nat, id: nat)
    requires Sound(c, table, usage, handles, nextId) && id in handles
    ensures id in c.entries && c.entries[id].refs > 0
    ensures Sound(UnrefCore(c, id), table, usage, handles - multiset{id}, nextId)
  {
    hide Listed, Counted, Tabled, Once, Sum;
    HandleIsRef(c, handles, id);
    UnrefListed(c, id);
    UnrefCounted(c, handles, id);
    UnrefOthers(c, table, handles, nextId, id);
    UnrefSum(c, id);
  }

  lemma HandleIsRef(c: Core, handles: multiset<nat>, id: nat)
    requires Counted(c, handles) && id in handles
    ensures id in c.entries && c.entries[id].refs > 0 && (c.entries[id].inCache ==> c.entries[id].refs >= 2)
  {
  }

  lemma UnrefListed(c: Core, id: nat)
    requires Listed(c) && id in c.entries && c.entries[id].refs > 0
    requires c.entries[id].inCache ==> c.entries[id].refs >= 2
    ensures Listed(UnrefCore(c, id))
  {
    WithoutMembers(c.inUse, id);
    hide Without;
  }

  lemma UnrefCounted(c: Core, handles: multiset<nat>, id: nat)
    requires Counted(c, handles) && id in handles
    ensures id in c.entries && c.entries[id].refs > 0 && Counted(UnrefCore(c, id), handles - multiset{id})
  {
    hide Without;
  }

  lemma UnrefOthers(c: Core, table: map<Key, nat>, handles: multiset<nat>, nextId: nat, id: nat)
    requires Tabled(c, table) && Once(c, nextId) && id in c.entries && c.entries[id].refs > 0
    requires c.entries[id].inCache ==> c.entries[id].refs >= 2
    ensures Tabled(UnrefCore(c, id), table) && Once(UnrefCore(c, id), nextId)
  {
    UnrefTabled(c, table, id);
    UnrefOnce(c, nextId, id);
  }

  lemma UnrefTabled(c: Core, table: map<Key, nat>, id: nat)
    requires Tabled(c, table) && id in c.entries && c.entries[id].refs > 0
    requires c.entries[id].inCache ==> c.entries[id].refs >= 2
    ensures Tabled(UnrefCore(c, id), table)
  {
    hide Without;
  }

  lemma UnrefOnce(c: Core, nextId: nat, id: nat)
    requires Once(c, nextId) && id in c.entries && c.entries[id].refs > 0
    ensures Once(UnrefCore(c, id), nextId)
  {
    hide Without;
  }

  lemma UnrefSum(c: Core, id: nat)
    requires Listed(c) && id in c.entries && c.entries[id].refs > 0
    requires c.entries[id].inCache ==> c.entries[id].refs >= 2
    ensures var c' := UnrefCore(c, id);
            Sum(c'.entries, c'.lru) + Sum(c'.entries, c'.inUse) == Sum(c.entries, c.lru) + Sum(c.entries, c.inUse)
  {
    var c' := UnrefCore(c, id);
    WithoutMembers(c.inUse, id);
    hide Without, Sum;
    if c.entries[id].inCache && c.entries[id].refs == 2 {
      SumWithout(c.entries, c.inUse, id);
      SumAppend(c.entries, c.lru, id);
    }
    SumSame(c.entries, c'.entries, c'.lru);
    SumSame(c.entries, c'.entries, c'.inUse);
  }

  lemma EraseKeeps(c: Core, table: map<Key, nat>, usage: nat, handles: multiset<nat>, nextId: nat, k: Key)
    requires Sound(c, table, usage, handles, nextId) && k in table
    ensures table[k] in c.entries && c.entries[table[k]].refs > 0 && c.entries[table[k]].charge <= usage
    ensures Sound(EraseCore(c, table[k]), table - {k}, usage - c.entries[table[k]].charge, handles, nextId)
  {
    hide Listed, Counted, Tabled, Once, Sum;
    CachedIsRef(c, table, handles, k);
    EraseListed(c, table[k]);
    EraseCounted(c, handles, table[k]);
    EraseTabled(c, table, k);
    EraseOnce(c, nextId, table[k]);
    EraseSum(c, table[k]);
  }

  lemma CachedIsRef(c: Core, table: map<Key, nat>, handles: multiset<nat>, k: Key)
    requires Tabled(c, table) && Counted(c, handles) && k in table
    ensures var id := table[k];
            id in c.entries && c.entries[id].refs > 0 && c.entries[id].inCache && c.entries[id].key == k
  {
  }

  lemma EraseListed(c: Core, id: nat)
    requires Listed(c) && id in c.entries && c.entries[id].refs > 0 && c.entries[id].inCache
    ensures Listed(EraseCore(c, id))
  {
    WithoutMembers(c.lru, id);
    WithoutMembers(c.inUse, id);
    hide Without;
  }

  lemma EraseCounted(c: Core, handles: multiset<nat>, id: nat)
    requires Counted(c, handles) && id in c.entries && c.entries[id].refs > 0 && c.entries[id].inCache
    ensures Counted(EraseCore(c, id), handles)
  {
    hide Without;
  }

  lemma EraseTabled(c: Core, table: map<Key, nat>, k: Key)
    requires Tabled(c, table) && k in table && table[k] in c.entries && c.entries[table[k]].refs > 0
    ensures Tabled(EraseCore(c, table[k]), table - {k})
  {
    hide Without;
  }

  lemma EraseOnce(c: Core, nextId: nat, id: nat)
    requires Once(c, nextId) && id in c.entries && c.entries[id].refs > 0
    ensures Once(EraseCore(c, id), nextId)
  {
    hide Without;
  }

  lemma EraseSum(c: Core, id: nat)
    requires Listed(c) && id in c.entries && c.entries[id].refs > 0 && c.entries[id].inCache
    ensures var c' := EraseCore(c, id);
            Sum(c'.entries, c'.lru) + Sum(c'.entries, c'.inUse) + c.entries[id].charge ==
                Sum(c.entries, c.lru) + Sum(c.entries, c.inUse)
  {
    var c' := EraseCore(c, id);
    WithoutMembers(c.lru, id);
    WithoutMembers(c.inUse, id);
    hide Without, Sum;
    if c.entries[id].refs == 1 {
      SumWithout(c.entries, c.lru, id);
      WithoutAbsent(c.inUse, id);
    } else {
      SumWithout(c.entries, c.inUse, id);
      WithoutAbsent(c.lru, id);
    }
    SumSame(c.entries, c'.entries, c'.lru);
    SumSame(c.entries, c'.entries, c'.inUse);
  }

  lemma AddKeeps(c: Core, table: map<Key, nat>, usage: nat, handles: multiset<nat>, nextId: nat, e: Handle)
    requires Sound(c, table, usage, handles, nextId) && e.key !in table && e.inCache && e.refs == 2
    ensures Sound(AddCore(c, nextId, e), table[e.key := nextId], usage + e.charge,
              handles + multiset{nextId}, nextId + 1)
  {
    hide Listed, Counted, Tabled, Once, Sum;
    NewIsAbsent(c, handles, nextId);
    AddListed(c, nextId, e);
    AddCounted(c, handles, nextId, e);
    AddTabled(c, table, nextId, e);
    AddOnce(c, nextId, e);
    AddSum(c, nextId, e);
  }

  lemma NewIsAbsent(c: Core, handles: multiset<nat>, nextId: nat)
    requires Once(c, nextId) && Counted(c, handles)
    ensures nextId !in c.entries && nextId !in handles
  {
  }

  lemma AddListed(c: Core, id: nat, e: Handle)
    requires Listed(c) && id !in c.entries && e.inCache && e.refs == 2
    ensures Listed(AddCore(c, id, e))
  {
  }

  lemma AddCounted(c: Core, handles: multiset<nat>, id: nat, e: Handle)
    requires Counted(c, handles) && id !in c.entries && id !in handles && e.refs == 1 + if e.inCache then 1 else 0
    ensures Counted(AddCore(c, id, e), handles + multiset{id})
  {
  }

  lemma AddTabled(c: Core, table: map<Key, nat>, id: nat, e: Handle)
    requires Tabled(c, table) && id !in c.entries && e.key !in table && e.inCache
    ensures Tabled(AddCore(c, id, e), table[e.key := id])
  {
  }

  lemma AddOnce(c: Core, nextId: nat, e: Handle)
    requires Once(c, nextId)
    ensures Once(AddCore(c, nextId, e), nextId + 1)
  {
  }

  lemma AddSum(c: Core, id: nat, e: Handle)
    requires Listed(c) && id !in c.entries
    ensures var c' := AddCore(c, id, e);
            Sum(c'.entries, c'.lru) + Sum(c'.entries, c'.inUse) ==
                Sum(c.entries, c.lru) + Sum(c.entries, c.inUse) + e.charge
  {
    var c' := AddCore(c, id, e);
    hide Sum;
    SumSame(c.entries, c'.entries, c.lru);
    SumSame(c.entries, c'.entries, c.inUse);
    SumAppend(c'.entries, c.inUse, id);
  }

  /** An entry that is not cached lives for its client handle alone. */
  lemma AddLooseKeeps(c: Core, table: map<Key, nat>, usage: nat, handles: multiset<nat>, nextId: nat, e: Handle)
    requires Sound(c, table, usage, handles, nextId) && !e.inCache && e.refs == 1
    ensures Sound(c.(entries := c.entries[nextId := e]), table, usage, handles + multiset{nextId}, nextId + 1)
  {
    hide Listed, Counted, Tabled, Once, Sum;
    var c' := c.(entries := c.entries[nextId := e]);
    NewIsAbsent(c, handles, nextId);
    LooseCounted(c, handles, nextId, e);
    LooseListed(c, table, nextId, e);
  }

  lemma LooseCounted(c: Core, handles: multiset<nat>, id: nat, e: Handle)
    requires Counted(c, handles) && Once(c, id) && id !in handles && !e.inCache && e.refs == 1
    ensures var c' := c.(entries := c.entries[id := e]);
            Counted(c', handles + multiset{id}) && Once(c', id + 1)
  {
  }

  lemma LooseListed(c: Core, table: map<Key, nat>, id: nat, e: Handle)
    requires Listed(c) && Tabled(c, table) && id !in c.entries && !e.inCache
    ensures var c' := c.(entries := c.entries[id := e]);
            && Listed(c') && Tabled(c', table)
            && Sum(c'.entries, c.lru) == Sum(c.entries, c.lru) && Sum(c'.entries, c.inUse) == Sum(c.entries, c.inUse)
  {
    hide Sum;
    var c' := c.(entries := c.entries[id := e]);
    SumSame(c.entries, c'.entries, c.lru);
    SumSame(c.entries, c'.entries, c.inUse);
  }

  /** The source adds the new entry before it erases the one it replaces; the order does not matter. */
  lemma AddEraseCommute(c: Core, id: nat, e: Handle, gone: nat)
    requires id !in c.entries && gone in c.entries && c.entries[gone].refs > 0 && c.entries[gone].inCache && Listed(c)
    ensures EraseCore(AddCore(c, id, e), gone) == AddCore(EraseCore(c, gone), id, e)
  {
    hide Listed, Without, NoDup;
    assert id != gone;
    var a, b := EraseCore(AddCore(c, id, e), gone), AddCore(EraseCore(c, gone), id, e);
    if gone in c.inUse {
      WithoutAppend(c.inUse, gone, id);
    } else {
      WithoutAbsent(c.inUse, gone);
      WithoutAbsent(c.inUse + [id], gone);
    }
    var g := c.entries[gone];
    if g.refs == 1 {
      assert c.entries[id := e] - {gone} == (c.entries - {gone})[id := e];
    } else {
      var g' := g.(inCache := false, refs := g.refs - 1);
      assert c.entries[id := e][gone := g'] == c.entries[gone := g'][id := e];
    }
    assert a.entries == b.entries;
  }

  /** The `n` oldest unreferenced entries are gone, each while the charge was too high. */
  ghost predicate GoneOldest(c: Core, usage: int, capacity: nat, c': Core, usage': int, n: nat) {
    && n <= |c.lru| && c'.lru == c.lru[n..] && c'.inUse == c.inUse && c'.deleted == c.deleted + c.lru[..n]
    && usage' == usage - Sum(c.entries, c.lru[..n])
    && (forall k :: 0 <= k < n ==> usage - Sum(c.entries, c.lru[..k]) > capacity)
    && (forall x :: x in c'.entries <==> x in c.entries && x !in c.lru[..n])
    && (forall x :: x in c'.entries ==> c'.entries[x] == c.entries[x])
  }

  /** The fewest of the oldest that make the charge fit, or all of them. */
  ghost predicate Evicted(c: Core, usage: int, capacity: nat, c': Core, usage': int) {
    && (usage' <= capacity || c'.lru == [])
    && exists n: nat :: GoneOldest(c, usage, capacity, c', usage', n)
  }

  lemma NoneGone(c: Core, usage: int, capacity: nat)
    ensures GoneOldest(c, usage, capacity, c, usage, 0)
  {
    assert c.lru[..0] == [] && c.lru[0..] == c.lru;
    Seqs.NothingMore(c.deleted);
  }

  lemma StillOld(c: Core, usage: int, capacity: nat, c': Core, usage': int, n: nat)
    requires GoneOldest(c, usage, capacity, c', usage', n)
    ensures forall x :: x in c'.lru ==> x in c.lru
  {
  }

  lemma OneMoreGone(c: Core, usage: int, capacity: nat, c': Core, usage': int, c'': Core, n: nat)
    requires GoneOldest(c, usage, capacity, c', usage', n) && usage' > capacity && c'.lru != []
    requires c'.lru[0] in c'.entries && c'' == c'.(entries := c'.entries - {c'.lru[0]}, lru := c'.lru[1..],
                                                   deleted := c'.deleted + [c'.lru[0]])
    ensures GoneOldest(c, usage, capacity, c'', usage' - c'.entries[c'.lru[0]].charge, n + 1)
  {
    hide Sum;
    var id := c'.lru[0];
    Seqs.Advance(c.lru, n);
    Seqs.Assoc(c.deleted, c.lru[..n], [id]);
    SumAppend(c.entries, c.lru[..n], id);
  }

  /** Some pairs are gone, all of them for entries of `lru`; nothing else changed. */
  ghost predicate Shrunk(m: map<Key, nat>, m': map<Key, nat>, lru: seq<nat>) {
    && (forall k :: k in m' ==> k in m && m'[k] == m[k])
    && (forall k :: k in m && k !in m' ==> m[k] in lru)
  }

  lemma NothingShrunk(m: map<Key, nat>, lru: seq<nat>)
    ensures Shrunk(m, m, lru)
  {
  }

  lemma ShrunkMore(m: map<Key, nat>, m': map<Key, nat>, lru: seq<nat>, key: Key)
    requires Shrunk(m, m', lru) && key in m' && m'[key] in lru
    ensures Shrunk(m, m' - {key}, lru)
  {
  }

  class Cache {
    const capacity: nat
    const table: Table
    var entries: map<nat, Handle>
    var lru: seq<nat>
    var inUse: seq<nat>
    var usage: nat
    /** Entries whose deleter has run, in that order. */
    var deleted: seq<nat>
    var nextId: nat
    /** The handles that clients hold. */
    ghost var handles: multiset<nat>

    ghost predicate Inv()
      reads this, table
    {
      table.Valid() && Sound(AsCore(), table.contents, usage, handles, nextId)
    }

    function AsCore(): Core
      reads this
    {
      Core(entries, lru, inUse, deleted)
    }

    constructor (capacity: nat, hash: Key -> nat)
      ensures Inv() && table.contents == map[] && handles == multiset{} && this.capacity == capacity && fresh(table)
    {
      this.capacity := capacity;
      table := new Table(hash);
      entries, lru, inUse, usage, deleted, nextId, handles := map[], [], [], 0, [], 0, multiset{};
    }

    method Ref(id: nat)
      requires id in entries
      modifies this`entries, this`lru, this`inUse
      ensures AsCore() == RefCore(old(AsCore()), id)
    {
      var e := entries[id];
      if e.refs == 1 && e.inCache {
        lru, inUse := Without(lru, id), inUse + [id];
      }
      entries := entries[id := e.(refs := e.refs + 1)];
    }

    method Unref(id: nat)
      requires id in entries && entries[id].refs > 0
      modifies this`entries, this`lru, this`inUse, this`deleted
      ensures AsCore() == UnrefCore(old(AsCore()), id)
    {
      var e := entries[id].(refs := entries[id].refs - 1);
      entries := entries[id := e];
      if e.refs == 0 {
        deleted := deleted + [id];
        assert entries - {id} == old(entries) - {id};
        entries := entries - {id};
      } else if e.inCache && e.refs == 1 {
        inUse := Without(inUse, id);
        lru := lru + [id];
      }
    }

    /** The entry is out of the hash table already. */
    method FinishErase(id: nat)
      requires id in entries && entries[id].refs > 0 && entries[id].charge <= usage
      modifies this`entries, this`lru, this`inUse, this`deleted, this`usage
      ensures AsCore() == EraseCore(old(AsCore()), id) && usage == old(usage) - old(entries[id].charge)
    {
      lru, inUse := Without(lru, id), Without(inUse, id);
      var e := entries[id];
      entries := entries[id := e.(inCache := false)];
      usage := usage - e.charge;
      Unref(id);
    }

    method Lookup(key: Key) returns (r: Option<nat>)
      requires Inv()
      modifies this
      ensures Inv() && table.contents == old(table.contents) && usage == old(usage) && deleted == old(deleted)
      ensures r == if key in table.contents then Some(table.contents[key]) else None
      ensures handles == old(handles) + if r.Some? then multiset{r.value} else multiset{}
      ensures r.Some? ==> r.value in old(entries) && Holds(old(AsCore()), AsCore(), r.value)
      ensures r.None? ==> AsCore() == old(AsCore())
    {
      hide Listed, Counted, Once, Sum, Represents, RefCore, Holds;
      r := table.Lookup(key);
      if r.Some? {
        RefKeeps(AsCore(), table.contents, usage, handles, nextId, r.value);
        assert RefCore(AsCore(), r.value).deleted == deleted by {
          RefKeepsDeleted(AsCore(), r.value);
        }
        RefHolds(AsCore(), r.value);
        Ref(r.value);
        handles := handles + multiset{r.value};
      }
    }

    method Release(id: nat)
      requires Inv() && id in handles
      modifies this
      ensures Inv() && table.contents == old(table.contents) && usage == old(usage)
      ensures handles == old(handles) - multiset{id}
      ensures id in old(entries) && old(entries[id].refs) > 0
      ensures id in deleted <==> old(entries[id].refs) == 1
      ensures LetsGo(old(AsCore()), AsCore(), id)
    {
      hide Listed, Counted, Tabled, Sum, Represents, LetsGo;
      UnrefKeeps(AsCore(), table.contents, usage, handles, nextId, id);
      UnrefLetsGo(AsCore(), id);
      Unref(id);
      handles := handles - multiset{id};
    }

    method Erase(key: Key)
      requires Inv()
      modifies this, table
      ensures Inv() && table.contents == old(table.contents) - {key} && handles == old(handles)
      ensures key !in old(table.contents) ==> AsCore() == old(AsCore()) && usage == old(usage)
      ensures key in old(table.contents) ==>
                var id := old(table.contents)[key];
                && id in old(entries) && old(entries)[id].refs > 0 && old(entries)[id].key == key
                && Leaves(old(AsCore()), AsCore(), id) && usage == old(usage) - old(entries)[id].charge
    {
      hide Leaves;
      hide Listed, Counted, Tabled, Once, Sum, Represents, EraseCore;
      ghost var before := table.contents;
      var r := table.Remove(key);
      if r.Some? {
        EraseKeeps(AsCore(), before, usage, handles, nextId, key);
        CachedIsRef(AsCore(), before, handles, key);
        EraseLeaves(AsCore(), r.value);
        FinishErase(r.value);
      } else {
        assert before - {key} == before;
      }
    }

    /** The oldest unreferenced entry goes. */
    method EvictOldest()
      requires Inv() && lru != []
      modifies this, table
      ensures Inv() && handles == old(handles) && lru == old(lru)[1..] && inUse == old(inUse) && nextId == old(nextId)
      ensures old(lru[0]) in old(entries)
      ensures var e := old(entries[lru[0]]);
              && table.contents == old(table.contents) - {e.key} && usage == old(usage) - e.charge
              && e.key in old(table.contents) && old(table.contents)[e.key] == old(lru[0])
      ensures deleted == old(deleted) + [old(lru[0])] && entries == old(entries) - {old(lru[0])}
    {
      hide Listed, Counted, Tabled, Once, Sum, Represents, EraseCore;
      var id := lru[0];
      OldestIsCached(AsCore(), table.contents, id);
      EraseOldest(AsCore());
      ghost var before := table.contents;
      var key := entries[id].key;
      EraseKeeps(AsCore(), before, usage, handles, nextId, key);
      var r := table.Remove(key);
      FinishErase(id);
    }

    method Prune()
      requires Inv()
      modifies this, table
      ensures Inv() && handles == old(handles) && lru == [] && inUse == old(inUse)
      ensures deleted == old(deleted) + old(lru)
    {
      hide Sound, Represents;
      ghost var n := 0;
      while lru != []
        invariant Inv() && handles == old(handles) && inUse == old(inUse)
        invariant n <= |old(lru)| && lru == old(lru)[n..] && deleted == old(deleted) + old(lru)[..n]
        decreases |lru|
      {
        EvictOldest();
        n := n + 1;
      }
    }

    /** Evicts in age order until the charge fits or nothing unreferenced is left. */
    method Evict()
      requires Inv()
      modifies this, table
      ensures Inv() && handles == old(handles) && inUse == old(inUse) && nextId == old(nextId)
      ensures Evicted(old(AsCore()), old(usage), capacity, AsCore(), usage)
      ensures Shrunk(old(table.contents), table.contents, old(lru))
    {
      hide Sound, Represents, Shrunk, GoneOldest;
      NothingShrunk(table.contents, lru);
      NoneGone(AsCore(), usage, capacity);
      ghost var n := 0;
      while usage > capacity && lru != []
        invariant Inv() && handles == old(handles) && inUse == old(inUse) && nextId == old(nextId)
        invariant GoneOldest(old(AsCore()), old(usage), capacity, AsCore(), usage, n)
        invariant Shrunk(old(table.contents), table.contents, old(lru))
        decreases |lru|
      {
        ghost var c, u, m := AsCore(), usage, table.contents;
        EvictOldest();
        OneMoreGone(old(AsCore()), old(usage), capacity, c, u, AsCore(), n);
        StillOld(old(AsCore()), old(usage), capacity, c, u, n);
        ShrunkMore(old(table.contents), m, old(lru), c.entries[c.lru[0]].key);
        n := n + 1;
      }
    }

    /** The new entry has the charge it was given; what it replaces leaves, then the oldest go until the charge fits.
        Without capacity it is not cached. */
    method Insert(key: Key, charge: nat) returns (id: nat)
      requires Inv()
      modifies this, table
      ensures Inv() && id == old(nextId) && handles == old(handles) + multiset{id}
      ensures usage <= capacity || lru == []
      ensures capacity > 0 ==> key in table.contents && table.contents[key] == id
      ensures id in entries && entries[id] == if capacity > 0 then Handle(key, charge, true, 2)
                                              else Handle(key, charge, false, 1)
      ensures capacity > 0 ==>
                exists c, u :: Caches(old(AsCore()), old(usage), old(table.contents), c, u, id,
                    Handle(key, charge, true, 2))
                  && Evicted(c, u, capacity, AsCore(), usage)
      ensures capacity == 0 ==>
                Evicted(old(AsCore()).(entries := old(entries)[id := Handle(key, charge, false, 1)]), old(usage),
                    capacity, AsCore(), usage)
      ensures Shrunk(old(table.contents) - {key}, table.contents - {key}, old(lru))
    {
      hide Listed, Counted, Tabled, Once, Sum, Represents, EraseCore, UnrefCore, RefCore, Caches, Evicted;
      id := nextId;
      if capacity > 0 {
        InsertCached(key, charge);
        CachedStays(old(AsCore()), old(usage), old(table.contents), AsCore(), usage, id, Handle(key, charge, true, 2));
      } else {
        AddLooseKeeps(AsCore(), table.contents, usage, handles, nextId, Handle(key, charge, false, 1));
        entries := entries[id := Handle(key, charge, false, 1)];
        nextId, handles := nextId + 1, handles + multiset{id};
      }
      NewIsInUse(AsCore(), table.contents, handles, id);
      ghost var m, c, u := table.contents, AsCore(), usage;
      Evict();
      InsertShrinks(old(table.contents), m, table.contents, key, id, c.lru, old(lru));
      EvictedSpares(c, u, capacity, AsCore(), usage, id);
    }

    method InsertCached(key: Key, charge: nat)
      requires Inv()
      modifies this, table
      ensures Inv() && nextId == old(nextId) + 1 && handles == old(handles) + multiset{old(nextId)}
      ensures table.contents == old(table.contents)[key := old(nextId)]
      ensures forall x :: x in lru ==> x in old(lru)
      ensures Caches(old(AsCore()), old(usage), old(table.contents), AsCore(), usage, old(nextId),
                     Handle(key, charge, true, 2))
    {
      hide Sound, Represents, EraseCore, Leaves;
      ghost var c, before, charged := AsCore(), table.contents, usage;
      var id, e := nextId, Handle(key, charge, true, 2);
      InsertSound(c, before, charged, handles, id, e);
      entries := entries[id := e];
      inUse := inUse + [id];
      usage := usage + charge;
      nextId := nextId + 1;
      assert AsCore() == AddCore(c, id, e);
      hide AddCore;
      var r := table.Insert(Item(key, id));
      if r.Some? {
        EraseLeaves(AsCore(), r.value);
        FinishErase(r.value);
      }
      handles := handles + multiset{id};
    }
  }

  lemma EvictedSpares(c: Core, usage: int, capacity: nat, c': Core, usage': int, id: nat)
    requires Evicted(c, usage, capacity, c', usage') && id in c.entries && id !in c.lru
    ensures id in c'.entries && c'.entries[id] == c.entries[id] && (usage' <= capacity || c'.lru == [])
  {
    var n: nat :| GoneOldest(c, usage, capacity, c', usage', n);
    assert id !in c.lru[..n];
  }

  /** Adding a new entry for a key, and erasing the one it replaces. */
  lemma InsertSound(c: Core, table: map<Key, nat>, usage: nat, handles: multiset<nat>, id: nat, e: Handle)
    requires Sound(c, table, usage, handles, id) && e.inCache && e.refs == 2
    ensures var c' := AddCore(c, id, e);
            if e.key !in table then Sound(c', table[e.key := id], usage + e.charge, handles + multiset{id}, id + 1)
            else
              var gone := table[e.key];
              && gone in c'.entries && c'.entries[gone].refs > 0 && c'.entries[gone].charge <= usage
              && gone != id && gone in c.entries
              && Sound(EraseCore(c', gone), table[e.key := id], usage + e.charge - c'.entries[gone].charge,
                  handles + multiset{id}, id + 1)
              && forall x :: x in EraseCore(c', gone).lru ==> x in c.lru
  {
    hide Listed, Counted, Tabled, Once, Sum, EraseCore;
    NewIsAbsent(c, handles, id);
    if e.key !in table {
      AddKeeps(c, table, usage, handles, id, e);
    } else {
      var gone := table[e.key];
      EraseKeeps(c, table, usage, handles, id, e.key);
      CachedIsRef(c, table, handles, e.key);
      AddEraseCommute(c, id, e, gone);
      EraseShrinks(c, gone);
      MapReset(table, e.key, id);
      AddKeeps(EraseCore(c, gone), table - {e.key}, usage - c.entries[gone].charge, handles, id, e);
    }
  }

  lemma MapReset(m: map<Key, nat>, key: Key, id: nat)
    ensures (m - {key})[key := id] == m[key := id]
  {
  }

  lemma RefKeepsDeleted(c: Core, id: nat)
    requires id in c.entries
    ensures RefCore(c, id).deleted == c.deleted
  {
  }

  lemma EraseShrinks(c: Core, id: nat)
    requires id in c.entries && c.entries[id].refs > 0 && Listed(c) && c.entries[id].inCache
    ensures forall x :: x in EraseCore(c, id).lru ==> x in c.lru
  {
    WithoutMembers(c.lru, id);
  }

  lemma OldestIsCached(c: Core, table: map<Key, nat>, id: nat)
    requires Listed(c) && Tabled(c, table) && id in c.lru
    ensures id in c.entries && c.entries[id].refs == 1 && c.entries[id].inCache
    ensures c.entries[id].key in table && table[c.entries[id].key] == id
  {
  }

  lemma EraseOldest(c: Core)
    requires Listed(c) && c.lru != [] && c.lru[0] in c.entries && c.entries[c.lru[0]].refs == 1
    ensures var id := c.lru[0];
            var c' := EraseCore(c, id);
            && c'.lru == c.lru[1..] && c'.inUse == c.inUse && c'.deleted == c.deleted + [id]
            && c'.entries == c.entries - {id}
  {
    var id := c.lru[0];
    WithoutAbsent(c.inUse, id);
    assert c.entries[id := c.entries[id].(inCache := false, refs := 0)] - {id} == c.entries - {id};
  }

  lemma InsertShrinks(m0: map<Key, nat>, m: map<Key, nat>, m': map<Key, nat>, key: Key, id: nat, lru: seq<nat>,
                      lru0: seq<nat>)
    requires m - {key} == m0 - {key} && Shrunk(m, m', lru) && forall x :: x in lru ==> x in lru0
    ensures Shrunk(m0 - {key}, m' - {key}, lru0)
    ensures key in m && m[key] !in lru ==> key in m' && m'[key] == m[key]
  {
    forall k | k in m' - {key}
      ensures k in m0 - {key} && (m' - {key})[k] == (m0 - {key})[k]
    {
      assert (m - {key})[k] == (m0 - {key})[k];
    }
    forall k | k in m0 - {key} && k !in m' - {key}
      ensures (m0 - {key})[k] in lru0
    {
      assert k in m - {key} && (m - {key})[k] == (m0 - {key})[k];
    }
  }

  lemma NewIsInUse(c: Core, table: map<Key, nat>, handles: multiset<nat>, id: nat)
    requires Listed(c) && Counted(c, handles) && id in handles
    ensures id !in c.lru
  {
  }
}
