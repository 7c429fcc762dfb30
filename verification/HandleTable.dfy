/** The cache's own hash table: chained buckets that agree with a plain map. */
module HandleTable {
  import opened Keys

  type Key = string

  /** A chained entry: a key and the handle it names. */
  datatype Item = Item(key: Key, id: nat)

  ghost predicate DistinctKeys(bucket: seq<Item>) {
    forall i, j :: 0 <= i < j < |bucket| ==> bucket[i].key != bucket[j].key
  }

  /** The chain of bucket `b` holds exactly the pairs of `m` that hash to it. */
  ghost predicate Chain(hash: Key -> nat, length: nat, bucket: seq<Item>, b: nat, m: map<Key, nat>)
    requires length > 0
  {
    && DistinctKeys(bucket)
    && (forall x :: x in bucket ==> hash(x.key) % length == b && x.key in m && m[x.key] == x.id)
    && (forall k :: k in m && hash(k) % length == b ==> Item(k, m[k]) in bucket)
  }

  ghost predicate Represents(hash: Key -> nat, list: seq<seq<Item>>, m: map<Key, nat>) {
    |list| > 0 && forall b :: 0 <= b < |list| ==> Chain(hash, |list|, list[b], b, m)
  }

  /** The maps agree on every key outside bucket `b`. */
  ghost predicate SameOutside(hash: Key -> nat, length: nat, b: nat, m: map<Key, nat>, m': map<Key, nat>)
    requires length > 0
  {
    forall k :: hash(k) % length != b ==> (k in m <==> k in m') && (k in m ==> m[k] == m'[k])
  }

  lemma OneBucket(hash: Key -> nat, list: seq<seq<Item>>, m: map<Key, nat>, b: nat, bucket: seq<Item>,
                  m': map<Key, nat>)
    requires Represents(hash, list, m) && b < |list| && SameOutside(hash, |list|, b, m, m')
    requires Chain(hash, |list|, bucket, b, m')
    ensures Represents(hash, list[b := bucket], m')
  {
    var list' := list[b := bucket];
    forall c | 0 <= c < |list|
      ensures Chain(hash, |list|, list'[c], c, m')
    {
      assert Chain(hash, |list|, list[c], c, m);
    }
  }

  class Table {
    const hash: Key -> nat
    var elems: nat
    var list: seq<seq<Item>>
    ghost var contents: map<Key, nat>

    ghost predicate Valid()
      reads this
    {
      Represents(hash, list, contents) && elems == |contents|
    }

    constructor (hash: Key -> nat)
      ensures Valid() && contents == map[] && this.hash == hash
    {
      this.hash := hash;
      elems, list, contents := 0, seq(4, _ => []), map[];
    }

    /** Index of the entry for `key` in its chain, or of the trailing slot. */
    method FindPointer(key: Key) returns (b: nat, i: nat)
      requires Valid()
      ensures b == hash(key) % |list| && i <= |list[b]|
      ensures i < |list[b]| ==> list[b][i].key == key && key in contents && contents[key] == list[b][i].id
      ensures i == |list[b]| ==> key !in contents
    {
      b, i := hash(key) % |list|, 0;
      assert Chain(hash, |list|, list[b], b, contents);
      while i < |list[b]| && (hash(list[b][i].key) != hash(key) || list[b][i].key != key)
        invariant i <= |list[b]|
        invariant forall j :: 0 <= j < i ==> list[b][j].key != key
      {
        i := i + 1;
      }
    }

    method Lookup(key: Key) returns (r: Option<nat>)
      requires Valid()
      ensures r == if key in contents then Some(contents[key]) else None
    {
      var b, i := FindPointer(key);
      r := if i < |list[b]| then Some(list[b][i].id) else None;
    }

    method Insert(x: Item) returns (r: Option<nat>)
      requires Valid()
      modifies this
      ensures Valid() && contents == old(contents)[x.key := x.id]
      ensures r == if x.key in old(contents) then Some(old(contents)[x.key]) else None
    {
      var b, i := FindPointer(x.key);
      ghost var was, before := list, contents;
      if i < |list[b]| {
        r := Some(list[b][i].id);
        list := list[b := list[b][i := x]];
        contents := contents[x.key := x.id];
        Replaced(hash, was, before, b, i, x);
      } else {
        r := None;
        list := list[b := list[b] + [x]];
        contents := contents[x.key := x.id];
        Appended(hash, was, before, b, x);
        elems := elems + 1;
        if elems > |list| {
          Resize();
        }
      }
    }

    method Remove(key: Key) returns (r: Option<nat>)
      requires Valid()
      modifies this
      ensures Valid() && contents == old(contents) - {key}
      ensures r == if key in old(contents) then Some(old(contents)[key]) else None
    {
      var b, i := FindPointer(key);
      ghost var was, before := list, contents;
      if i < |list[b]| {
        r := Some(list[b][i].id);
        list := list[b := list[b][..i] + list[b][i + 1..]];
        contents := contents - {key};
        Removed(hash, was, before, b, i);
        elems := elems - 1;
      } else {
        r := None;
      }
    }

    /** Doubles the table until it is long enough and moves every entry to the front of its new chain. */
    method Resize()
      requires Valid()
      modifies this
      ensures Valid() && contents == old(contents) && elems <= |list|
    {
      var length := 4;
      while length < elems
        invariant length > 0
      {
        length := length * 2;
      }
      var target: seq<seq<Item>> := seq(length, _ => []);
      ghost var moved: map<Key, nat> := map[];
      hide Represents;
      NothingStored(hash, target);
      SomeBucket(hash, list, contents);
      var was := list;
      for b := 0 to |was|
        invariant |target| == length && Represents(hash, target, moved)
        invariant Represents(hash, was, contents) && contents == old(contents) && elems == old(elems) && list == was
        invariant |was| > 0
        invariant Moved(hash, |was|, contents, moved, b)
      {
        target, moved := MoveBucket(hash, was, contents, b, target, moved);
      }
      AllMoved(hash, |was|, contents, moved);
      list := target;
    }
  }

  /** `moved` holds the pairs of `m` from the first `b` buckets. */
  ghost predicate Moved(hash: Key -> nat, length: nat, m: map<Key, nat>, moved: map<Key, nat>, b: nat)
    requires length > 0
  {
    && (forall k :: k in moved <==> k in m && hash(k) % length < b)
    && (forall k :: k in moved ==> moved[k] == m[k])
  }

  lemma NothingStored(hash: Key -> nat, list: seq<seq<Item>>)
    requires |list| > 0 && forall b :: 0 <= b < |list| ==> list[b] == []
    ensures Represents(hash, list, map[])
  {
  }

  lemma SomeBucket(hash: Key -> nat, list: seq<seq<Item>>, m: map<Key, nat>)
    requires Represents(hash, list, m)
    ensures |list| > 0
  {
  }

  lemma AllMoved(hash: Key -> nat, length: nat, m: map<Key, nat>, moved: map<Key, nat>)
    requires length > 0 && Moved(hash, length, m, moved, length)
    ensures moved == m
  {
  }

  method MoveBucket(hash: Key -> nat, list: seq<seq<Item>>, ghost m: map<Key, nat>, b: nat, target: seq<seq<Item>>,
                    ghost moved: map<Key, nat>)
    returns (target': seq<seq<Item>>, ghost moved': map<Key, nat>)
    requires Represents(hash, list, m) && b < |list| && Represents(hash, target, moved)
    requires Moved(hash, |list|, m, moved, b)
    ensures |target'| == |target| && Represents(hash, target', moved') && Moved(hash, |list|, m, moved', b + 1)
  {
    target', moved' := target, moved;
    SomeBucket(hash, target, moved);
    assert Chain(hash, |list|, list[b], b, m);
    hide Represents;
    for i := 0 to |list[b]|
      invariant |target'| == |target| && Represents(hash, target', moved')
      invariant forall k :: k in moved' <==> k in moved || InPrefix(list[b], i, k)
      invariant forall k :: k in moved' ==> k in m && moved'[k] == m[k]
    {
      var x := list[b][i];
      assert x in list[b];
      var p := hash(x.key) % |target'|;
      Prepended(hash, target', moved', p, x);
      target', moved' := target'[p := [x] + target'[p]], moved'[x.key := x.id];
    }
    forall k | k in m && hash(k) % |list| == b
      ensures InPrefix(list[b], |list[b]|, k)
    {
      assert Item(k, m[k]) in list[b];
    }
  }

  ghost predicate InPrefix(bucket: seq<Item>, n: nat, k: Key)
    requires n <= |bucket|
  {
    exists j :: 0 <= j < n && bucket[j].key == k
  }

  lemma Replaced(hash: Key -> nat, list: seq<seq<Item>>, m: map<Key, nat>, b: nat, i: nat, x: Item)
    requires Represents(hash, list, m) && b < |list| && i < |list[b]| && list[b][i].key == x.key
    ensures Represents(hash, list[b := list[b][i := x]], m[x.key := x.id]) && |m[x.key := x.id]| == |m|
  {
    var bucket, m' := list[b][i := x], m[x.key := x.id];
    assert Chain(hash, |list|, list[b], b, m) && list[b][i] in list[b];
    assert m'.Keys == m.Keys;
    assert |m| == |m.Keys| && |m'| == |m'.Keys|;
    ReplacedChain(hash, |list|, list[b], b, m, i, x);
    OneBucket(hash, list, m, b, bucket, m');
  }

  lemma ReplacedChain(hash: Key -> nat, length: nat, bucket: seq<Item>, b: nat, m: map<Key, nat>, i: nat, x: Item)
    requires length > 0 && Chain(hash, length, bucket, b, m) && i < |bucket| && bucket[i].key == x.key
    ensures Chain(hash, length, bucket[i := x], b, m[x.key := x.id])
  {
    var bucket', m' := bucket[i := x], m[x.key := x.id];
    forall k | k in m' && hash(k) % length == b
      ensures Item(k, m'[k]) in bucket'
    {
      if k == x.key {
        assert bucket'[i] == x;
      } else {
        var j :| 0 <= j < |bucket| && bucket[j] == Item(k, m[k]);
        assert bucket'[j] == bucket[j];
      }
    }
    forall y | y in bucket'
      ensures hash(y.key) % length == b && y.key in m' && m'[y.key] == y.id
    {
      var j :| 0 <= j < |bucket'| && bucket'[j] == y;
      assert bucket[j] in bucket;
    }
  }

  lemma Appended(hash: Key -> nat, list: seq<seq<Item>>, m: map<Key, nat>, b: nat, x: Item)
    requires Represents(hash, list, m) && b < |list| && x.key !in m && b == hash(x.key) % |list|
    ensures Represents(hash, list[b := list[b] + [x]], m[x.key := x.id]) && |m[x.key := x.id]| == |m| + 1
  {
    assert Chain(hash, |list|, list[b], b, m);
    assert m[x.key := x.id].Keys == m.Keys + {x.key};
    OneBucket(hash, list, m, b, list[b] + [x], m[x.key := x.id]);
  }

  lemma Prepended(hash: Key -> nat, list: seq<seq<Item>>, m: map<Key, nat>, b: nat, x: Item)
    requires Represents(hash, list, m) && b < |list| && x.key !in m && b == hash(x.key) % |list|
    ensures Represents(hash, list[b := [x] + list[b]], m[x.key := x.id])
  {
    assert Chain(hash, |list|, list[b], b, m);
    OneBucket(hash, list, m, b, [x] + list[b], m[x.key := x.id]);
  }

  lemma Removed(hash: Key -> nat, list: seq<seq<Item>>, m: map<Key, nat>, b: nat, i: nat)
    requires Represents(hash, list, m) && b < |list| && i < |list[b]|
    ensures var key := list[b][i].key;
            Represents(hash, list[b := list[b][..i] + list[b][i + 1..]], m - {key}) && |m - {key}| == |m| - 1
  {
    var key := list[b][i].key;
    assert Chain(hash, |list|, list[b], b, m) && list[b][i] in list[b];
    assert (m - {key}).Keys == m.Keys - {key};
    RemovedChain(hash, |list|, list[b], b, m, i);
    OneBucket(hash, list, m, b, list[b][..i] + list[b][i + 1..], m - {key});
  }

  lemma RemovedDistinct(bucket: seq<Item>, i: nat)
    requires DistinctKeys(bucket) && i < |bucket|
    ensures var bucket' := bucket[..i] + bucket[i + 1..];
            DistinctKeys(bucket') && forall x :: x in bucket' ==> x in bucket && x.key != bucket[i].key
  {
    var bucket' := bucket[..i] + bucket[i + 1..];
    forall j | 0 <= j < |bucket'|
      ensures bucket'[j] == bucket[if j < i then j else j + 1]
    {
    }
  }

  lemma RemovedChain(hash: Key -> nat, length: nat, bucket: seq<Item>, b: nat, m: map<Key, nat>, i: nat)
    requires length > 0 && Chain(hash, length, bucket, b, m) && i < |bucket|
    ensures Chain(hash, length, bucket[..i] + bucket[i + 1..], b, m - {bucket[i].key})
  {
    var key, bucket' := bucket[i].key, bucket[..i] + bucket[i + 1..];
    RemovedDistinct(bucket, i);
    hide DistinctKeys;
    forall x | x in bucket'
      ensures x in bucket && x.key != key
    {
    }
    forall k | k in m && k != key && hash(k) % length == b
      ensures Item(k, m[k]) in bucket'
    {
      var j :| 0 <= j < |bucket| && bucket[j] == Item(k, m[k]);
      assert bucket'[if j < i then j else j - 1] == bucket[j];
    }
  }
}
