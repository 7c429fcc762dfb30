/** Sorted tables: the builder's delayed index entries with shortened separators, and the point lookup
    through index, filter and block. Blocks are lists of entries here; their byte form is in Blocks. */
module SortedTables {
  import opened Keys
  import opened Versions
  import opened Compaction
  import opened TwoLevelIter
  import opened LogFormat
  import opened FilterBlock
  import Seqs

  datatype DataBlock = DataBlock(offset: nat, entries: seq<Entry>)

  function Entries(blocks: seq<DataBlock>): (r: seq<seq<Entry>>)
    ensures |r| == |blocks| && forall i :: 0 <= i < |r| ==> r[i] == blocks[i].entries
  {
    seq(|blocks|, i requires 0 <= i < |blocks| => blocks[i].entries)
  }

  function LastKey(es: seq<Entry>): InternalKey
    requires es != []
  {
    es[|es| - 1].key
  }

  // ----- Separators

  /** The user comparator's part: some key from `a` up to, but not including, a larger `b`. */
  ghost predicate Shortens(separator: (int, int) -> int) {
    forall a, b :: if a < b then a <= separator(a, b) < b else separator(a, b) == a
  }

  /** The internal separator: a user key that got shorter and larger takes the earliest position of its
      key, otherwise the start is kept. */
  function Separator(start: InternalKey, limit: InternalKey, separator: (int, int) -> int, shorter: bool): InternalKey {
    var user := separator(start.user, limit.user);
    if shorter && start.user < user then InternalKey(user, MAX_SEQUENCE, Value) else start
  }

  /** `s` is the last key of its block, or the earliest position of a user key strictly between the block
      and the next entry. */
  predicate Parts(s: InternalKey, last: InternalKey, next: InternalKey) {
    s == last || (last.user < s.user < next.user && s == InternalKey(s.user, MAX_SEQUENCE, Value))
  }

  lemma SeparatorParts(start: InternalKey, limit: InternalKey, separator: (int, int) -> int, shorter: bool)
    requires Shortens(separator)
    ensures Parts(Separator(start, limit, separator, shorter), start, limit)
  {
    assert if start.user < limit.user then separator(start.user, limit.user) < limit.user
        else separator(start.user, limit.user) == start.user;
  }

  /** Separators stand between neighbouring blocks, the last one at or after its block. */
  ghost predicate Parted(index: seq<InternalKey>, blocks: seq<seq<Entry>>, n: nat) {
    && |index| == n <= |blocks|
    && (forall i :: 0 <= i < |blocks| ==> blocks[i] != [])
    && (forall i :: 0 <= i < n && i + 1 < |blocks| ==> Parts(index[i], LastKey(blocks[i]), blocks[i + 1][0].key))
  }

  /** A finished index. */
  ghost predicate WellIndexed(index: seq<InternalKey>, blocks: seq<seq<Entry>>) {
    && Parted(index, blocks, |blocks|) && Sorted(Flatten(blocks))
    && (blocks != [] ==> !Less(index[|index| - 1], LastKey(blocks[|blocks| - 1])))
  }

  lemma {:induction false} EntriesOrdered(blocks: seq<seq<Entry>>, a: nat, p: nat, b: nat, q: nat)
    requires Sorted(Flatten(blocks)) && a < |blocks| && p < |blocks[a]| && b < |blocks| && q < |blocks[b]|
    requires a < b || (a == b && p < q)
    ensures Less(blocks[a][p].key, blocks[b][q].key)
  {
    hide Flatten;
    InFlatten(blocks, a, p);
    InFlatten(blocks, b, q);
    if a < b {
      OffsetStep(blocks, a);
      OffsetsGrow(blocks, a + 1, b);
    }
  }

  /** A separator is at or after its block and before everything later. */
  lemma SeparatorCuts(index: seq<InternalKey>, blocks: seq<seq<Entry>>, i: nat, b: nat, q: nat)
    requires WellIndexed(index, blocks) && i < |blocks| && b < |blocks| && q < |blocks[b]|
    ensures b <= i ==> !Less(index[i], blocks[b][q].key)
    ensures i < b ==> Less(index[i], blocks[b][q].key)
    ensures i < b && index[i] != LastKey(blocks[i]) ==> index[i].user < blocks[b][q].key.user
  {
    hide Flatten, Sorted;
    var last := |blocks[i]| - 1;
    if b < i || (b == i && q < last) {
      EntriesOrdered(blocks, b, q, i, last);
    }
    if i < b {
      EntriesOrdered(blocks, i, last, b, q);
      assert Parts(index[i], LastKey(blocks[i]), blocks[i + 1][0].key);
      if i + 1 < b || q > 0 {
        EntriesOrdered(blocks, i + 1, 0, b, q);
      }
    }
    assert i + 1 < |blocks| ==> Parts(index[i], LastKey(blocks[i]), blocks[i + 1][0].key);
  }

  lemma WellIndexedIndexes(index: seq<InternalKey>, blocks: seq<seq<Entry>>)
    requires WellIndexed(index, blocks)
    ensures Indexes(index, blocks)
  {
    hide Flatten, Sorted, Less;
    forall b, e | 0 <= b < |blocks| && e in blocks[b]
      ensures !Less(index[b], e.key)
    {
      var q :| 0 <= q < |blocks[b]| && blocks[b][q] == e;
      SeparatorCuts(index, blocks, b, b, q);
    }
    forall a, b, e | 0 <= a < b < |blocks| && e in blocks[b]
      ensures Less(index[a], e.key)
    {
      var q :| 0 <= q < |blocks[b]| && blocks[b][q] == e;
      SeparatorCuts(index, blocks, a, b, q);
    }
    forall a, b | 0 <= a < b < |index|
      ensures Less(index[a], index[b])
    {
      SeparatorCuts(index, blocks, a, b, 0);
      SeparatorCuts(index, blocks, b, b, 0);
      LessThrough(index[a], blocks[b][0].key, index[b]);
    }
  }

  lemma LessThrough(a: InternalKey, b: InternalKey, c: InternalKey)
    requires Less(a, b) && !Less(c, b)
    ensures Less(a, c)
  {
  }

  // ----- The builder

  class TableBuilder {
    const separator: (int, int) -> int
    /** The bytes of a user key, as the filter sees them. */
    const bytes: int -> Bytes
    const filter: FilterBlockBuilder
    var dataBlock: seq<Entry>
    var blocks: seq<DataBlock>
    var index: seq<InternalKey>
    var lastKey: InternalKey
    var pendingIndexEntry: bool
    var offset: nat
    ghost var es: seq<Entry>

    ghost predicate Inv()
      reads this, filter
    {
      && Shortens(separator) && filter.Inv()
      && es == Flatten(Entries(blocks)) + dataBlock && Sorted(es)
      && (es != [] ==> lastKey == LastKey(es))
      && Indexed(index, Entries(blocks), dataBlock, pendingIndexEntry)
      && |filter.offsets| == offset / BASE
      && Filtered(blocks, bytes, filter.added) && InFilter(dataBlock, offset, bytes, filter.added)
    }

    constructor (separator: (int, int) -> int, bytes: int -> Bytes, policy: Policy)
      requires Shortens(separator) && Complete(policy)
      ensures Inv() && es == [] && this.bytes == bytes && this.separator == separator && fresh(filter)
      ensures filter.policy == policy
    {
      this.separator, this.bytes := separator, bytes;
      dataBlock, blocks, index, pendingIndexEntry, offset, es := [], [], [], false, 0, [];
      lastKey := InternalKey(0, 0, Value);
      filter := new FilterBlockBuilder(policy);
      new;
      filter.StartBlock(0);
    }

    method Add(e: Entry, shorter: bool)
      requires Inv() && (es != [] ==> Less(LastKey(es), e.key))
      modifies this, filter
      ensures Inv() && es == old(es) + [e] && dataBlock == old(dataBlock) + [e]
    {
      hide Flatten, Complete, Covered, Flat, Sorted, Indexed, Filtered, InFilter;
      SortedMore(es, e);
      Seqs.Assoc(Flatten(Entries(blocks)), dataBlock, [e]);
      if pendingIndexEntry {
        BeforeAdd(index, Entries(blocks), dataBlock);
        Seqs.NothingMore(Flatten(Entries(blocks)));
        SeparatorParts(lastKey, e.key, separator, shorter);
        lastKey := Separator(lastKey, e.key, separator, shorter);
        IndexedPending(index, Entries(blocks), lastKey, e);
        assert dataBlock + [e] == [e];
        index := index + [lastKey];
        pendingIndexEntry := false;
      } else {
        IndexedMore(index, Entries(blocks), dataBlock, e);
      }
      FilterMore(blocks, dataBlock, offset, bytes, filter.added, e);
      filter.AddKey(bytes(e.key.user), offset);
      lastKey := e.key;
      dataBlock := dataBlock + [e];
      es := es + [e];
    }

    /** The data block is written; `size` is what it takes in the file. */
    method Flush(size: nat)
      requires Inv()
      modifies this, filter
      ensures Inv() && es == old(es) && dataBlock == [] && (es != [] ==> pendingIndexEntry)
    {
      hide Flatten, Complete, Covered, Flat, Sorted, Indexed, Filtered, InFilter;
      if dataBlock == [] {
        NothingWritten(index, Entries(blocks), pendingIndexEntry);
        return;
      }
      var b := DataBlock(offset, dataBlock);
      OneMoreBlock(blocks, b);
      Seqs.NothingMore(Flatten(Entries(blocks)) + dataBlock);
      MoreFiltered(blocks, b, bytes, filter.added);
      NotPending(index, Entries(blocks), dataBlock, pendingIndexEntry);
      IndexedFlush(index, Entries(blocks), dataBlock);
      blocks := blocks + [b];
      pendingIndexEntry := true;
      dataBlock := [];
      DivGrows(offset, size);
      offset := offset + size;
      filter.StartBlock(offset);
      NoneInFilter(offset, bytes, filter.added);
    }

    /** The last index key may be any key at or after the last entry. */
    method Finish(size: nat, successor: InternalKey) returns (filterBlock: Bytes)
      requires Inv() && (es != [] ==> !Less(successor, LastKey(es)))
      modifies this, filter
      ensures es == old(es) && Flatten(Entries(blocks)) == es && WellIndexed(index, Entries(blocks))
      ensures Filtered(blocks, bytes, filter.added)
      ensures |filter.result| < TWO32 ==> IsFilterBlock(filter.policy, filterBlock, filter.added)
    {
      hide Flatten, Complete, Covered, Flat, IsFilterBlock, Sorted, Filtered;
      Flush(size);
      filterBlock := filter.Finish();
      Seqs.NothingMore(Flatten(Entries(blocks)));
      if pendingIndexEntry {
        LastOfAll(Entries(blocks));
        index := index + [successor];
        pendingIndexEntry := false;
      }
    }
  }

  /** Each written block has its index entry, the last one only once the next entry is known. */
  ghost predicate Indexed(index: seq<InternalKey>, blocks: seq<seq<Entry>>, dataBlock: seq<Entry>, pending: bool) {
    && (pending ==> dataBlock == [] && blocks != [])
    && (!pending && dataBlock == [] ==> blocks == [])
    && Parted(index, blocks, if pending then |blocks| - 1 else |blocks|)
    && (!pending && blocks != [] && dataBlock != [] ==>
        Parts(index[|blocks| - 1], LastKey(blocks[|blocks| - 1]), dataBlock[0].key))
  }

  lemma {:induction false} BeforeAdd(index: seq<InternalKey>, blocks: seq<seq<Entry>>, dataBlock: seq<Entry>)
    requires Indexed(index, blocks, dataBlock, true)
    ensures dataBlock == [] && blocks != [] && blocks[|blocks| - 1] != []
    ensures Flatten(blocks) != [] && LastKey(Flatten(blocks)) == LastKey(blocks[|blocks| - 1])
  {
    LastOfAll(blocks);
  }

  lemma {:induction false} NothingWritten(index: seq<InternalKey>, blocks: seq<seq<Entry>>, pending: bool)
    requires Indexed(index, blocks, [], pending)
    ensures !pending ==> Flatten(blocks) + [] == []
  {
  }

  lemma NotPending(index: seq<InternalKey>, blocks: seq<seq<Entry>>, dataBlock: seq<Entry>, pending: bool)
    requires Indexed(index, blocks, dataBlock, pending) && dataBlock != []
    ensures !pending
  {
  }

  lemma NoneInFilter(offset: nat, bytes: int -> Bytes, added: seq<Added>)
    ensures InFilter([], offset, bytes, added)
  {
  }

  lemma IndexedPending(index: seq<InternalKey>, blocks: seq<seq<Entry>>, s: InternalKey, e: Entry)
    requires Indexed(index, blocks, [], true) && Parts(s, LastKey(blocks[|blocks| - 1]), e.key)
    ensures Indexed(index + [s], blocks, [e], false)
  {
  }

  lemma IndexedMore(index: seq<InternalKey>, blocks: seq<seq<Entry>>, dataBlock: seq<Entry>, e: Entry)
    requires Indexed(index, blocks, dataBlock, false)
    ensures Indexed(index, blocks, dataBlock + [e], false)
  {
  }

  lemma IndexedFlush(index: seq<InternalKey>, blocks: seq<seq<Entry>>, dataBlock: seq<Entry>)
    requires Indexed(index, blocks, dataBlock, false) && dataBlock != []
    ensures Indexed(index, blocks + [dataBlock], [], true)
  {
  }

  ghost predicate InFilter(es: seq<Entry>, offset: nat, bytes: int -> Bytes, added: seq<Added>) {
    forall e :: e in es ==> Added(offset, bytes(e.key.user)) in added
  }

  lemma FilterMore(blocks: seq<DataBlock>, es: seq<Entry>, offset: nat, bytes: int -> Bytes, added: seq<Added>,
                   e: Entry)
    requires Filtered(blocks, bytes, added) && InFilter(es, offset, bytes, added)
    ensures var added' := added + [Added(offset, bytes(e.key.user))];
            Filtered(blocks, bytes, added') && InFilter(es + [e], offset, bytes, added')
  {
  }

  /** Every key of every block went into the filter under the block's offset. */
  ghost predicate Filtered(blocks: seq<DataBlock>, bytes: int -> Bytes, added: seq<Added>) {
    forall i, e :: 0 <= i < |blocks| && e in blocks[i].entries ==> Added(blocks[i].offset, bytes(e.key.user)) in added
  }

  lemma MoreFiltered(blocks: seq<DataBlock>, b: DataBlock, bytes: int -> Bytes, added: seq<Added>)
    requires Filtered(blocks, bytes, added) && InFilter(b.entries, b.offset, bytes, added)
    ensures Filtered(blocks + [b], bytes, added)
  {
  }

  lemma SortedMore(es: seq<Entry>, e: Entry)
    requires Sorted(es) && (es != [] ==> Less(LastKey(es), e.key))
    ensures Sorted(es + [e])
  {
    var r := es + [e];
    forall i, j | 0 <= i < j < |r|
      ensures Less(r[i].key, r[j].key)
    {
      if j == |es| && i < |es| - 1 {
        assert Less(es[i].key, es[|es| - 1].key);
      }
    }
  }

  lemma {:induction false} LastOfAll(blocks: seq<seq<Entry>>)
    requires blocks != [] && blocks[|blocks| - 1] != []
    ensures Flatten(blocks) != [] && LastKey(Flatten(blocks)) == LastKey(blocks[|blocks| - 1])
  {
  }

  lemma OneMoreBlock(blocks: seq<DataBlock>, b: DataBlock)
    ensures Entries(blocks + [b]) == Entries(blocks) + [b.entries]
    ensures Flatten(Entries(blocks + [b])) == Flatten(Entries(blocks)) + b.entries
  {
    assert Entries(blocks + [b]) == Entries(blocks) + [b.entries];
    FlattenOne(Entries(blocks), b.entries);
  }

  lemma DivGrows(a: nat, b: nat)
    ensures a / BASE <= (a + b) / BASE
  {
  }

  // ----- Point lookup

  /** Index, filter, block: the entry the lookup callback accepts, which must be for the same user key. */
  method InternalGet(index: seq<InternalKey>, blocks: seq<DataBlock>, policy: Policy, filter: Option<Bytes>,
                     bytes: int -> Bytes,
                     k: int, s: nat, ghost added: seq<Added>) returns (r: Option<Entry>)
    requires WellIndexed(index, Entries(blocks)) && Filtered(blocks, bytes, added)
    requires filter.Some? ==> IsFilterBlock(policy, filter.value, added)
    ensures r == SearchRun(Flatten(Entries(blocks)), k, s)
  {
    hide Flatten, WellIndexed, IsFilterBlock, Filtered;
    var key := LookupKey(k, s);
    var i := SeekKeys(index, key);
    LookupInBlock(index, blocks, k, s, i);
    if i == |index| {
      return None;
    }
    if filter.Some? {
      var may := KeyMayMatch(policy, filter.value, blocks[i].offset, bytes(k), added);
      if !may {
        NotInBlock(blocks, bytes, added, i, k);
        return None;
      }
    }
    var p := SeekIndex(blocks[i].entries, key);
    if p < |blocks[i].entries| && blocks[i].entries[p].key.user == k {
      return Some(blocks[i].entries[p]);
    }
    return None;
  }

  lemma NotInBlock(blocks: seq<DataBlock>, bytes: int -> Bytes, added: seq<Added>, i: nat, k: int)
    requires Filtered(blocks, bytes, added) && i < |blocks| && Added(blocks[i].offset, bytes(k)) !in added
    ensures forall e :: e in blocks[i].entries ==> e.key.user != k
  {
  }

  /** The one block that the index names decides the lookup. */
  lemma {:induction false} LookupInBlock(index: seq<InternalKey>, blocks: seq<DataBlock>, k: int, s: nat, i: nat)
    requires WellIndexed(index, Entries(blocks)) && i == SeekKeys(index, LookupKey(k, s))
    ensures |index| == |blocks|
    ensures i == |index| ==> SearchRun(Flatten(Entries(blocks)), k, s) == None
    ensures i < |index| ==> SearchRun(Flatten(Entries(blocks)), k, s) == SearchRun(blocks[i].entries, k, s)
  {
    hide Flatten, SeekIndex, SeekKeys, Sorted;
    var es, key := Entries(blocks), LookupKey(k, s);
    WellIndexedIndexes(index, es);
    SeekComposes(index, es, key);
    if i < |index| {
      var p := SeekIndex(es[i], key);
      if p < |es[i]| {
        InFlatten(es, i, p);
      } else {
        PastBlock(index, es, k, s, i);
      }
    }
  }

  lemma {:induction false} PastBlock(index: seq<InternalKey>, blocks: seq<seq<Entry>>, k: int, s: nat, i: nat)
    requires WellIndexed(index, blocks) && i < |index| && i == SeekKeys(index, LookupKey(k, s))
    requires SeekIndex(blocks[i], LookupKey(k, s)) == |blocks[i]|
    ensures var n := Offset(blocks, i) + |blocks[i]|;
            n < |Flatten(blocks)| ==> Flatten(blocks)[n].key.user != k
  {
    hide Flatten, Sorted;
    OffsetStep(blocks, i);
    var n := Offset(blocks, i) + |blocks[i]|;
    Seqs.WholeSlice(blocks);
    if n < |Flatten(blocks)| {
      assert i + 1 < |blocks|;
      InFlatten(blocks, i + 1, 0);
      SeparatorCuts(index, blocks, i, i + 1, 0);
      assert Less(LastKey(blocks[i]), LookupKey(k, s));
    }
  }
}
