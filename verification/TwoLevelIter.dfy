/** The two-level iterator: over an index and its blocks it is a cursor on the concatenation of the
    blocks, empty blocks included. */
module TwoLevelIter {
  import opened Keys
  import opened Versions
  import opened Compaction
  import Seqs

  /** Number of entries in the blocks before `b`. */
  ghost function Offset(blocks: seq<seq<Entry>>, b: nat): nat
    requires b <= |blocks|
  {
    |Flatten(blocks[..b])|
  }

  lemma OffsetStep(blocks: seq<seq<Entry>>, b: nat)
    requires b < |blocks|
    ensures Offset(blocks, b + 1) == Offset(blocks, b) + |blocks[b]|
    ensures Offset(blocks, 0) == 0
  {
    var r := blocks[..b + 1];
    assert r[..|r| - 1] == blocks[..b];
  }

  lemma {:induction false} OffsetsGrow(blocks: seq<seq<Entry>>, b: nat, n: nat)
    requires b <= n <= |blocks|
    ensures Offset(blocks, b) <= Offset(blocks, n)
  {
    if b < n {
      OffsetsGrow(blocks, b, n - 1);
      OffsetStep(blocks, n - 1);
    }
  }

  /** Entry `p` of block `b` is the entry of the concatenation at that offset. */
  lemma {:induction false} InFlatten(blocks: seq<seq<Entry>>, b: nat, p: nat)
    requires b < |blocks| && p < |blocks[b]|
    ensures Offset(blocks, b) + p < |Flatten(blocks)| && Flatten(blocks)[Offset(blocks, b) + p] == blocks[b][p]
  {
    var n := |blocks| - 1;
    if b == n {
    } else {
      InFlatten(blocks[..n], b, p);
      assert blocks[..n][..b] == blocks[..b];
    }
  }

  /** Where an offset lies. */
  lemma {:induction false} BlockOf(blocks: seq<seq<Entry>>, i: nat) returns (b: nat, p: nat)
    requires i < |Flatten(blocks)|
    ensures b < |blocks| && p < |blocks[b]| && Offset(blocks, b) + p == i
  {
    var n := |blocks| - 1;
    var before := Flatten(blocks[..n]);
    if i < |before| {
      b, p := BlockOf(blocks[..n], i);
      assert blocks[..n][..b] == blocks[..b];
    } else {
      b, p := n, i - |before|;
    }
  }

  /** Index key `b` is at or after every key of block `b` and before every key of the later blocks. */
  ghost predicate Indexes(index: seq<InternalKey>, blocks: seq<seq<Entry>>) {
    && |index| == |blocks|
    && (forall a, b :: 0 <= a < b < |index| ==> Less(index[a], index[b]))
    && (forall b, e :: 0 <= b < |blocks| && e in blocks[b] ==> !Less(index[b], e.key))
    && (forall a, b, e :: 0 <= a < b < |blocks| && e in blocks[b] ==> Less(index[a], e.key))
  }

  /** First index key at or after `target`. */
  function SeekKeys(index: seq<InternalKey>, target: InternalKey): (i: nat)
    ensures i <= |index|
    ensures forall j :: 0 <= j < i ==> Less(index[j], target)
    ensures i < |index| ==> !Less(index[i], target)
  {
    if index == [] || !Less(index[0], target) then 0 else 1 + SeekKeys(index[1..], target)
  }

  lemma {:induction false} SeekUnique(es: seq<Entry>, target: InternalKey, n: nat)
    requires n <= |es| && (forall j :: 0 <= j < n ==> Less(es[j].key, target))
    requires n < |es| ==> !Less(es[n].key, target)
    ensures SeekIndex(es, target) == n
  {
  }

  /** Seeking in the index and then in the block it names finds the place in the concatenation. */
  lemma {:induction false} SeekComposes(index: seq<InternalKey>, blocks: seq<seq<Entry>>, target: InternalKey)
    requires Indexes(index, blocks)
    ensures var b := SeekKeys(index, target);
            SeekIndex(Flatten(blocks), target) ==
            if b == |blocks| then |Flatten(blocks)| else Offset(blocks, b) + SeekIndex(blocks[b], target)
  {
    hide Flatten, SeekKeys, SeekIndex;
    var all, b := Flatten(blocks), SeekKeys(index, target);
    var n := if b == |blocks| then |all| else Offset(blocks, b) + SeekIndex(blocks[b], target);
    Seqs.WholeSlice(blocks);
    if b < |blocks| {
      OffsetStep(blocks, b);
      OffsetsGrow(blocks, b + 1, |blocks|);
    }
    forall i | 0 <= i < |all|
      ensures i < n ==> Less(all[i].key, target)
      ensures i == n ==> !Less(all[i].key, target)
    {
      SeekSide(index, blocks, target, i);
    }
    SeekUnique(all, target, n);
  }

  /** On which side of the target entry `i` of the concatenation lies. */
  lemma {:induction false} SeekSide(index: seq<InternalKey>, blocks: seq<seq<Entry>>, target: InternalKey, i: nat)
    requires Indexes(index, blocks) && i < |Flatten(blocks)|
    ensures var b := SeekKeys(index, target);
            var n := if b == |blocks| then |Flatten(blocks)| else Offset(blocks, b) + SeekIndex(blocks[b], target);
            (i < n ==> Less(Flatten(blocks)[i].key, target)) && (i == n ==> !Less(Flatten(blocks)[i].key, target))
  {
    hide Flatten, SeekKeys, SeekIndex;
    var b := SeekKeys(index, target);
    var a, p := BlockOf(blocks, i);
    InFlatten(blocks, a, p);
    assert blocks[a][p] in blocks[a];
    if a < b {
      assert Less(index[a], target) && !Less(index[a], blocks[a][p].key);
      OffsetStep(blocks, a);
      OffsetsGrow(blocks, a + 1, b);
    } else if b < a {
      OffsetStep(blocks, b);
      OffsetsGrow(blocks, b + 1, a);
      assert Less(index[b], blocks[a][p].key) && !Less(index[b], target);
    }
  }

  class TwoLevelIterator {
    const index: seq<InternalKey>
    const blocks: seq<seq<Entry>>
    /** The index iterator is not valid at `|blocks|`. */
    var block: nat
    /** Position of the data iterator in its block; it is not valid at the block's length. */
    var data: Option<nat>
    /** The block that the data iterator was opened on. */
    var handle: nat

    ghost predicate Shape()
      reads this
    {
      && Indexes(index, blocks) && block <= |blocks|
      && (data.Some? <==> block < |blocks|)
      && (data.Some? ==> handle == block && data.value <= |blocks[block]|)
    }

    predicate Valid()
      requires Shape()
      reads this
    {
      data.Some? && data.value < |blocks[block]|
    }

    ghost predicate Inv()
      reads this
    {
      Shape() && (!Valid() ==> data.None?)
    }

    ghost function All(): seq<Entry> {
      Flatten(blocks)
    }

    /** Index of the cursor in the concatenation; its length when not valid. */
    ghost function At(): nat
      requires Inv()
      reads this
    {
      if Valid() then Offset(blocks, block) + data.value else |All()|
    }

    function Current(): (e: Entry)
      requires Inv() && Valid()
      reads this
    {
      blocks[block][data.value]
    }

    lemma CurrentIsAt()
      requires Inv() && Valid()
      ensures At() < |All()| && Current() == All()[At()]
    {
      InFlatten(blocks, block, data.value);
    }

    constructor (index: seq<InternalKey>, blocks: seq<seq<Entry>>)
      requires Indexes(index, blocks)
      ensures Inv() && !Valid() && this.index == index && this.blocks == blocks
    {
      this.index, this.blocks := index, blocks;
      block, data, handle := |blocks|, None, 0;
    }

    /** Opens the block that the index names, unless it is already open. */
    method InitDataBlock()
      requires Indexes(index, blocks) && block <= |blocks|
      requires data.Some? ==> handle < |blocks| && data.value <= |blocks[handle]|
      modifies this`data, this`handle
      ensures Shape()
    {
      if block == |blocks| {
        data := None;
      } else if data.Some? && handle == block {
      } else {
        handle, data := block, Some(|blocks[block]|);
      }
    }

    /** The cursor stands before entry `n`, at the end of its block at worst. */
    method SkipEmptyDataBlocksForward(ghost n: nat)
      requires Shape() && n == (if data.Some? then Offset(blocks, block) + data.value else |All()|)
      modifies this
      ensures Inv() && At() == n
    {
      while data.None? || data.value >= |blocks[block]|
        invariant Shape() && n == (if data.Some? then Offset(blocks, block) + data.value else |All()|)
        decreases |blocks| - block, data.Some?
      {
        if block == |blocks| {
          data := None;
          return;
        }
        OffsetStep(blocks, block);
        block := block + 1;
        InitDataBlock();
        Seqs.WholeSlice(blocks);
        if data.Some? {
          data := Some(0);
        }
      }
    }

    /** The cursor stands after the first `n` entries, before the front of its block at worst. */
    method SkipEmptyDataBlocksBackward(ghost n: nat)
      requires Shape()
      requires n == (if data.None? then 0 else if Valid() then Offset(blocks, block) + data.value + 1
                 else Offset(blocks, block))
      modifies this
      ensures Inv() && At() == if n == 0 then |All()| else n - 1
    {
      while data.None? || data.value >= |blocks[block]|
        invariant Shape()
        invariant n == (if data.None? then 0 else if Valid() then Offset(blocks, block) + data.value + 1
                    else Offset(blocks, block))
        decreases data.Some?, block
      {
        if block == |blocks| {
          data := None;
          return;
        }
        if block > 0 {
          OffsetStep(blocks, block - 1);
        } else {
          OffsetStep(blocks, 0);
        }
        block := if block == 0 then |blocks| else block - 1;
        InitDataBlock();
        if data.Some? {
          data := Some(LastOf(blocks[block]));
        }
      }
    }

    method Seek(target: InternalKey)
      requires Inv()
      modifies this
      ensures Inv() && At() == SeekIndex(All(), target)
    {
      block := SeekKeys(index, target);
      InitDataBlock();
      SeekComposes(index, blocks, target);
      if data.Some? {
        data := Some(SeekIndex(blocks[block], target));
      }
      SkipEmptyDataBlocksForward(SeekIndex(All(), target));
    }

    method SeekToFirst()
      requires Inv()
      modifies this
      ensures Inv() && At() == 0
    {
      block := 0;
      InitDataBlock();
      if data.Some? {
        data := Some(0);
      }
      SkipEmptyDataBlocksForward(0);
    }

    method SeekToLast()
      requires Inv()
      modifies this
      ensures Inv() && At() == if All() == [] then 0 else |All()| - 1
    {
      block := if blocks == [] then 0 else |blocks| - 1;
      InitDataBlock();
      if data.Some? {
        OffsetStep(blocks, block);
        data := Some(LastOf(blocks[block]));
      }
      Seqs.WholeSlice(blocks);
      SkipEmptyDataBlocksBackward(|All()|);
    }

    method Next()
      requires Inv() && Valid()
      modifies this
      ensures Inv() && At() == old(At()) + 1
    {
      ghost var n := At();
      data := Some(data.value + 1);
      SkipEmptyDataBlocksForward(n + 1);
    }

    method Prev()
      requires Inv() && Valid()
      modifies this
      ensures Inv() && At() == if old(At()) == 0 then |All()| else old(At()) - 1
    {
      ghost var n := At();
      data := Some(if data.value == 0 then |blocks[block]| else data.value - 1);
      SkipEmptyDataBlocksBackward(n);
    }
  }

  /** The last position of a block, which is not valid when the block is empty. */
  function LastOf(es: seq<Entry>): nat {
    if es == [] then 0 else |es| - 1
  }
}
