/** One filter for every 2 KiB of file offset: the keys of a data block always match the filter that a
    reader looks up by the block's offset. */
module FilterBlock {
  import opened Keys
  import opened LogFormat
  import opened Blocks
  import opened BlockIter
  import Bloom
  import Seqs

  const BASE_LG: byte := 11
  const BASE: nat := 2048

  /** A filter policy: how to make a filter, and what it lets through. */
  datatype Policy = Policy(create: seq<Bytes> -> Bytes, matches: (Bytes, Bytes) -> bool)

  /** No key is rejected by the filter it went into. */
  ghost predicate Complete(p: Policy) {
    forall keys, key :: key in keys ==> p.matches(key, p.create(keys))
  }

  function Hashes(hash: Bytes -> Word, keys: seq<Bytes>): seq<Word> {
    seq(|keys|, i requires 0 <= i < |keys| => hash(keys[i]))
  }

  /** A policy that builds and tests bloom filters rejects no key. */
  lemma BloomIsComplete(p: Policy, hash: Bytes -> Word)
    requires forall keys :: Bloom.FilterFor(p.create(keys), Hashes(hash, keys))
    requires forall key, f :: p.matches(key, f) == Bloom.MayMatch(f, hash(key))
    ensures Complete(p)
  {
    forall keys, key | key in keys
      ensures p.matches(key, p.create(keys))
    {
      var i :| 0 <= i < |keys| && keys[i] == key;
      assert Hashes(hash, keys)[i] == hash(key);
      Bloom.NeverRejected(p.create(keys), Hashes(hash, keys), i);
    }
  }

  // ----- The keys of the current filter, flattened

  function Concat(keys: seq<Bytes>): Bytes {
    if keys == [] then [] else Concat(keys[..|keys| - 1]) + keys[|keys| - 1]
  }

  ghost predicate Flat(keys: seq<Bytes>, flat: Bytes, start: seq<nat>) {
    && flat == Concat(keys) && |start| == |keys|
    && forall i :: 0 <= i < |keys| ==> start[i] == |Concat(keys[..i])|
  }

  lemma {:induction false} ConcatPrefix(keys: seq<Bytes>, i: nat)
    requires i < |keys|
    ensures |Concat(keys[..i])| + |keys[i]| == |Concat(keys[..i + 1])| <= |Concat(keys)|
    ensures Concat(keys)[|Concat(keys[..i])|..|Concat(keys[..i + 1])|] == keys[i]
  {
    var n := |keys| - 1;
    assert keys[..i + 1][..i] == keys[..i];
    if i == n {
      assert keys[..i + 1] == keys;
    } else {
      ConcatPrefix(keys[..n], i);
      assert keys[..n][..i] == keys[..i] && keys[..n][..i + 1] == keys[..i + 1];
    }
  }

  lemma FlatMore(keys: seq<Bytes>, flat: Bytes, start: seq<nat>, key: Bytes)
    requires Flat(keys, flat, start)
    ensures Flat(keys + [key], flat + key, start + [|flat|])
  {
    var keys' := keys + [key];
    assert keys'[..|keys|] == keys;
    forall i | 0 <= i < |keys'|
      ensures (start + [|flat|])[i] == |Concat(keys'[..i])|
    {
      assert i < |keys| ==> keys'[..i] == keys[..i];
    }
  }

  // ----- The filters built so far

  /** Filter `i` of a block. */
  function FilterAt(data: Bytes, offsets: seq<nat>, i: nat): Bytes
    requires i < |offsets| && Placed(data, offsets)
  {
    data[offsets[i]..if i + 1 < |offsets| then offsets[i + 1] else |data|]
  }

  predicate Placed(data: Bytes, offsets: seq<nat>) {
    && (forall i :: 0 <= i < |offsets| ==> offsets[i] <= |data|)
    && (forall i :: 0 <= i < |offsets| - 1 ==> offsets[i] <= offsets[i + 1])
  }

  /** A key added while the data block at `offset` was being built. */
  datatype Added = Added(offset: nat, key: Bytes)

  /** Keys whose filter is built match it; the others wait for it. */
  ghost predicate Covered(p: Policy, data: Bytes, offsets: seq<nat>, pending: seq<Bytes>, added: seq<Added>) {
    Placed(data, offsets) && forall x :: x in added ==> CoveredAt(p, data, offsets, pending, x)
  }

  ghost predicate CoveredAt(p: Policy, data: Bytes, offsets: seq<nat>, pending: seq<Bytes>, x: Added)
    requires Placed(data, offsets)
  {
    var i := x.offset / BASE;
    if i < |offsets| then p.matches(x.key, FilterAt(data, offsets, i)) else i == |offsets| && x.key in pending
  }

  lemma Generated(p: Policy, data: Bytes, offsets: seq<nat>, pending: seq<Bytes>, added: seq<Added>, filter: Bytes)
    requires Complete(p) && Covered(p, data, offsets, pending, added)
    requires pending != [] ==> filter == p.create(pending)
    requires pending == [] ==> filter == []
    ensures Covered(p, data + filter, offsets + [|data|], [], added)
  {
    var data', offsets' := data + filter, offsets + [|data|];
    assert Placed(data', offsets');
    forall x | x in added
      ensures CoveredAt(p, data', offsets', [], x)
    {
      assert CoveredAt(p, data, offsets, pending, x);
      var i := x.offset / BASE;
      if i < |offsets| {
        SameFilter(data, offsets, i, filter);
      } else {
        assert FilterAt(data', offsets', i) == filter;
      }
    }
  }

  lemma SameFilter(data: Bytes, offsets: seq<nat>, i: nat, filter: Bytes)
    requires Placed(data, offsets) && i < |offsets| && Placed(data + filter, offsets + [|data|])
    ensures FilterAt(data + filter, offsets + [|data|], i) == FilterAt(data, offsets, i)
  {
    var end := if i + 1 < |offsets| then offsets[i + 1] else |data|;
    assert (offsets + [|data|])[i + 1] == end;
    assert (data + filter)[offsets[i]..end] == data[offsets[i]..end];
  }

  // ----- The builder

  class FilterBlockBuilder {
    const policy: Policy
    var flat: Bytes
    var start: seq<nat>
    var result: Bytes
    var offsets: seq<nat>
    ghost var pending: seq<Bytes>
    ghost var added: seq<Added>

    ghost predicate Inv()
      reads this
    {
      Complete(policy) && Flat(pending, flat, start) && Covered(policy, result, offsets, pending, added)
    }

    constructor (policy: Policy)
      requires Complete(policy)
      ensures Inv() && added == [] && offsets == [] && this.policy == policy
    {
      this.policy := policy;
      flat, start, result, offsets, pending, added := [], [], [], [], [], [];
    }

    method GenerateFilter()
      requires Inv()
      modifies this
      ensures Inv() && added == old(added) && pending == [] && |offsets| == |old(offsets)| + 1
    {
      hide Complete, Covered;
      if |start| == 0 {
        Generated(policy, result, offsets, pending, added, []);
        assert result + [] == result;
        offsets := offsets + [|result|];
        pending := [];
        return;
      }
      var keys := SplitKeys(flat, start, pending);
      var filter := policy.create(keys);
      Generated(policy, result, offsets, pending, added, filter);
      offsets := offsets + [|result|];
      result := result + filter;
      flat, start, pending := [], [], [];
    }

    /** Builds filters until the one for this offset is next. */
    method StartBlock(offset: nat)
      requires Inv() && offset / BASE >= |offsets|
      modifies this
      ensures Inv() && added == old(added) && |offsets| == offset / BASE
    {
      hide Complete, Covered, Flat;
      while offset / BASE > |offsets|
        invariant Inv() && added == old(added) && |offsets| <= offset / BASE
        decreases offset / BASE - |offsets|
      {
        GenerateFilter();
      }
    }

    method AddKey(key: Bytes, ghost offset: nat)
      requires Inv() && offset / BASE == |offsets|
      modifies this
      ensures Inv() && added == old(added) + [Added(offset, key)] && offsets == old(offsets)
    {
      hide Complete;
      FlatMore(pending, flat, start, key);
      start := start + [|flat|];
      flat := flat + key;
      MorePending(policy, result, offsets, pending, added, key, offset);
      pending := pending + [key];
      added := added + [Added(offset, key)];
    }

    method Finish() returns (block: Bytes)
      requires Inv()
      modifies this
      ensures added == old(added) && Inv()
      ensures |result| < TWO32 ==> IsFilterBlock(policy, block, added)
    {
      hide Complete, Covered, Fixed32, Fixed32s;
      if start != [] {
        GenerateFilter();
      }
      assert pending == [];
      var trailer := PutFixed32s(Truncated(offsets));
      block := result + (trailer + (Fixed32(|result| % TWO32) + [BASE_LG]));
      if |result| < TWO32 {
        Finished(policy, result, offsets, added, block);
      }
    }
  }

  method PutFixed32s(words: seq<nat>) returns (r: Bytes)
    requires forall i :: 0 <= i < |words| ==> words[i] < TWO32
    ensures r == Fixed32s(words)
  {
    hide Fixed32;
    r := [];
    for i := 0 to |words|
      invariant r == Fixed32s(words[..i])
    {
      assert words[..i + 1][..i] == words[..i];
      r := r + Fixed32(words[i]);
    }
    Seqs.WholeSlice(words);
  }

  lemma Finished(p: Policy, data: Bytes, offsets: seq<nat>, added: seq<Added>, block: Bytes)
    requires |data| < TWO32 && Covered(p, data, offsets, [], added)
    requires block == data + (Fixed32s(Truncated(offsets)) + (Fixed32(|data| % TWO32) + [BASE_LG]))
    ensures IsFilterBlock(p, block, added)
  {
    hide Fixed32, Fixed32s, CoveredAt;
    assert Truncated(offsets) == offsets;
    assert block == Layout(data, offsets);
  }

  /** What fits in 32 bits. */
  function Truncated(ns: seq<nat>): (r: seq<nat>)
    ensures |r| == |ns| && forall i :: 0 <= i < |r| ==> r[i] == ns[i] % TWO32
  {
    seq(|ns|, i requires 0 <= i < |ns| => ns[i] % TWO32)
  }

  lemma MorePending(p: Policy, data: Bytes, offsets: seq<nat>, pending: seq<Bytes>, added: seq<Added>, key: Bytes,
                    offset: nat)
    requires Covered(p, data, offsets, pending, added) && offset / BASE == |offsets|
    ensures Covered(p, data, offsets, pending + [key], added + [Added(offset, key)])
  {
    forall x | x in added
      ensures CoveredAt(p, data, offsets, pending + [key], x)
    {
      assert CoveredAt(p, data, offsets, pending, x);
    }
  }

  /** The slices of the flattened keys are the keys. */
  method SplitKeys(flat: Bytes, start: seq<nat>, ghost keys: seq<Bytes>) returns (r: seq<Bytes>)
    requires Flat(keys, flat, start)
    ensures r == keys
  {
    r := [];
    for i := 0 to |start|
      invariant r == keys[..i]
    {
      var end := if i + 1 < |start| then start[i + 1] else |flat|;
      ConcatPrefix(keys, i);
      assert i + 1 == |keys| ==> keys[..i + 1] == keys;
      r := r + [flat[start[i]..end]];
    }
  }

  function Layout(data: Bytes, offsets: seq<nat>): Bytes
    requires |data| < TWO32 && Placed(data, offsets)
  {
    data + (Fixed32s(offsets) + (Fixed32(|data|) + [BASE_LG]))
  }

  ghost predicate IsFilterBlock(p: Policy, block: Bytes, added: seq<Added>) {
    exists data, offsets :: |data| < TWO32 && Covered(p, data, offsets, [], added) && block == Layout(data, offsets)
  }

  // ----- The reader

  /** On any bytes: the two words for the offset name an empty range, or a range within the filters that the
      policy says does not hold the key. */
  ghost predicate Rejects(p: Policy, block: Bytes, offset: nat, key: Bytes) {
    var n := |block|;
    && n >= 5
    && var last := WordAt(block, n - 5);
       var i := offset / Shift(block[n - 1] as int);
       && last <= n - 5 && i < (n - 5 - last) / 4
       && var start, limit := WordAt(block, last + i * 4), WordAt(block, last + i * 4 + 4);
          if start <= limit <= last then !p.matches(key, block[start..limit]) else start == limit
  }

  /** Whether the key may be in the data block at `offset`. Bytes that are too short, an index beyond the
      offsets and a range that is reversed or ends too late count as a match; an empty range never does. */
  method KeyMayMatch(p: Policy, block: Bytes, offset: nat, key: Bytes, ghost added: seq<Added>) returns (r: bool)
    ensures r <==> !Rejects(p, block, offset, key)
    ensures IsFilterBlock(p, block, added) && Added(offset, key) in added ==> r
  {
    hide IsFilterBlock, WordAt, Shift;
    if IsFilterBlock(p, block, added) && Added(offset, key) in added {
      BlockReads(p, block, added, offset, key);
    }
    var n := |block|;
    if n < 5 {
      return true;
    }
    var lg, last := block[n - 1], WordAt(block, n - 5);
    if last > n - 5 {
      return true;
    }
    var num := (n - 5 - last) / 4;
    var index := offset / Shift(lg as int);
    if index < num {
      var start, limit := WordAt(block, last + index * 4), WordAt(block, last + index * 4 + 4);
      if start <= limit && limit <= last {
        return p.matches(key, block[start..limit]);
      } else if start == limit {
        return false;
      }
    }
    return true;
  }

  function WordAt(b: Bytes, at: nat): nat
    requires at + 4 <= |b|
  {
    ReadFixed32(b[at..])
  }

  function Shift(lg: nat): (r: nat)
    ensures r > 0
  {
    if lg == 0 then 1 else 2 * Shift(lg - 1)
  }

  /** The filter that a reader looks up for an added key lets it through. */
  lemma BlockReads(p: Policy, block: Bytes, added: seq<Added>, offset: nat, key: Bytes)
    requires IsFilterBlock(p, block, added) && Added(offset, key) in added
    ensures |block| >= 5 && Shift(block[|block| - 1] as int) == BASE
    ensures var last := WordAt(block, |block| - 5);
            var i := offset / BASE;
            && last <= |block| - 5 && i < (|block| - 5 - last) / 4
            && var start, limit := WordAt(block, last + i * 4), WordAt(block, last + i * 4 + 4);
               start <= limit <= last && p.matches(key, block[start..limit])
  {
    hide WordAt, Layout, Shift;
    var data, offsets :| |data| < TWO32 && Covered(p, data, offsets, [], added) && block == Layout(data, offsets);
    var x := Added(offset, key);
    assert CoveredAt(p, data, offsets, [], x);
    LayoutEnds(data, offsets);
    LayoutReads(data, offsets, offset / BASE);
  }

  lemma LayoutEnds(data: Bytes, offsets: seq<nat>)
    requires |data| < TWO32 && Placed(data, offsets)
    ensures var block := Layout(data, offsets);
            && |block| == |data| + 4 * |offsets| + 5 && block[|block| - 1] == BASE_LG
            && WordAt(block, |block| - 5) == |data|
    ensures Shift(BASE_LG as int) == BASE
  {
    hide Fixed32, ReadFixed32;
    var block := Layout(data, offsets);
    Fixed32Length(offsets);
    assert block[|block| - 5..] == Fixed32(|data|) + [BASE_LG];
    Fixed32RoundTrip(|data|, [BASE_LG]);
    assert Shift(11) == 2048;
  }

  lemma LayoutReads(data: Bytes, offsets: seq<nat>, i: nat)
    requires |data| < TWO32 && Placed(data, offsets) && i < |offsets|
    ensures var block := Layout(data, offsets);
            && |block| == |data| + 4 * |offsets| + 5
            && WordAt(block, |data| + i * 4) == offsets[i]
            && WordAt(block, |data| + i * 4 + 4) == (if i + 1 < |offsets| then offsets[i + 1] else |data|)
            && block[offsets[i]..(if i + 1 < |offsets| then offsets[i + 1] else |data|)] == FilterAt(data, offsets, i)
  {
    hide Fixed32, ReadFixed32, Fixed32s;
    var end := Fixed32(|data|) + [BASE_LG];
    Fixed32Length(offsets);
    OffsetReads(data, offsets, end, i);
    if i + 1 < |offsets| {
      OffsetReads(data, offsets, end, i + 1);
    } else {
      Seqs.DropPrefix(data, Fixed32s(offsets) + end, 4 * |offsets|);
      Seqs.DropPrefix(Fixed32s(offsets), end, 0);
      Fixed32RoundTrip(|data|, [BASE_LG]);
    }
  }

  lemma {:induction false} OffsetReads(data: Bytes, offsets: seq<nat>, end: Bytes, i: nat)
    requires i < |offsets| && (forall j :: 0 <= j < |offsets| ==> offsets[j] < TWO32) && |end| == 5
    ensures |Fixed32s(offsets)| == 4 * |offsets|
    ensures WordAt(data + (Fixed32s(offsets) + end), |data| + 4 * i) == offsets[i]
  {
    hide ReadFixed32, Fixed32s;
    Fixed32At(offsets, end, i);
    Seqs.DropPrefix(data, Fixed32s(offsets) + end, 4 * i);
  }
}
