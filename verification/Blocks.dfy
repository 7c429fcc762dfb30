/** Prefix-compressed blocks with restart points: the builder's layout and the iterator over it. */
module Blocks {
  import opened Keys
  import opened LogFormat
  import opened Varints
  import Seqs

  datatype Pair = Pair(key: Bytes, value: Bytes)

  // ----- Five-byte varints

  function Raw32(b: Bytes, k: nat): (r: Option<Read>)
    ensures r.Some? ==> |r.value.rest| < |b|
    decreases |b|
  {
    if k >= 5 || b == [] then None
    else if b[0] < 128 then Some(Read(b[0], b[1..]))
    else Prepend(b[0] as int - 128, Raw32(b[1..], k + 1))
  }

  /** Bits beyond the 32nd are lost. */
  function GetVarint32(b: Bytes): (r: Option<Read>)
    ensures r.Some? ==> |r.value.rest| < |b|
  {
    var r := Raw32(b, 0);
    if r.None? then None else Some(r.value.(value := r.value.value % TWO32))
  }

  lemma {:induction false} Raw32Reads(n: nat, k: nat, rest: Bytes)
    requires k <= 4 && n < Room32(k)
    ensures Raw32(Varint(n) + rest, k) == Some(Read(n, rest))
    decreases 4 - k
  {
    var b := Varint(n) + rest;
    if n < 128 {
      assert b[1..] == rest;
    } else {
      assert b[1..] == Varint(n / 128) + rest;
      Raw32Reads(n / 128, k + 1, rest);
    }
  }

  lemma {:induction false} GetVarint32Reads(n: nat, rest: Bytes)
    requires n < TWO32
    ensures GetVarint32(Varint(n) + rest) == Some(Read(n, rest))
  {
    Raw32Reads(n, 0, rest);
  }

  // ----- Layout

  /** Length of the longest common prefix. */
  function Common(a: Bytes, b: Bytes): (n: nat)
    ensures n <= |a| && n <= |b| && a[..n] == b[..n]
    ensures n < |a| && n < |b| ==> a[n] != b[n]
  {
    if a == [] || b == [] || a[0] != b[0] then 0
    else
      var n := Common(a[1..], b[1..]);
      assert a[..1 + n] == [a[0]] + a[1..][..n] && b[..1 + n] == [b[0]] + b[1..][..n];
      1 + n
  }

  /** Bytes of the previous key that entry `i` reuses: none at a restart point. */
  function Shared(starts: seq<nat>, es: seq<Pair>, i: nat): (n: nat)
    requires i < |es|
    ensures n <= |es[i].key|
  {
    if i == 0 || i in starts then 0 else Common(es[i - 1].key, es[i].key)
  }

  function EntryBytes(shared: nat, e: Pair): Bytes
    requires shared <= |e.key|
  {
    Varint(shared) + (Varint(|e.key| - shared) + (Varint(|e.value|) + (e.key[shared..] + e.value)))
  }

  /** The first `n` entries. */
  function Buffer(starts: seq<nat>, es: seq<Pair>, n: nat): Bytes
    requires n <= |es|
  {
    if n == 0 then [] else Buffer(starts, es, n - 1) + EntryBytes(Shared(starts, es, n - 1), es[n - 1])
  }

  function Offset(starts: seq<nat>, es: seq<Pair>, n: nat): nat
    requires n <= |es|
  {
    |Buffer(starts, es, n)|
  }

  function Fixed32s(ns: seq<nat>): Bytes
    requires forall i :: 0 <= i < |ns| ==> ns[i] < TWO32
  {
    if ns == [] then [] else Fixed32s(ns[..|ns| - 1]) + Fixed32(ns[|ns| - 1])
  }

  /** Entries that begin at a restart point: the first, then some later ones in order. */
  ghost predicate Starts(starts: seq<nat>, n: nat) {
    && |starts| > 0 && starts[0] == 0
    && (forall j, l :: 0 <= j < l < |starts| ==> starts[j] < starts[l])
    && (forall j :: 0 < j < |starts| ==> starts[j] < n)
  }

  /** `restarts` are the offsets of the entries at `starts`. */
  ghost predicate RestartsOf(restarts: seq<nat>, starts: seq<nat>, es: seq<Pair>) {
    && Starts(starts, |es|) && |restarts| == |starts|
    && forall j :: 0 <= j < |starts| ==> starts[j] <= |es| && restarts[j] == Offset(starts, es, starts[j])
  }

  lemma {:induction false} OffsetsGrow(starts: seq<nat>, es: seq<Pair>, m: nat, n: nat)
    requires m <= n <= |es|
    ensures Offset(starts, es, m) + (n - m) <= Offset(starts, es, n)
    ensures Buffer(starts, es, m) <= Buffer(starts, es, n)
  {
    hide EntryBytes, Buffer;
    if m < n {
      OffsetsGrow(starts, es, m, n - 1);
      BufferUnfolds(starts, es, n);
      EntryNotEmpty(Shared(starts, es, n - 1), es[n - 1]);
    }
  }

  lemma BufferUnfolds(starts: seq<nat>, es: seq<Pair>, n: nat)
    requires 0 < n <= |es|
    ensures Buffer(starts, es, n) == Buffer(starts, es, n - 1) + EntryBytes(Shared(starts, es, n - 1), es[n - 1])
  {
    hide EntryBytes;
  }

  lemma {:induction false} NoBuffer(starts: seq<nat>, es: seq<Pair>)
    ensures Buffer(starts, es, 0) == []
  {
  }

  lemma {:induction false} BufferAdded(starts: seq<nat>, es: seq<Pair>, starts': seq<nat>, e: Pair, shared: nat)
    requires (starts' == starts || starts' == starts + [|es|]) && shared == Shared(starts', es + [e], |es|)
    ensures Buffer(starts', es + [e], |es + [e]|) == Buffer(starts, es, |es|) + EntryBytes(shared, e)
  {
    hide EntryBytes, Buffer, Shared;
    BufferStable(starts, es, starts', e, |es|);
    BufferUnfolds(starts', es + [e], |es| + 1);
  }

  lemma KeyRebuilt(lastKey: Bytes, key: Bytes, shared: nat)
    requires shared <= |lastKey| && shared <= |key| && lastKey[..shared] == key[..shared]
    ensures lastKey[..shared] + key[shared..] == key
  {
  }

  lemma EntryNotEmpty(shared: nat, e: Pair)
    requires shared <= |e.key|
    ensures |EntryBytes(shared, e)| > 0
  {
  }

  /** Earlier entries do not depend on later ones or on later restart points. */
  lemma {:induction false} BufferStable(starts: seq<nat>, es: seq<Pair>, starts': seq<nat>, e: Pair, n: nat)
    requires n <= |es| && (starts' == starts || starts' == starts + [|es|])
    ensures Buffer(starts', es + [e], n) == Buffer(starts, es, n)
  {
    hide EntryBytes, Buffer;
    if n > 0 {
      BufferStable(starts, es, starts', e, n - 1);
      BufferUnfolds(starts, es, n);
      BufferUnfolds(starts', es + [e], n);
      assert n - 1 in starts' <==> n - 1 in starts;
    } else {
      NoBuffer(starts, es);
      NoBuffer(starts', es + [e]);
    }
  }

  /** A restart point at every `interval`-th entry, and at no other. */
  ghost predicate Every(starts: seq<nat>, interval: nat, n: nat) {
    && |starts| > 0 && (forall j :: 0 <= j < |starts| ==> starts[j] == j * interval)
    && starts[|starts| - 1] <= n <= starts[|starts| - 1] + interval
  }

  lemma NotYet(starts: seq<nat>, interval: nat, n: nat)
    requires Every(starts, interval, n) && n < starts[|starts| - 1] + interval
    ensures Every(starts, interval, n + 1)
  {
  }

  lemma NextStart(starts: seq<nat>, interval: nat, n: nat)
    requires Every(starts, interval, n) && n == starts[|starts| - 1] + interval && interval > 0
    ensures Every(starts + [n], interval, n + 1)
  {
    var j := |starts|;
    assert j * interval == (j - 1) * interval + interval;
  }

  // ----- The builder

  class BlockBuilder {
    const interval: nat
    var buffer: Bytes
    var restarts: seq<nat>
    var counter: nat
    var lastKey: Bytes
    ghost var es: seq<Pair>
    ghost var starts: seq<nat>

    ghost predicate Inv()
      reads this
    {
      && buffer == Buffer(starts, es, |es|) && RestartsOf(restarts, starts, es)
      && (es != [] ==> lastKey == es[|es| - 1].key) && (es == [] ==> lastKey == [])
      && 0 < interval && counter <= interval && (es == [] ==> counter == 0)
      && Every(starts, interval, |es|) && counter == |es| - starts[|starts| - 1]
    }

    constructor (interval: nat)
      requires interval >= 1
      ensures Inv() && es == [] && this.interval == interval
    {
      this.interval := interval;
      buffer, restarts, counter, lastKey, es, starts := [], [0], 0, [], [], [0];
    }

    method Add(key: Bytes, value: Bytes)
      requires Inv()
      modifies this
      ensures Inv() && es == old(es) + [Pair(key, value)]
    {
      hide EntryBytes, Buffer, Shared, RestartsOf, Common, Every;
      var e := Pair(key, value);
      ghost var starts0 := starts;
      var shared := 0;
      SharedNext(restarts, starts, es, e, lastKey);
      if counter < interval {
        shared := CommonPrefix(lastKey, key);
        KeepStarts(restarts, starts, es, e);
        NotYet(starts, interval, |es|);
      } else {
        RestartHere(restarts, starts, es, e, |buffer|);
        NextStart(starts, interval, |es|);
        restarts := restarts + [|buffer|];
        starts := starts + [|es|];
        counter := 0;
      }
      BufferAdded(starts0, es, starts, e, shared);
      buffer := buffer + EntryBytes(shared, e);
      es := es + [e];
      KeyRebuilt(lastKey, key, shared);
      lastKey := lastKey[..shared] + key[shared..];
      counter := counter + 1;
    }

    method Finish() returns (block: Bytes)
      requires Inv() && |buffer| < TWO32 && |restarts| < TWO32
      ensures IsBlock(block, starts, es) && Every(starts, interval, |es|)
    {
      hide EntryBytes, Buffer, Shared, Common, Every, Fixed32;
      RestartsFit(restarts, starts, es);
      hide RestartsOf;
      var trailer: Bytes := [];
      for i := 0 to |restarts|
        invariant trailer == Fixed32s(restarts[..i])
      {
        trailer := trailer + Fixed32(restarts[i]);
        assert restarts[..i + 1][..i] == restarts[..i];
      }
      Seqs.WholeSlice(restarts);
      block := buffer + trailer + Fixed32(|restarts|);
      Seqs.Assoc(buffer, trailer, Fixed32(|restarts|));
      assert Block(buffer, restarts) == block;
    }
  }

  /** The scan for the shared prefix. */
  method CommonPrefix(a: Bytes, b: Bytes) returns (n: nat)
    ensures n == Common(a, b)
  {
    n := 0;
    Seqs.WholeSlice(a);
    Seqs.WholeSlice(b);
    while n < |a| && n < |b| && a[n] == b[n]
      invariant n <= |a| && n <= |b| && Common(a, b) == n + Common(a[n..], b[n..])
    {
      Seqs.Advance(a, n);
      Seqs.Advance(b, n);
      n := n + 1;
    }
  }

  ghost function Block(buffer: Bytes, restarts: seq<nat>): Bytes
    requires |restarts| < TWO32 && forall j :: 0 <= j < |restarts| ==> restarts[j] < TWO32
  {
    buffer + (Fixed32s(restarts) + Fixed32(|restarts|))
  }

  /** A finished block of these entries. */
  ghost predicate IsBlock(block: Bytes, starts: seq<nat>, es: seq<Pair>) {
    exists restarts :: RestartsOf(restarts, starts, es) && |restarts| < TWO32 && |Buffer(starts, es, |es|)| < TWO32 &&
      (forall j :: 0 <= j < |restarts| ==> restarts[j] < TWO32) && block == Block(Buffer(starts, es, |es|), restarts)
  }

  lemma RestartsFit(restarts: seq<nat>, starts: seq<nat>, es: seq<Pair>)
    requires RestartsOf(restarts, starts, es) && Offset(starts, es, |es|) < TWO32
    ensures forall j :: 0 <= j < |restarts| ==> restarts[j] < TWO32
  {
    forall j | 0 <= j < |restarts|
      ensures restarts[j] < TWO32
    {
      OffsetsGrow(starts, es, starts[j], |es|);
    }
  }

  /** What the entry after `es` shares, with and without a restart. */
  lemma {:induction false} SharedNext(restarts: seq<nat>, starts: seq<nat>, es: seq<Pair>, e: Pair, lastKey: Bytes)
    requires RestartsOf(restarts, starts, es)
    requires lastKey == if es == [] then [] else es[|es| - 1].key
    ensures Shared(starts, es + [e], |es|) == Common(lastKey, e.key)
    ensures Shared(starts + [|es|], es + [e], |es|) == 0
  {
    assert es != [] ==> |es| !in starts;
  }

  lemma KeepStarts(restarts: seq<nat>, starts: seq<nat>, es: seq<Pair>, e: Pair)
    requires RestartsOf(restarts, starts, es)
    ensures RestartsOf(restarts, starts, es + [e])
  {
    hide Buffer;
    forall j | 0 <= j < |starts|
      ensures restarts[j] == Offset(starts, es + [e], starts[j])
    {
      BufferStable(starts, es, starts, e, starts[j]);
    }
  }

  lemma RestartHere(restarts: seq<nat>, starts: seq<nat>, es: seq<Pair>, e: Pair, offset: nat)
    requires RestartsOf(restarts, starts, es) && offset == Offset(starts, es, |es|) && es != []
    ensures RestartsOf(restarts + [offset], starts + [|es|], es + [e])
  {
    hide Buffer;
    var starts' := starts + [|es|];
    forall j | 0 <= j < |starts'|
      ensures starts'[j] <= |es| && (restarts + [offset])[j] == Offset(starts', es + [e], starts'[j])
    {
      BufferStable(starts, es, starts', e, starts'[j]);
    }
  }
}
