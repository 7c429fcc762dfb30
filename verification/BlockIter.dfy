/** The block iterator: over a finished block it is a cursor on the entries that were added; over any
    bytes it stops. */
module BlockIter {
  import opened Keys
  import opened LogFormat
  import opened Varints
  import opened Blocks
  import Seqs

  datatype Header = Header(shared: nat, nonShared: nat, valueLength: nat, rest: Bytes)

  /** The three lengths in front of an entry, with the one-byte fast path. */
  function DecodeEntry(b: Bytes): (r: Option<Header>)
    ensures r.Some? ==> |r.value.rest| < |b| && r.value.nonShared + r.value.valueLength <= |r.value.rest|
  {
    if |b| < 3 then None
    else if b[0] < 128 && b[1] < 128 && b[2] < 128 then Bounded(Header(b[0], b[1], b[2], b[3..]))
    else
      var s := GetVarint32(b);
      if s.None? then None
      else
        var n := GetVarint32(s.value.rest);
        if n.None? then None
        else
          var v := GetVarint32(n.value.rest);
          if v.None? then None else Bounded(Header(s.value.value, n.value.value, v.value.value, v.value.rest))
  }

  function Bounded(h: Header): Option<Header> {
    if |h.rest| < h.nonShared + h.valueLength then None else Some(h)
  }

  /** A written entry decodes to its lengths, on either path. */
  lemma EntryDecodes(shared: nat, e: Pair, more: Bytes)
    requires shared <= |e.key| < TWO32 && |e.value| < TWO32
    ensures DecodeEntry(EntryBytes(shared, e) + more) ==
              Some(Header(shared, |e.key| - shared, |e.value|, (e.key[shared..] + e.value) + more))
  {
    hide Varint, DecodeEntry;
    var body := e.key[shared..] + e.value;
    Seqs.Assoc(Varint(shared), Varint(|e.key| - shared) + (Varint(|e.value|) + body), more);
    Seqs.Assoc(Varint(|e.key| - shared), Varint(|e.value|) + body, more);
    Seqs.Assoc(Varint(|e.value|), body, more);
    LengthsDecode(shared, |e.key| - shared, |e.value|, body + more);
  }

  lemma {:induction false} LengthsDecode(s: nat, n: nat, v: nat, rest: Bytes)
    requires s < TWO32 && n < TWO32 && v < TWO32 && n + v <= |rest|
    ensures DecodeEntry(Varint(s) + (Varint(n) + (Varint(v) + rest))) == Some(Header(s, n, v, rest))
  {
    hide Varint, GetVarint32;
    var c := Varint(v) + rest;
    var b := Varint(n) + c;
    GetVarint32Reads(s, b);
    GetVarint32Reads(n, c);
    GetVarint32Reads(v, rest);
    FirstByte(s, b);
    FirstByte(n, c);
    FirstByte(v, rest);
    var all := Varint(s) + b;
    if s < 128 && n < 128 && v < 128 {
      assert all[3..] == rest;
    } else {
      NotFast(s, n, v, rest);
    }
  }

  /** A length of 128 or more shows among the first three bytes. */
  lemma {:induction false} NotFast(s: nat, n: nat, v: nat, rest: Bytes)
    requires s >= 128 || n >= 128 || v >= 128
    ensures var all := Varint(s) + (Varint(n) + (Varint(v) + rest));
            |all| >= 3 && (all[0] >= 128 || all[1] >= 128 || all[2] >= 128)
  {
    hide Varint;
    var c := Varint(v) + rest;
    var b := Varint(n) + c;
    var all := Varint(s) + b;
    FirstByte(s, b);
    FirstByte(n, c);
    FirstByte(v, rest);
    if s < 128 {
      assert all[1] == b[0];
      if n < 128 {
        assert all[2] == c[0];
      }
    }
  }

  /** A varint shows in its first byte whether it is one byte long. */
  lemma {:induction false} FirstByte(n: nat, rest: Bytes)
    ensures |Varint(n)| > 0 && (n < 128 ==> Varint(n) == [n]) && (n >= 128 ==> (Varint(n) + rest)[0] >= 128)
  {
  }

  // ----- Where the entries of a finished block are

  lemma {:induction false} EntryAtOffset(starts: seq<nat>, es: seq<Pair>, i: nat)
    requires i < |es|
    ensures var all := Buffer(starts, es, |es|);
            && Offset(starts, es, i) <= Offset(starts, es, i + 1) <= |all|
            && all[Offset(starts, es, i)..] == EntryBytes(Shared(starts, es, i), es[i]) +
                all[Offset(starts, es, i + 1)..]
  {
    hide Buffer, EntryBytes;
    OffsetsGrow(starts, es, i, i + 1);
    OffsetsGrow(starts, es, i + 1, |es|);
    BufferUnfolds(starts, es, i + 1);
    CutPrefix(Buffer(starts, es, |es|), Buffer(starts, es, i), EntryBytes(Shared(starts, es, i), es[i]));
  }

  lemma CutPrefix(all: Bytes, a: Bytes, b: Bytes)
    requires a + b <= all
    ensures all[|a|..] == b + all[|a + b|..]
  {
  }

  lemma {:induction false} KeyFits(starts: seq<nat>, es: seq<Pair>, i: nat)
    requires i < |es|
    ensures |es[i].key| <= Offset(starts, es, i + 1) && |es[i].value| <= Offset(starts, es, i + 1)
  {
    hide Buffer;
    BufferUnfolds(starts, es, i + 1);
    if i > 0 {
      KeyFits(starts, es, i - 1);
    }
  }

  /** The entries and restart points are where the trailer says. */
  ghost predicate Laid(data: Bytes, restarts: nat, numRestarts: nat, starts: seq<nat>, es: seq<Pair>)
    requires restarts + 4 * numRestarts <= |data|
  {
    && Starts(starts, |es|) && numRestarts == |starts|
    && restarts == Offset(starts, es, |es|) < TWO32 && data[..restarts] == Buffer(starts, es, |es|)
    && forall j :: 0 <= j < numRestarts ==>
         starts[j] <= |es| && RestartPoint(data, restarts, j) == Offset(starts, es, starts[j])
  }

  function RestartPoint(data: Bytes, restarts: nat, j: nat): nat
    requires restarts + 4 * j + 4 <= |data|
  {
    ReadFixed32(data[restarts + 4 * j..])
  }

  lemma {:induction false} Fixed32At(ns: seq<nat>, more: Bytes, j: nat)
    requires (forall i :: 0 <= i < |ns| ==> ns[i] < TWO32) && j < |ns|
    ensures |Fixed32s(ns)| == 4 * |ns| && ReadFixed32((Fixed32s(ns) + more)[4 * j..]) == ns[j]
  {
    hide Fixed32, ReadFixed32;
    var n := |ns| - 1;
    Fixed32Length(ns[..n]);
    var before := Fixed32s(ns[..n]);
    Seqs.Assoc(before, Fixed32(ns[n]), more);
    if j == n {
      assert (before + (Fixed32(ns[n]) + more))[4 * j..] == Fixed32(ns[n]) + more;
      Fixed32RoundTrip(ns[n], more);
    } else {
      Fixed32At(ns[..n], Fixed32(ns[n]) + more, j);
    }
  }

  lemma {:induction false} Fixed32Length(ns: seq<nat>)
    requires forall i :: 0 <= i < |ns| ==> ns[i] < TWO32
    ensures |Fixed32s(ns)| == 4 * |ns|
  {
    if ns != [] {
      Fixed32Length(ns[..|ns| - 1]);
    }
  }

  /** A finished block names its restart points at its end. */
  lemma BlockIsLaid(block: Bytes, starts: seq<nat>, es: seq<Pair>)
    requires IsBlock(block, starts, es)
    ensures |block| >= 4
    ensures var n := ReadFixed32(block[|block| - 4..]);
            && n == |starts| > 0 && 4 + 4 * n <= |block|
            && Laid(block, |block| - 4 - 4 * n, n, starts, es)
  {
    hide Fixed32, ReadFixed32, Buffer;
    var restarts :| RestartsOf(restarts, starts, es) && |restarts| < TWO32 && |Buffer(starts, es, |es|)| < TWO32 &&
      (forall j :: 0 <= j < |restarts| ==> restarts[j] < TWO32) && block == Block(Buffer(starts, es, |es|), restarts);
    var all, trailer := Buffer(starts, es, |es|), Fixed32s(restarts);
    Fixed32Length(restarts);
    assert block[|block| - 4..] == Fixed32(|restarts|) + [];
    Fixed32RoundTrip(|restarts|, []);
    assert block[..|all|] == all;
    forall j | 0 <= j < |restarts|
      ensures RestartPoint(block, |all|, j) == restarts[j]
    {
      Fixed32At(restarts, Fixed32(|restarts|), j);
      Seqs.DropPrefix(all, trailer + Fixed32(|restarts|), 4 * j);
    }
  }

  /** Parsing at `p` with this key so far yields `e` and ends at `end`. */
  ghost predicate Parses(data: Bytes, restarts: nat, p: nat, key: Bytes, e: Pair, end: nat)
    requires p <= restarts <= |data|
  {
    var h := DecodeEntry(data[p..restarts]);
    && h.Some? && h.value.shared <= |key| && key[..h.value.shared] + h.value.rest[..h.value.nonShared] == e.key
    && var at := restarts - |h.value.rest| + h.value.nonShared;
       at + h.value.valueLength == end && data[at..end] == e.value
  }

  lemma EntryParses(data: Bytes, restarts: nat, numRestarts: nat, starts: seq<nat>, es: seq<Pair>, n: nat, key: Bytes)
    requires restarts + 4 * numRestarts <= |data| && Laid(data, restarts, numRestarts, starts, es) && n < |es|
    requires HasPrefix(key, starts, es, n)
    ensures Offset(starts, es, n) < Offset(starts, es, n + 1) <= restarts
    ensures Parses(data, restarts, Offset(starts, es, n), key, es[n], Offset(starts, es, n + 1))
  {
    hide Buffer, DecodeEntry, EntryBytes, RestartPoint;
    var all, p, e, shared := Buffer(starts, es, |es|), Offset(starts, es, n), es[n], Shared(starts, es, n);
    EntryAtOffset(starts, es, n);
    OffsetsGrow(starts, es, n, n + 1);
    OffsetsGrow(starts, es, n + 1, |es|);
    KeyFits(starts, es, n);
    var more := all[Offset(starts, es, n + 1)..];
    EntryDecodes(shared, e, more);
    PrefixSlice(data, all, p);
    EntryTail(shared, e);
    ValueInPlace(data, all, more, e.key[shared..], e.value, restarts, p, EntryBytes(shared, e));
    TailJoin(e.key, shared, e.value, more);
  }

  lemma PrefixSlice(data: Bytes, all: Bytes, p: nat)
    requires p <= |all| <= |data| && data[..|all|] == all
    ensures data[p..|all|] == all[p..]
  {
  }

  lemma TailJoin(key: Bytes, shared: nat, value: Bytes, more: Bytes)
    requires shared <= |key|
    ensures ((key[shared..] + value) + more)[..|key| - shared] == key[shared..] && key[..shared] + key[shared..] == key
  {
  }

  lemma EntryTail(shared: nat, e: Pair)
    requires shared <= |e.key|
    ensures var b, tail := EntryBytes(shared, e), e.key[shared..] + e.value;
            |tail| <= |b| && b[|b| - |tail|..] == tail
  {
    var tail := e.key[shared..] + e.value;
    var front := Varint(shared) + Varint(|e.key| - shared) + Varint(|e.value|);
    assert EntryBytes(shared, e) == front + tail;
  }

  lemma ValueInPlace(data: Bytes, all: Bytes, more: Bytes, delta: Bytes, value: Bytes, restarts: nat, p: nat,
                     entry: Bytes)
    requires restarts == |all| <= |data| && data[..restarts] == all && p <= |all| && all[p..] == entry + more
    requires |delta + value| <= |entry| && entry[|entry| - |delta + value|..] == delta + value
    ensures var at := restarts - |(delta + value) + more| + |delta|;
            0 <= at && at + |value| + |more| == restarts && data[at..at + |value|] == value
  {
    var at := restarts - |(delta + value) + more| + |delta|;
    var skip := |entry| - |delta + value|;
    assert |all| == p + |entry| + |more|;
    forall i | 0 <= i < |value|
      ensures data[at + i] == value[i]
    {
      assert data[at + i] == all[at + i] == all[p..][at + i - p];
      assert entry[skip + |delta| + i] == (delta + value)[|delta| + i];
    }
  }

  /** The key so far begins with what entry `n` shares with its predecessor. */
  ghost predicate HasPrefix(key: Bytes, starts: seq<nat>, es: seq<Pair>, n: nat)
    requires n < |es|
  {
    var shared := Shared(starts, es, n);
    shared <= |key| && key[..shared] == es[n].key[..shared]
  }

  lemma PrefixAfter(starts: seq<nat>, es: seq<Pair>, n: nat)
    requires n + 1 < |es|
    ensures HasPrefix(es[n].key, starts, es, n + 1)
  {
  }

  lemma PrefixAtStart(starts: seq<nat>, es: seq<Pair>, j: nat)
    requires j < |starts| && starts[j] < |es|
    ensures HasPrefix([], starts, es, starts[j])
  {
  }

  /** A strict order on keys. */
  ghost predicate Order(less: (Bytes, Bytes) -> bool) {
    forall a, b, c :: less(a, b) && less(b, c) ==> less(a, c)
  }

  ghost predicate Ascending(less: (Bytes, Bytes) -> bool, es: seq<Pair>) {
    Order(less) && forall i, j :: 0 <= i < j < |es| ==> less(es[i].key, es[j].key)
  }

  /** `n` is the first entry at or after `target`. */
  ghost predicate IsSeek(less: (Bytes, Bytes) -> bool, es: seq<Pair>, target: Bytes, n: nat) {
    && n <= |es| && (forall j :: 0 <= j < n ==> less(es[j].key, target))
    && (n < |es| ==> !less(es[n].key, target))
  }

  class Iter {
    const less: (Bytes, Bytes) -> bool
    const data: Bytes
    const restarts: nat
    const numRestarts: nat
    var current: nat
    var restartIndex: nat
    var key: Bytes
    var valueAt: nat
    var valueLength: nat
    var corrupt: bool
    /** Whether the bytes are a finished block, and of which entries. */
    ghost const good: bool
    ghost const es: seq<Pair>
    ghost const starts: seq<nat>
    /** The cursor: an index into the entries, or their number. */
    ghost var at: nat

    ghost predicate Shape()
      reads this
    {
      && numRestarts > 0 && restarts + 4 * numRestarts <= |data|
      && (good ==> Laid(data, restarts, numRestarts, starts, es) && !corrupt)
    }

    predicate Valid()
      reads this
    {
      current < restarts
    }

    function NextEntryOffset(): nat
      reads this
    {
      valueAt + valueLength
    }

    ghost predicate Inv()
      reads this
    {
      && Shape()
      && (Valid() ==> restartIndex < numRestarts && current < NextEntryOffset() <= restarts)
      && (good ==> at <= |es| && (Valid() <==> at < |es|) && (at < |es| ==> Holds(at)))
    }

    ghost predicate Holds(i: nat)
      requires Shape() && good && i < |es|
      reads this
    {
      && current == Offset(starts, es, i) && NextEntryOffset() == Offset(starts, es, i + 1) <= |data|
      && key == es[i].key && data[valueAt..NextEntryOffset()] == es[i].value
      && restartIndex < |starts| && starts[restartIndex] <= i && (restartIndex + 1 < |starts| ==>
          i <= starts[restartIndex + 1])
    }

    /** The next entry to parse is `n`. */
    ghost predicate Ready(n: nat)
      requires Shape() && good
      reads this
    {
      && n <= |es| && NextEntryOffset() == Offset(starts, es, n)
      && (n < |es| ==> HasPrefix(key, starts, es, n) && restartIndex < |starts| && starts[restartIndex] <= n)
    }

    constructor (less: (Bytes, Bytes) -> bool, data: Bytes, restarts: nat, numRestarts: nat, ghost good: bool,
                 ghost starts: seq<nat>, ghost es: seq<Pair>)
      requires numRestarts > 0 && restarts + 4 * numRestarts <= |data|
      requires good ==> Laid(data, restarts, numRestarts, starts, es)
      ensures Inv() && !Valid() && this.good == good && this.es == es && this.less == less && at == |es|
    {
      this.less, this.data, this.restarts, this.numRestarts := less, data, restarts, numRestarts;
      current, restartIndex, key, valueAt, valueLength, corrupt := restarts, numRestarts, [], 0, 0, false;
      this.good, this.starts, this.es, at := good, starts, es, |es|;
    }

    method SeekToRestartPoint(j: nat)
      requires Shape() && j < numRestarts
      modifies this`key, this`restartIndex, this`valueAt, this`valueLength
      ensures Shape() && restartIndex == j && (good ==> Ready(starts[j]))
      ensures NextEntryOffset() == RestartPoint(data, restarts, j)
    {
      hide Buffer, RestartPoint;
      key, restartIndex := [], j;
      valueAt, valueLength := RestartPoint(data, restarts, j), 0;
      if good && starts[j] < |es| {
        PrefixAtStart(starts, es, j);
      }
    }

    method Mark(ghost n: nat)
      requires Shape() && (good ==> n == |es|)
      modifies this
      ensures Inv() && !Valid() && at == n && key == old(key) && corrupt == old(corrupt)
    {
      current, restartIndex, at := restarts, numRestarts, n;
    }

    /** The restart index follows the entry. */
    method FollowRestarts(ghost n: nat)
      requires Shape() && restartIndex < numRestarts
      requires good ==> n < |es| && current == Offset(starts, es, n) && starts[restartIndex] <= n
      modifies this`restartIndex
      ensures Shape() && restartIndex < numRestarts
      ensures good ==> starts[restartIndex] <= n && (restartIndex + 1 < |starts| ==> n <= starts[restartIndex + 1])
    {
      hide Buffer, RestartPoint;
      while restartIndex + 1 < numRestarts && RestartPoint(data, restarts, restartIndex + 1) < current
        invariant Shape() && restartIndex < numRestarts && (good ==> starts[restartIndex] <= n)
        decreases numRestarts - restartIndex
      {
        if good {
          OffsetOrder(starts, es, n, starts[restartIndex + 1]);
        }
        restartIndex := restartIndex + 1;
      }
      if good && restartIndex + 1 < numRestarts {
        OffsetOrder(starts, es, n, starts[restartIndex + 1]);
      }
    }

    method ParseNextKey(ghost n: nat) returns (ok: bool)
      requires Shape() && restartIndex < numRestarts && (good ==> Ready(n))
      modifies this
      ensures Inv() && ok == Valid() && (good ==> at == n)
      ensures ok ==> NextEntryOffset() > old(NextEntryOffset())
    {
      hide Buffer, RestartPoint, DecodeEntry, HasPrefix;
      current := NextEntryOffset();
      if good {
        EntryOrEnd(n);
      }
      if current >= restarts {
        Mark(n);
        return false;
      }
      var h := DecodeEntry(data[current..restarts]);
      if h.None? || |key| < h.value.shared {
        current, restartIndex, corrupt, key, valueAt, valueLength, at := restarts, numRestarts, true, [], 0, 0, n;
        return false;
      }
      key := key[..h.value.shared] + h.value.rest[..h.value.nonShared];
      valueAt, valueLength := restarts - |h.value.rest| + h.value.nonShared, h.value.valueLength;
      at := n;
      FollowRestarts(n);
      return true;
    }

    lemma EntryOrEnd(n: nat)
      requires Shape() && good && Ready(n)
      ensures n == |es| ==> NextEntryOffset() == restarts
      ensures n < |es| ==>
                && NextEntryOffset() < Offset(starts, es, n + 1) <= restarts
                && Parses(data, restarts, NextEntryOffset(), key, es[n], Offset(starts, es, n + 1))
    {
      hide Buffer, RestartPoint, DecodeEntry, HasPrefix, Parses;
      if n < |es| {
        EntryParses(data, restarts, numRestarts, starts, es, n, key);
      }
    }

    lemma ReadyAfter(n: nat)
      requires Inv() && good && n < |es| && Holds(n)
      ensures Ready(n + 1)
    {
      hide Buffer, RestartPoint;
      if n + 1 < |es| {
        PrefixAfter(starts, es, n);
      }
    }

    method Next()
      requires Inv() && Valid()
      modifies this
      ensures Inv() && (good ==> at == old(at) + 1)
    {
      hide Buffer, RestartPoint, HasPrefix, Laid;
      ghost var n := at + 1;
      if good {
        ReadyAfter(at);
      }
      var ok := ParseNextKey(n);
    }

    /** Back to a restart point before the entry, then forward to the one before it. */
    method Prev()
      requires Inv() && Valid()
      modifies this
      ensures Inv() && (good ==> at == if old(at) == 0 then |es| else old(at) - 1)
    {
      hide Buffer, RestartPoint, HasPrefix;
      var original := current;
      ghost var i := at;
      while RestartPoint(data, restarts, restartIndex) >= original
        invariant Shape() && restartIndex < numRestarts && current == original
        invariant good ==> i < |es| && original == Offset(starts, es, i) && (restartIndex + 1 < |starts| ==>
                    i <= starts[restartIndex + 1])
        decreases restartIndex
      {
        if good {
          OffsetOrder(starts, es, i, starts[restartIndex]);
        }
        if restartIndex == 0 {
          Mark(|es|);
          return;
        }
        restartIndex := restartIndex - 1;
      }
      if good {
        OffsetOrder(starts, es, i, starts[restartIndex]);
      }
      ghost var n: nat := if good then starts[restartIndex] else 0;
      SeekToRestartPoint(restartIndex);
      ScanTo(original, n, i);
    }

    /** Parses on until the entry that ends at or after `original`. */
    method ScanTo(original: nat, ghost first: nat, ghost i: nat)
      requires Shape() && restartIndex < numRestarts
      requires good ==> i <= |es| && first < i && original == Offset(starts, es, i) && Ready(first)
      modifies this
      ensures Inv() && (good ==> at == i - 1)
    {
      hide Buffer, RestartPoint, HasPrefix;
      ghost var n: nat := first;
      while true
        invariant Shape() && restartIndex < numRestarts && (good ==> n < i && Ready(n))
        decreases if NextEntryOffset() <= restarts then restarts - NextEntryOffset() else 0
      {
        var ok := ParseNextKey(n);
        if good {
          OffsetOrder(starts, es, i, n + 1);
        }
        if !ok || NextEntryOffset() >= original {
          return;
        }
        if good {
          ReadyAfter(n);
        }
        n := n + 1;
      }
    }

    method SeekToFirst()
      requires Inv()
      modifies this
      ensures Inv() && (good ==> at == 0)
    {
      hide Buffer, RestartPoint, HasPrefix;
      SeekToRestartPoint(0);
      var ok := ParseNextKey(0);
    }

    method SeekToLast()
      requires Inv()
      modifies this
      ensures Inv() && (good ==> at == if es == [] then 0 else |es| - 1)
    {
      hide Buffer, RestartPoint, HasPrefix;
      SeekToRestartPoint(numRestarts - 1);
      ghost var n: nat := if good then starts[numRestarts - 1] else 0;
      if good && es == [] {
        assert n == 0;
      }
      if NextEntryOffset() >= restarts {
        var ok := ParseNextKey(n);
      } else {
        if good {
          OffsetOrder(starts, es, |es|, n);
        }
        ScanTo(restarts, n, |es|);
      }
    }

    /** The last restart point whose key is before the target, by binary search. */
    method FindRestart(target: Bytes) returns (left: Option<nat>)
      requires Inv() && (good ==> Ascending(less, es))
      ensures left.Some? ==> left.value < numRestarts
      ensures good ==>
                left.Some? && (left.value > 0 ==> starts[left.value] < |es| && less(es[starts[left.value]].key, target))
    {
      hide Buffer, HasPrefix, DecodeEntry, Ascending;
      var lo: nat, hi: nat := 0, numRestarts - 1;
      while lo < hi
        invariant lo <= hi < numRestarts
        invariant good && lo > 0 ==> starts[lo] < |es| && less(es[starts[lo]].key, target)
      {
        var mid: nat := (lo + hi + 1) / 2;
        var region := RestartPoint(data, restarts, mid);
        if good {
          PrefixAtStart(starts, es, mid);
          EntryParses(data, restarts, numRestarts, starts, es, starts[mid], []);
        }
        var h := if region <= restarts then DecodeEntry(data[region..restarts]) else None;
        if h.None? || h.value.shared != 0 {
          return None;
        }
        var midKey := h.value.rest[..h.value.nonShared];
        assert good ==> midKey == es[starts[mid]].key by {
          assert [] + midKey == midKey;
        }
        if less(midKey, target) {
          lo := mid;
        } else {
          hi := mid - 1;
        }
      }
      return Some(lo);
    }

    method Seek(target: Bytes)
      requires Inv() && (good ==> Ascending(less, es))
      modifies this
      ensures Inv() && (good ==> IsSeek(less, es, target, at))
    {
      hide Buffer, RestartPoint, HasPrefix;
      var left := FindRestart(target);
      if left.None? {
        current, restartIndex, corrupt, key, valueAt, valueLength := restarts, numRestarts, true, [], 0, 0;
        return;
      }
      SeekToRestartPoint(left.value);
      ghost var n: nat := if good then starts[left.value] else 0;
      while true
        invariant Shape() && restartIndex < numRestarts
        invariant good ==> Ready(n) && forall j :: 0 <= j < n ==> less(es[j].key, target)
        decreases if NextEntryOffset() <= restarts then restarts - NextEntryOffset() else 0
      {
        var ok := ParseNextKey(n);
        if !ok || !less(key, target) {
          return;
        }
        if good {
          ReadyAfter(n);
        }
        n := n + 1;
      }
    }
  }

  /** The bytes have room for the restart points that they claim, and claim at least one. */
  ghost predicate Opens(block: Bytes) {
    |block| >= 4 && 0 < ReadFixed32(block[|block| - 4..]) <= (|block| - 4) / 4
  }

  /** Opens an iterator over a block read from a file; none if the bytes cannot be a block, or if the
      block has no restart points. */
  method Open(less: (Bytes, Bytes) -> bool, block: Bytes, ghost starts: seq<nat>, ghost es: seq<Pair>)
    returns (r: Option<Iter>)
    ensures r.Some? <==> Opens(block)
    ensures r.Some? ==> r.value.Inv() && fresh(r.value) && r.value.less == less
    ensures IsBlock(block, starts, es) ==> r.Some? && r.value.good && r.value.es == es
  {
    hide IsBlock, Laid, ReadFixed32;
    ghost var good := IsBlock(block, starts, es);
    if good {
      BlockIsLaid(block, starts, es);
    }
    if |block| < 4 {
      return None;
    }
    var n := ReadFixed32(block[|block| - 4..]);
    if n > (|block| - 4) / 4 || n == 0 {
      return None;
    }
    var it := new Iter(less, block, |block| - 4 - 4 * n, n, good, starts, es);
    return Some(it);
  }

  lemma OffsetOrder(starts: seq<nat>, es: seq<Pair>, m: nat, n: nat)
    requires m <= |es| && n <= |es|
    ensures Offset(starts, es, n) < Offset(starts, es, m) <==> n < m
  {
    hide Buffer;
    if n < m {
      OffsetsGrow(starts, es, n, m);
    } else {
      OffsetsGrow(starts, es, m, n);
    }
  }
}
