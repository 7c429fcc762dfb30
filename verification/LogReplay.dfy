/** From the bytes of a log back to operations. The writer frames each group's batch as one record; after a
    crash, recovery reads the records that are whole and inserts their updates. The result is always a
    prefix of the operations that were logged, cut where a group ends. */
module LogReplay {
  import opened Keys
  import opened LogFormat
  import opened LogIo
  import opened Varints
  import opened WriteBatches
  import Seqs

  // ----- Batches as records

  datatype Batch = Batch(sequence: nat, us: seq<Update>)

  ghost predicate Writable(b: Batch) {
    b.sequence < TWO64 && |b.us| < TWO32 && forall i :: 0 <= i < |b.us| ==> Loggable(b.us[i])
  }

  /** Sequence number, count and updates. */
  ghost function BatchBytes(b: Batch): Bytes
    requires Writable(b)
  {
    Fixed32(b.sequence % TWO32) + (Fixed32(b.sequence / TWO32) + (Fixed32(|b.us|) + UpdatesBytes(b.us)))
  }

  lemma BatchReads(b: Batch)
    requires Writable(b)
    ensures var rep := BatchBytes(b);
            && |rep| >= BATCH_HEADER && Contents(rep) == Some(b.us) && SequenceOf(rep) == b.sequence
            && ReadFixed32(rep[8..]) == |b.us|
  {
    hide Fixed32, ReadFixed32, ParseUpdates, UpdatesBytes;
    var rep, lo, hi, n, body := BatchBytes(b), b.sequence % TWO32, b.sequence / TWO32, |b.us|, UpdatesBytes(b.us);
    Fixed32RoundTrip(lo, Fixed32(hi) + (Fixed32(n) + body));
    assert rep[4..] == Fixed32(hi) + (Fixed32(n) + body);
    Fixed32RoundTrip(hi, Fixed32(n) + body);
    assert rep[8..] == Fixed32(n) + body;
    Fixed32RoundTrip(n, body);
    assert rep[BATCH_HEADER..] == body;
    UpdatesRead(b.us);
  }

  /** The bytes that a write batch has built are those of its sequence number and updates. */
  lemma RepIsBatch(rep: Bytes, us: seq<Update>)
    requires BatchOf(rep, us) && |us| < TWO32
    ensures var b := Batch(SequenceOf(rep), us);
            Writable(b) && rep == BatchBytes(b)
  {
    hide Fixed32, ReadFixed32, UpdatesBytes;
    var lo, hi := ReadFixed32(rep), ReadFixed32(rep[4..]);
    SequenceFits(rep);
    assert SequenceOf(rep) % TWO32 == lo && SequenceOf(rep) / TWO32 == hi;
    Fixed32Again(rep);
    Fixed32Again(rep[4..]);
    Fixed32Again(rep[8..]);
    assert rep == rep[..4] + (rep[4..][..4] + (rep[8..][..4] + rep[BATCH_HEADER..]));
  }

  ghost predicate AllWritable(bs: seq<Batch>) {
    forall i :: 0 <= i < |bs| ==> Writable(bs[i])
  }

  ghost function Records(bs: seq<Batch>): (r: seq<Bytes>)
    requires AllWritable(bs)
    ensures |r| == |bs| && forall i :: 0 <= i < |bs| ==> r[i] == BatchBytes(bs[i])
  {
    seq(|bs|, i requires 0 <= i < |bs| => BatchBytes(bs[i]))
  }

  // ----- Recovery of one log

  /** What the records of a log put into memtables. */
  function Replayed(records: seq<Bytes>): seq<(nat, Update)> {
    if records == [] then []
    else
      var n := |records| - 1;
      Replayed(records[..n]) + Inserted(records[n])
  }

  /** The last sequence number that a batch's header claims, in 64 bits. */
  function LastOf(rep: Bytes): nat
    requires |rep| >= BATCH_HEADER
  {
    (SequenceOf(rep) + ReadFixed32(rep[8..]) + TWO64 - 1) % TWO64
  }

  function MaxAfter(records: seq<Bytes>, m: nat): nat {
    if records == [] then m
    else
      var n := |records| - 1;
      var r := MaxAfter(records[..n], m);
      if |records[n]| < BATCH_HEADER || LastOf(records[n]) <= r then r else LastOf(records[n])
  }

  // ----- The operations behind the bytes

  /** An update is the byte form of an operation: `rank` gives a key's place in the order, `text` a value. */
  ghost predicate Same(rank: Bytes -> int, text: Bytes -> string, u: Update, op: Op) {
    match op
    case Put(k, v) => u.kind == Value && rank(u.key) == k && text(u.value) == v
    case Delete(k) => u.kind == Deletion && rank(u.key) == k
  }

  ghost function EntryFor(rank: Bytes -> int, text: Bytes -> string, x: (nat, Update)): Entry {
    Entry(InternalKey(rank(x.1.key), x.0, x.1.kind), if x.1.kind.Value? then text(x.1.value) else "")
  }

  ghost function EntriesFor(rank: Bytes -> int, text: Bytes -> string, xs: seq<(nat, Update)>): (r: seq<Entry>)
    ensures |r| == |xs| && forall i :: 0 <= i < |xs| ==> r[i] == EntryFor(rank, text, xs[i])
  {
    seq(|xs|, i requires 0 <= i < |xs| => EntryFor(rank, text, xs[i]))
  }

  /** How many operations precede the end of the batches when the log begins after `start` of them. */
  ghost function End(bs: seq<Batch>, start: nat): (r: nat)
    ensures start <= r
  {
    if bs == [] then start else End(bs[..|bs| - 1], start) + |bs[|bs| - 1].us|
  }

  /** The batches are the operations from `start` on, group by group, under their own sequence numbers. */
  ghost predicate LogOf(rank: Bytes -> int, text: Bytes -> string, bs: seq<Batch>, ops: seq<Op>, start: nat) {
    && End(bs, start) <= |ops|
    && (bs != [] ==>
          var n := |bs| - 1;
          var from := End(bs[..n], start);
          && LogOf(rank, text, bs[..n], ops, start)
          && Writable(bs[n]) && bs[n].sequence == from + 1
          && forall i :: 0 <= i < |bs[n].us| ==> Same(rank, text, bs[n].us[i], ops[from + i]))
  }

  lemma {:induction false} LogOfWritable(rank: Bytes -> int, text: Bytes -> string, bs: seq<Batch>, ops: seq<Op>,
                                         start: nat)
    requires LogOf(rank, text, bs, ops, start)
    ensures AllWritable(bs)
  {
    if bs != [] {
      var n := |bs| - 1;
      LogOfWritable(rank, text, bs[..n], ops, start);
      assert forall i :: 0 <= i < n ==> bs[i] == bs[..n][i];
    }
  }

  lemma {:induction false} LogOfPrefix(rank: Bytes -> int, text: Bytes -> string, bs: seq<Batch>, ops: seq<Op>,
                                       start: nat, n: nat)
    requires LogOf(rank, text, bs, ops, start) && n <= |bs|
    ensures LogOf(rank, text, bs[..n], ops, start) && End(bs[..n], start) <= |ops|
  {
    if n == |bs| {
      Seqs.WholeSlice(bs);
    } else {
      LogOfPrefix(rank, text, bs[..|bs| - 1], ops, start, n);
      Seqs.PrefixOfPrefix(bs, n, |bs| - 1);
    }
  }

  /** Replaying whole batches gives exactly their operations' entries. */
  lemma {:induction false} ReplayedIsRange(rank: Bytes -> int, text: Bytes -> string, bs: seq<Batch>, ops: seq<Op>,
                                           start: nat)
    requires LogOf(rank, text, bs, ops, start) && AllWritable(bs)
    ensures EntriesFor(rank, text, Replayed(Records(bs))) == Range(ops, start, End(bs, start))
  {
    hide Inserted, BatchBytes, Same, Writable;
    if bs != [] {
      var n := |bs| - 1;
      var from := End(bs[..n], start);
      ReplayedIsRange(rank, text, bs[..n], ops, start);
      BatchInserted(rank, text, bs[n], ops, from);
      OneMoreRecord(bs);
      var a, b := Replayed(Records(bs[..n])), Inserted(BatchBytes(bs[n]));
      hide Replayed, LogOf, Records, EntriesFor, Range;
      EntriesJoin(rank, text, a, b);
      RangeJoins(ops, start, from, End(bs, start));
    }
  }

  lemma {:induction false} OneMoreRecord(bs: seq<Batch>)
    requires bs != [] && AllWritable(bs)
    ensures Replayed(Records(bs)) == Replayed(Records(bs[..|bs| - 1])) + Inserted(BatchBytes(bs[|bs| - 1]))
  {
    hide Inserted, BatchBytes, Writable;
    assert Records(bs)[..|bs| - 1] == Records(bs[..|bs| - 1]);
  }

  lemma EntriesJoin(rank: Bytes -> int, text: Bytes -> string, a: seq<(nat, Update)>, b: seq<(nat, Update)>)
    ensures EntriesFor(rank, text, a + b) == EntriesFor(rank, text, a) + EntriesFor(rank, text, b)
  {
    hide EntryFor;
  }

  lemma RangeJoins(ops: seq<Op>, from: nat, mid: nat, to: nat)
    requires from <= mid <= to <= |ops|
    ensures Range(ops, from, mid) + Range(ops, mid, to) == Range(ops, from, to)
  {
  }

  lemma {:induction false} BatchInserted(rank: Bytes -> int, text: Bytes -> string, b: Batch, ops: seq<Op>, from: nat)
    requires Writable(b) && b.sequence == from + 1 && from + |b.us| <= |ops|
    requires forall i :: 0 <= i < |b.us| ==> Same(rank, text, b.us[i], ops[from + i])
    ensures EntriesFor(rank, text, Inserted(BatchBytes(b))) == Range(ops, from, from + |b.us|)
  {
    hide ReadFixed32, Fixed32, UpdatesBytes;
    BatchReads(b);
    ParsedIsAll(BatchBytes(b)[BATCH_HEADER..]);
    assert Inserted(BatchBytes(b)) == Numbered(b.us, b.sequence);
  }

  // ----- Torn logs

  /** Whatever prefix of its bytes a crash leaves of a log, recovery inserts exactly the operations of the
      batches that are whole: none is lost, split, repeated or made up. */
  lemma {:induction false} TornLogRange(rank: Bytes -> int, text: Bytes -> string, extend: Crc, bs: seq<Batch>,
                                        ops: seq<Op>, start: nat, t: nat)
    requires Composes(extend) && LogOf(rank, text, bs, ops, start) && AllWritable(bs)
    requires t <= |EncodeAll(extend, Records(bs))|
    ensures var records := ReadAll(extend, EncodeAll(extend, Records(bs))[..t], 0, []).0;
            var n := Surviving(extend, Records(bs), t);
            End(bs[..n], start) <= |ops| && EntriesFor(rank, text, Replayed(records)) ==
                Range(ops, start, End(bs[..n], start))
  {
    var n := Surviving(extend, Records(bs), t);
    hide EncodeAll, ReadAll, Surviving, Replayed, LogOf, BatchBytes, Records, Composes, Range, End, EntriesFor;
    TornRecords(extend, bs, t);
    LogOfPrefix(rank, text, bs, ops, start, n);
    ReplayedIsRange(rank, text, bs[..n], ops, start);
  }

  lemma {:induction false} TornRecords(extend: Crc, bs: seq<Batch>, t: nat)
    requires Composes(extend) && AllWritable(bs) && t <= |EncodeAll(extend, Records(bs))|
    ensures var n := Surviving(extend, Records(bs), t);
            ReadAll(extend, EncodeAll(extend, Records(bs))[..t], 0, []).0 == Records(bs[..n])
  {
    hide EncodeAll, ReadAll, Surviving, BatchBytes, Composes;
    NothingWritten(extend, Records(bs));
    TornLogReads(extend, Records(bs), t, 0);
    assert Records(bs)[0..Surviving(extend, Records(bs), t)] == Records(bs[..Surviving(extend, Records(bs), t)]);
  }

  lemma NothingWritten(extend: Crc, rs: seq<Bytes>)
    ensures |EncodeAll(extend, rs[..0])| == 0
  {
  }

  /** A crash in the middle of appending a record is a crash before it. */
  lemma {:induction false} TornAppend(rank: Bytes -> int, text: Bytes -> string, extend: Crc, bs: seq<Batch>,
                                      b: Batch, ops: seq<Op>, start: nat, t: nat)
    requires Composes(extend) && LogOf(rank, text, bs + [b], ops, start) && AllWritable(bs) && AllWritable(bs + [b])
    requires |EncodeAll(extend, Records(bs))| <= t <= |EncodeAll(extend, Records(bs + [b]))|
    ensures var all := EncodeAll(extend, Records(bs + [b]));
            EntriesFor(rank, text, Replayed(ReadAll(extend, all[..t], 0, []).0)) ==
            Range(ops, start, End(if t < |all| then bs else bs + [b], start))
  {
    hide EncodeAll, ReadAll, Surviving, Replayed, LogOf, BatchBytes;
    var n, rs := |bs|, Records(bs + [b]);
    assert (bs + [b])[..n] == bs && rs[..n] == Records(bs);
    TornLogRange(rank, text, extend, bs + [b], ops, start, t);
    SurvivingIs(extend, rs, t, n);
    SurvivingIs(extend, rs, t, n + 1);
    Seqs.WholeSlice(rs);
    Seqs.WholeSlice(bs + [b]);
  }

  // ----- The recovery loop

  /** A log with its operations: the batches that were written and the operations before them. */
  datatype History = History(rank: Bytes -> int, text: Bytes -> string, bs: seq<Batch>, ops: seq<Op>, start: nat)

  /** The file is a prefix of that log, as a crash may leave it, and its first `n` records are whole. */
  ghost predicate TornLog(extend: Crc, file: Bytes, h: History, n: nat) {
    && Composes(extend) && LogOf(h.rank, h.text, h.bs, h.ops, h.start) && AllWritable(h.bs)
    && |h.ops| <= MAX_SEQUENCE
    && file <= EncodeAll(extend, Records(h.bs)) && n == Surviving(extend, Records(h.bs), |file|)
  }

  /** The recovery loop without paranoid checks: a record that is too short is skipped, an error inside a batch
      keeps what came before it. From a torn log it inserts the operations of the whole records, and the largest
      sequence number it reports is that of the last of them, or the one it was given if that is larger. */
  method RecoverLogFile(extend: Crc, file: Bytes, m: nat, ghost h: History, ghost n: nat)
    returns (out: seq<(nat, Update)>, maxSequence: nat)
    ensures var records := ReadAll(extend, file, 0, []).0;
            out == Replayed(records) && maxSequence == MaxAfter(records, m)
    ensures TornLog(extend, file, h, n) ==>
              && n <= |h.bs| && End(h.bs[..n], h.start) <= |h.ops|
              && EntriesFor(h.rank, h.text, out) == Range(h.ops, h.start, End(h.bs[..n], h.start))
              && (n == 0 ==> maxSequence == m)
              && (n > 0 ==> m <= maxSequence && End(h.bs[..n], h.start) <= maxSequence)
              && (n > 0 ==> maxSequence == m || maxSequence == End(h.bs[..n], h.start))
              && forall i :: 0 <= i < |out| ==> out[i].0 <= maxSequence
  {
    var reader := new LogReader(extend, file);
    var records := reader.ReadWholeLog();
    out, maxSequence := [], m;
    for i := 0 to |records|
      invariant out == Replayed(records[..i]) && maxSequence == MaxAfter(records[..i], m)
    {
      assert records[..i + 1][..i] == records[..i];
      if |records[i]| >= BATCH_HEADER {
        var more, ok := InsertInto(records[i]);
        out := out + more;
        if LastOf(records[i]) > maxSequence {
          maxSequence := LastOf(records[i]);
        }
      } else {
        Seqs.NothingMore(out);
      }
    }
    Seqs.WholeSlice(records);
    if TornLog(extend, file, h, n) {
      TornRecovered(extend, file, m, h, n);
    }
  }

  lemma {:induction false} TornRecovered(extend: Crc, file: Bytes, m: nat, h: History, n: nat)
    requires TornLog(extend, file, h, n)
    ensures n <= |h.bs| && End(h.bs[..n], h.start) <= |h.ops|
    ensures var records := ReadAll(extend, file, 0, []).0;
            var out, last := Replayed(records), End(h.bs[..n], h.start);
            && EntriesFor(h.rank, h.text, out) == Range(h.ops, h.start, last)
            && MaxAfter(records, m) == (if n > 0 && last > m then last else m)
            && forall i :: 0 <= i < |out| ==> out[i].0 <= last && n > 0
  {
    hide EncodeAll, ReadAll, Surviving, Replayed, LogOf, BatchBytes, Records, Composes, Range, EntriesFor;
    var all := EncodeAll(extend, Records(h.bs));
    assert all[..|file|] == file;
    TornLogRange(h.rank, h.text, extend, h.bs, h.ops, h.start, |file|);
    TornRecords(extend, h.bs, |file|);
    LogOfPrefix(h.rank, h.text, h.bs, h.ops, h.start, n);
    LogOfWritable(h.rank, h.text, h.bs[..n], h.ops, h.start);
    MaxIsEnd(h.rank, h.text, h.bs[..n], h.ops, h.start, m);
    NumbersBelow(h.rank, h.text, Replayed(Records(h.bs[..n])), h.ops, h.start, End(h.bs[..n], h.start));
    NothingFromNothing(h.bs[..n], h.start);
  }

  /** The headers of whole batches name the last operation. */
  lemma {:induction false} MaxIsEnd(rank: Bytes -> int, text: Bytes -> string, bs: seq<Batch>, ops: seq<Op>,
                                    start: nat, m: nat)
    requires LogOf(rank, text, bs, ops, start) && AllWritable(bs) && |ops| <= MAX_SEQUENCE
    ensures MaxAfter(Records(bs), m) == if bs != [] && End(bs, start) > m then End(bs, start) else m
  {
    hide BatchBytes, ReadFixed32;
    if bs != [] {
      var k := |bs| - 1;
      assert Records(bs)[..k] == Records(bs[..k]);
      MaxIsEnd(rank, text, bs[..k], ops, start, m);
      BatchReads(bs[k]);
      assert LastOf(BatchBytes(bs[k])) == End(bs, start);
    }
  }

  /** Entries of operations `from` to `to` carry sequence numbers up to `to`. */
  lemma NumbersBelow(rank: Bytes -> int, text: Bytes -> string, xs: seq<(nat, Update)>, ops: seq<Op>, from: nat,
                     to: nat)
    requires from <= to <= |ops| && EntriesFor(rank, text, xs) == Range(ops, from, to)
    ensures forall i :: 0 <= i < |xs| ==> xs[i].0 <= to && from < to
  {
    forall i | 0 <= i < |xs|
      ensures xs[i].0 <= to && from < to
    {
      assert EntriesFor(rank, text, xs)[i] == EntryOf(ops, from + i);
    }
  }

  lemma {:induction false} NothingFromNothing(bs: seq<Batch>, start: nat)
    ensures bs == [] ==> End(bs, start) == start
  {
  }
}
