/** Write batches: the byte form that goes to the log as one record, and its replay into a memtable. */
module WriteBatches {
  import opened Keys
  import opened LogFormat
  import opened Varints
  import opened Blocks
  import opened EditCodec
  import Seqs

  datatype Update = Update(kind: ValueType, key: Bytes, value: Bytes)

  const BATCH_HEADER: nat := 12

  function UpdateBytes(u: Update): (r: Bytes)
    ensures |r| > 0
  {
    if u.kind.Value? then [1] + (Delimited(u.key) + Delimited(u.value)) else [0] + Delimited(u.key)
  }

  function UpdatesBytes(us: seq<Update>): Bytes {
    if us == [] then [] else UpdateBytes(us[0]) + UpdatesBytes(us[1..])
  }

  lemma {:induction false} BytesConcat(a: seq<Update>, b: seq<Update>)
    ensures UpdatesBytes(a + b) == UpdatesBytes(a) + UpdatesBytes(b)
  {
    hide UpdateBytes;
    if a == [] {
      assert a + b == b;
      Seqs.NothingBefore(UpdatesBytes(b));
    } else {
      assert (a + b)[1..] == a[1..] + b;
      BytesConcat(a[1..], b);
      Seqs.Assoc(UpdateBytes(a[0]), UpdatesBytes(a[1..]), UpdatesBytes(b));
    }
  }

  // ----- Reading

  function GetUpdate(b: Bytes): (r: Option<Got<Update>>)
    requires b != []
    ensures r.Some? ==> |r.value.rest| < |b|
  {
    var k := GetDelimited(b[1..]);
    if b[0] > 1 || k.None? then None
    else if b[0] == 0 then Some(Got(Update(Deletion, k.value.value, []), k.value.rest))
    else
      var v := GetDelimited(k.value.rest);
      if v.None? then None else Some(Got(Update(Value, k.value.value, v.value.value), v.value.rest))
  }

  /** All updates in `b`; absent if it is malformed. */
  function ParseUpdates(b: Bytes): Option<seq<Update>>
    decreases |b|
  {
    if b == [] then Some([])
    else
      var u := GetUpdate(b);
      if u.None? then None
      else
        var rest := ParseUpdates(u.value.rest);
        if rest.None? then None else Some([u.value.value] + rest.value)
  }

  /** The updates before the first malformed one. */
  function Parsed(b: Bytes): seq<Update>
    decreases |b|
  {
    if b == [] then []
    else
      var u := GetUpdate(b);
      if u.None? then [] else [u.value.value] + Parsed(u.value.rest)
  }

  lemma {:induction false} ParsedIsAll(b: Bytes)
    ensures ParseUpdates(b).Some? ==> ParseUpdates(b).value == Parsed(b)
    decreases |b|
  {
    hide GetUpdate;
    if b != [] && GetUpdate(b).Some? {
      ParsedIsAll(GetUpdate(b).value.rest);
    }
  }

  /** The sequence number in a batch's header. */
  function SequenceOf(rep: Bytes): nat
    requires |rep| >= BATCH_HEADER
  {
    ReadFixed32(rep) + TWO32 * ReadFixed32(rep[4..])
  }

  /** The updates of a batch; absent for a short header, a malformed update or a wrong count. */
  function Contents(rep: Bytes): Option<seq<Update>> {
    if |rep| < BATCH_HEADER then None
    else
      var us := ParseUpdates(rep[BATCH_HEADER..]);
      if us.Some? && |us.value| == ReadFixed32(rep[8..]) then us else None
  }

  ghost predicate Loggable(u: Update) {
    |u.key| < TWO32 && |u.value| < TWO32 && (u.kind.Deletion? ==> u.value == [])
  }

  lemma {:induction false} UpdateReads(u: Update, rest: Bytes)
    requires Loggable(u)
    ensures GetUpdate(UpdateBytes(u) + rest) == Some(Got(u, rest))
  {
    hide GetDelimited, Delimited;
    var b := UpdateBytes(u) + rest;
    if u.kind.Value? {
      assert b[1..] == Delimited(u.key) + (Delimited(u.value) + rest);
      DelimitedReads(u.key, Delimited(u.value) + rest);
      DelimitedReads(u.value, rest);
    } else {
      assert b[1..] == Delimited(u.key) + rest;
      DelimitedReads(u.key, rest);
    }
  }

  lemma {:induction false} UpdatesRead(us: seq<Update>)
    requires forall i :: 0 <= i < |us| ==> Loggable(us[i])
    ensures ParseUpdates(UpdatesBytes(us)) == Some(us)
  {
    hide UpdateBytes, GetUpdate;
    if us != [] {
      UpdatesRead(us[1..]);
      UpdateReads(us[0], UpdatesBytes(us[1..]));
      Seqs.Advance(us, 0);
      Seqs.WholeSlice(us);
    }
  }

  // ----- Writing

  /** The bytes of a batch with these updates; the count is kept in 32 bits. */
  ghost predicate BatchOf(rep: Bytes, us: seq<Update>) {
    && |rep| >= BATCH_HEADER && rep[BATCH_HEADER..] == UpdatesBytes(us)
    && (forall i :: 0 <= i < |us| ==> Loggable(us[i]))
    && ReadFixed32(rep[8..]) == |us| % TWO32
  }

  class WriteBatch {
    var rep: Bytes
    ghost var us: seq<Update>

    ghost predicate Inv()
      reads this
    {
      BatchOf(rep, us)
    }

    function Count(): nat
      requires |rep| >= BATCH_HEADER
      reads this
    {
      ReadFixed32(rep[8..])
    }

    function Sequence(): nat
      requires |rep| >= BATCH_HEADER
      reads this
    {
      SequenceOf(rep)
    }

    constructor ()
      ensures Inv() && us == [] && Sequence() == 0
    {
      rep, us := Zeros(BATCH_HEADER), [];
    }

    /** Rewrites the header in place. */
    method SetHeader(sequence: nat, count: nat)
      requires |rep| >= BATCH_HEADER && sequence < TWO64
      modifies this`rep
      ensures |rep| >= BATCH_HEADER && rep[BATCH_HEADER..] == old(rep)[BATCH_HEADER..]
      ensures Sequence() == sequence && Count() == count % TWO32
    {
      hide Fixed32, ReadFixed32;
      var tail := rep[BATCH_HEADER..];
      var lo, hi, n := sequence % TWO32, sequence / TWO32, count % TWO32;
      rep := Fixed32(lo) + (Fixed32(hi) + (Fixed32(n) + tail));
      Fixed32RoundTrip(lo, Fixed32(hi) + (Fixed32(n) + tail));
      assert rep[4..] == Fixed32(hi) + (Fixed32(n) + tail);
      Fixed32RoundTrip(hi, Fixed32(n) + tail);
      assert rep[8..] == Fixed32(n) + tail;
      Fixed32RoundTrip(n, tail);
      assert rep[BATCH_HEADER..] == tail;
    }

    /** `Put` and `Delete`: the count goes up, the update is appended. */
    method Add(u: Update)
      requires Inv() && Loggable(u)
      modifies this
      ensures Inv() && us == old(us) + [u] && Sequence() == old(Sequence())
    {
      hide UpdateBytes, ReadFixed32;
      var s := Sequence();
      SequenceFits(rep);
      SetHeader(s, Count() + 1);
      BytesConcat(us, [u]);
      OneUpdate(u);
      KeepsHeader(rep, UpdateBytes(u));
      rep := rep + UpdateBytes(u);
      us := us + [u];
    }

    /** Counts add up and the bodies are joined. */
    method Append(source: WriteBatch)
      requires Inv() && source.Inv()
      modifies this
      ensures Inv() && us == old(us + source.us) && Sequence() == old(Sequence())
    {
      hide ReadFixed32, SequenceOf;
      var s, n, body := Sequence(), Count() + source.Count(), source.rep[BATCH_HEADER..];
      SequenceFits(rep);
      SetHeader(s, n);
      KeepsHeader(rep, body);
      Joined(old(rep), us, old(source.rep), source.us, rep);
      hide BatchOf;
      rep := rep + body;
      us := us + source.us;
    }

    /** A batch of fewer than 2^32 updates reads back as what was put into it. */
    lemma {:induction false} RoundTrip()
      requires Inv() && |us| < TWO32
      ensures Contents(rep) == Some(us)
    {
      hide ParseUpdates, UpdatesBytes, ReadFixed32;
      UpdatesRead(us);
    }
  }

  /** A batch whose header counts both and whose body is that of the first becomes the batch of both. */
  lemma Joined(a: Bytes, us: seq<Update>, b: Bytes, vs: seq<Update>, rep: Bytes)
    requires BatchOf(a, us) && BatchOf(b, vs) && |rep| >= BATCH_HEADER && rep[BATCH_HEADER..] == a[BATCH_HEADER..]
    requires ReadFixed32(rep[8..]) == (ReadFixed32(a[8..]) + ReadFixed32(b[8..])) % TWO32
    ensures BatchOf(rep + b[BATCH_HEADER..], us + vs)
  {
    hide ReadFixed32, UpdatesBytes, Loggable;
    BytesConcat(us, vs);
    KeepsHeader(rep, b[BATCH_HEADER..]);
    CountsAdd(|us|, |vs|);
  }

  lemma CountsAdd(a: nat, b: nat)
    ensures (a % TWO32 + b % TWO32) % TWO32 == (a + b) % TWO32
  {
  }

  lemma SequenceFits(rep: Bytes)
    requires |rep| >= BATCH_HEADER
    ensures SequenceOf(rep) < TWO64
  {
    hide ReadFixed32;
  }

  lemma {:induction false} OneUpdate(u: Update)
    ensures UpdatesBytes([u]) == UpdateBytes(u)
  {
    hide UpdateBytes;
    assert [u][1..] == [] && UpdatesBytes([]) == [];
    Seqs.NothingMore(UpdateBytes(u));
  }

  /** Appending to a batch leaves its header alone. */
  lemma KeepsHeader(rep: Bytes, more: Bytes)
    requires |rep| >= BATCH_HEADER
    ensures SequenceOf(rep + more) == SequenceOf(rep)
    ensures ReadFixed32((rep + more)[8..]) == ReadFixed32(rep[8..])
    ensures (rep + more)[BATCH_HEADER..] == rep[BATCH_HEADER..] + more
  {
  }

  // ----- Replay

  /** Consecutive sequence numbers from `from` on. */
  function Numbered(us: seq<Update>, from: nat): (r: seq<(nat, Update)>)
    ensures |r| == |us| && forall i :: 0 <= i < |us| ==> r[i] == (from + i, us[i])
  {
    seq(|us|, i requires 0 <= i < |us| => (from + i, us[i]))
  }

  /** What a batch puts into the memtable: nothing for a short header, and from a malformed one the updates
      before the error. */
  function Inserted(rep: Bytes): seq<(nat, Update)> {
    if |rep| < BATCH_HEADER then [] else Numbered(Parsed(rep[BATCH_HEADER..]), SequenceOf(rep))
  }

  /** Inserting gives the updates consecutive sequence numbers from the batch's own; what comes before an
      error stays inserted. */
  method InsertInto(rep: Bytes) returns (out: seq<(nat, Update)>, ok: bool)
    ensures out == Inserted(rep)
    ensures ok <==> Contents(rep).Some?
    ensures ok ==> out == Numbered(Contents(rep).value, SequenceOf(rep))
  {
    hide GetUpdate, ReadFixed32;
    out := [];
    if |rep| < BATCH_HEADER {
      return [], false;
    }
    var input, next := rep[BATCH_HEADER..], SequenceOf(rep);
    ghost var body, done: seq<Update> := input, [];
    Seqs.NothingBefore(Parsed(body));
    while input != []
      invariant Parsed(body) == done + Parsed(input)
      invariant ParseUpdates(body).Some? <==> ParseUpdates(input).Some?
      invariant next == SequenceOf(rep) + |done| && out == Numbered(done, SequenceOf(rep))
      decreases |input|
    {
      var u := GetUpdate(input);
      if u.None? {
        Seqs.NothingMore(done);
        return out, false;
      }
      Seqs.Assoc(done, [u.value.value], Parsed(u.value.rest));
      out, next := out + [(next, u.value.value)], next + 1;
      done := done + [u.value.value];
      assert out == Numbered(done, SequenceOf(rep));
      input := u.value.rest;
    }
    Seqs.NothingMore(done);
    ParsedIsAll(body);
    ok := |out| == ReadFixed32(rep[8..]);
  }
}
