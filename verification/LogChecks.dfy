/** What the log reader does with any bytes. A fragment is delivered exactly if the bytes at its place are those
    that the writer would write for it; everything else is dropped and reported, except a blank record and a
    record that the end of the file cuts short. A record is delivered only whole, and every payload byte that
    was read is delivered or reported. */
module LogChecks {
  import opened Keys
  import opened LogFormat
  import Seqs

  // ----- One physical record

  function LengthAt(file: Bytes, q: nat): nat
    requires q + HEADER <= |file|
  {
    file[q + 4] as int + file[q + 5] as int * 256
  }

  /** Header and payload lie within the block and the file. */
  predicate Whole(file: Bytes, q: nat) {
    q + HEADER <= |file| && q + HEADER + LengthAt(file, q) <= BufferEnd(file, q)
  }

  /** Type and length zero, as in a region that was preallocated. */
  predicate Blank(file: Bytes, q: nat) {
    Whole(file, q) && LengthAt(file, q) == 0 && file[q + 6] == 0
  }

  function PayloadAt(file: Bytes, q: nat): Bytes
    requires Whole(file, q)
  {
    file[q + HEADER..q + HEADER + LengthAt(file, q)]
  }

  /** The stored word is the masked checksum of type and payload. */
  ghost predicate Checks(extend: Crc, file: Bytes, q: nat) {
    Whole(file, q) && Unmask(ReadFixed32(file[q..])) == extend(0, [file[q + 6]] + PayloadAt(file, q))
  }

  /** The record at `q` is delivered. */
  ghost predicate Delivered(extend: Crc, file: Bytes, q: nat, x: Physical) {
    && Checks(extend, file, q) && !Blank(file, q)
    && x == Physical(file[q + 6] as int, PayloadAt(file, q), q + HEADER + LengthAt(file, q), [])
  }

  /** The rest of the block is dropped; that is reported unless the record is blank. */
  ghost predicate DroppedBlock(extend: Crc, file: Bytes, q: nat, x: Physical) {
    && q + HEADER <= BufferEnd(file, q) && (Whole(file, q) || BlockEnd(q) <= |file|)
    && (Blank(file, q) || !Checks(extend, file, q))
    && x == Physical(BAD, [], BufferEnd(file, q), if Blank(file, q) then [] else [BufferEnd(file, q) - q])
  }

  /** The file ends within the header or the payload. */
  ghost predicate CutShort(file: Bytes, q: nat, x: Physical) {
    && !Whole(file, q) && (q + HEADER <= |file| ==> |file| < BlockEnd(q))
    && x == Physical(EOF, [], |file|, [])
  }

  /** At any position of any file the reader goes on to the next place for a header, and does one of three things. */
  lemma {:induction false} PhysicalOutcome(extend: Crc, file: Bytes, p: nat)
    requires p <= |file|
    ensures var x := NextPhysical(extend, file, p);
            || Delivered(extend, file, Start(p), x)
            || DroppedBlock(extend, file, Start(p), x)
            || CutShort(file, Start(p), x)
  {
    hide ParseBuffer;
    PaddingSkipped(extend, file, p);
    var q := Start(p);
    if q <= |file| && q + HEADER <= BufferEnd(file, q) {
      FrontOutcome(extend, file, q);
    }
  }

  /** A result with a record type is a record whose checksum matches; a whole record whose checksum does not
      match costs the rest of the block. */
  lemma {:induction false} PhysicalMeans(extend: Crc, file: Bytes, p: nat)
    requires p <= |file|
    ensures var x, q := NextPhysical(extend, file, p), Start(p);
            x.code != EOF && x.code != BAD ==> Delivered(extend, file, q, x)
    ensures var x, q := NextPhysical(extend, file, p), Start(p);
            Whole(file, q) && !Blank(file, q) && !Checks(extend, file, q) ==>
              x == Physical(BAD, [], BufferEnd(file, q), [BufferEnd(file, q) - q])
  {
    hide NextPhysical, Checks;
    PhysicalOutcome(extend, file, p);
  }

  lemma {:induction false} FrontOutcome(extend: Crc, file: Bytes, q: nat)
    requires q + HEADER <= BufferEnd(file, q) && q <= |file|
    ensures var x := NextPhysical(extend, file, q);
            Delivered(extend, file, q, x) || DroppedBlock(extend, file, q, x) || CutShort(file, q, x)
  {
    hide Unmask, ReadFixed32;
    var buffer := file[q..BufferEnd(file, q)];
    assert buffer[4] == file[q + 4] && buffer[5] == file[q + 5] && buffer[6] == file[q + 6];
    if Whole(file, q) {
      var n := LengthAt(file, q);
      assert buffer[HEADER..HEADER + n] == PayloadAt(file, q);
      assert buffer[6..HEADER + n] == [file[q + 6]] + PayloadAt(file, q);
      SameWord(buffer, file[q..]);
    }
  }

  lemma SameWord(a: Bytes, b: Bytes)
    requires |a| >= 4 && a <= b
    ensures ReadFixed32(a) == ReadFixed32(b)
  {
  }

  /** A stored word checks exactly if header and payload are the bytes that the writer would put there. */
  lemma ChecksIffWritten(extend: Crc, file: Bytes, q: nat)
    requires Composes(extend) && Whole(file, q)
    ensures Checks(extend, file, q) <==>
            file[q..q + HEADER + LengthAt(file, q)] == Phys(extend, file[q + 6], PayloadAt(file, q))
  {
    var t, payload := file[q + 6], PayloadAt(file, q);
    var w, crc := ReadFixed32(file[q..]), extend(extend(0, [t]), payload);
    assert crc == extend(0, [t] + payload);
    hide Mask, Unmask, ReadFixed32, Fixed32, PayloadAt, Phys;
    SplitAt(extend, file, q);
    MaskUnmask(w);
    UnmaskMask(crc);
    var rest := [file[q + 4], file[q + 5], t] + payload;
    if Fixed32(w) + rest == Fixed32(Mask(crc)) + rest {
      assert (Fixed32(w) + rest)[..4] == Fixed32(w) && (Fixed32(Mask(crc)) + rest)[..4] == Fixed32(Mask(crc));
      SameFixed(w, Mask(crc));
    }
  }

  /** The stored bytes and those the writer would write differ in the checksum at most. */
  lemma SplitAt(extend: Crc, file: Bytes, q: nat)
    requires Whole(file, q)
    ensures var t, payload, n := file[q + 6], PayloadAt(file, q), LengthAt(file, q);
            var rest := [file[q + 4], file[q + 5], t] + payload;
            && file[q..q + HEADER + n] == Fixed32(ReadFixed32(file[q..])) + rest
            && Phys(extend, t, payload) == Fixed32(Mask(extend(extend(0, [t]), payload))) + rest
  {
    hide Mask, ReadFixed32, Fixed32;
    var t, payload, n := file[q + 6], PayloadAt(file, q), LengthAt(file, q);
    Fixed32Again(file[q..]);
    assert file[q..q + HEADER + n] == file[q..][..4] + ([file[q + 4], file[q + 5], t] + payload);
    assert n % 256 == file[q + 4] as int && n / 256 == file[q + 5] as int;
  }

  lemma SameFixed(a: Word, b: Word)
    requires Fixed32(a) == Fixed32(b)
    ensures a == b
  {
    hide Fixed32, ReadFixed32;
    Fixed32RoundTrip(a, []);
    Fixed32RoundTrip(b, []);
    Seqs.NothingMore(Fixed32(a));
  }

  // ----- One logical record

  function Fragments(xs: seq<Physical>): Bytes {
    if xs == [] then [] else Fragments(xs[..|xs| - 1]) + xs[|xs| - 1].fragment
  }

  function EndAt(p: nat, xs: seq<Physical>): nat {
    if xs == [] then p else xs[|xs| - 1].next
  }

  /** The physical records that follow each other from position `p`. */
  ghost predicate Consecutive(extend: Crc, file: Bytes, p: nat, xs: seq<Physical>) {
    if xs == [] then p <= |file|
    else
      var n := |xs| - 1;
      && Consecutive(extend, file, p, xs[..n])
      && EndAt(p, xs[..n]) <= |file| && xs[n] == NextPhysical(extend, file, EndAt(p, xs[..n]))
  }

  ghost predicate Opened(xs: seq<Physical>) {
    && xs != [] && xs[0].code == FIRST as int
    && forall i :: 0 < i < |xs| ==> xs[i].code == MIDDLE as int
  }

  /** One full fragment, or a first one, middle ones and a last one. */
  ghost predicate Complete(xs: seq<Physical>) {
    && xs != []
    && ((|xs| == 1 && xs[0].code == FULL as int) || (xs[|xs| - 1].code == LAST as int && Opened(xs[..|xs| - 1])))
  }

  /** The record is exactly the fragments of consecutive physical records that belong together. */
  ghost predicate IsRecord(extend: Crc, file: Bytes, p: nat, xs: seq<Physical>, record: Bytes, next: nat) {
    Consecutive(extend, file, p, xs) && Complete(xs) && EndAt(p, xs) == next && Fragments(xs) == record
  }

  /** What the reader has gathered before it stands at `p`. */
  ghost predicate Gathered(extend: Crc, file: Bytes, p: nat, scratch: Option<Bytes>, p0: nat, xs: seq<Physical>) {
    scratch.Some? ==>
      Consecutive(extend, file, p0, xs) && EndAt(p0, xs) == p && Opened(xs) && Fragments(xs) == scratch.value
  }

  lemma {:induction false} OneMore(extend: Crc, file: Bytes, p0: nat, xs: seq<Physical>)
    requires Consecutive(extend, file, p0, xs) && EndAt(p0, xs) <= |file|
    ensures var x := NextPhysical(extend, file, EndAt(p0, xs));
            && Consecutive(extend, file, p0, xs + [x]) && EndAt(p0, xs + [x]) == x.next
            && Fragments(xs + [x]) == Fragments(xs) + x.fragment && (xs + [x])[..|xs|] == xs
  {
    hide NextPhysical;
    var x := NextPhysical(extend, file, EndAt(p0, xs));
    assert (xs + [x])[..|xs|] == xs;
  }

  /** From any bytes only whole records are delivered: nothing between their fragments is skipped. */
  lemma {:induction false} RecordIsWhole(extend: Crc, file: Bytes, p: nat, scratch: Option<Bytes>, drops: seq<nat>,
                                         p0: nat, xs: seq<Physical>) returns (q: nat, ys: seq<Physical>)
    requires p <= |file| && Gathered(extend, file, p, scratch, p0, xs)
    ensures var o := ReadFrom(extend, file, p, scratch, drops);
            o.record.Some? ==> IsRecord(extend, file, q, ys, o.record.value, o.next)
    decreases |file| - p
  {
    hide NextPhysical;
    var x := NextPhysical(extend, file, p);
    q, ys := p, [];
    OneMore(extend, file, p, []);
    assert [] + [x] == [x] && Fragments([]) + x.fragment == x.fragment;
    if scratch.Some? {
      OneMore(extend, file, p0, xs);
    }
    match Absorb(x, scratch, drops + x.drops)
    case Done(record, seen) =>
      if x.code == FULL as int {
        q, ys := p, [x];
      } else if scratch.Some? {
        q, ys := p0, xs + [x];
      }
    case More(sofar, seen) =>
      var first := x.code == FIRST as int;
      q, ys := RecordIsWhole(extend, file, x.next, sofar, seen, if first then p else p0, if first then [x]
          else xs + [x]);
  }

  // ----- Nothing disappears

  function Total(ns: seq<nat>): nat {
    if ns == [] then 0 else Total(ns[..|ns| - 1]) + ns[|ns| - 1]
  }

  lemma {:induction false} TotalMore(ns: seq<nat>, n: nat)
    ensures Total(ns + [n]) == Total(ns) + n
  {
    assert (ns + [n])[..|ns|] == ns;
  }

  /** The payload of a physical record; one whose type is the code for a bad record is not looked at. */
  function Carried(x: Physical): nat {
    if x.code == BAD then 0 else |x.fragment|
  }

  /** Payload bytes that were read and bytes of blocks that were dropped, from `p` up to `to`. */
  function Passed(extend: Crc, file: Bytes, p: nat, to: nat): nat
    requires p <= |file|
    decreases |file| - p
  {
    var x := NextPhysical(extend, file, p);
    if p >= to || x.code == EOF then 0
    else Carried(x) + Total(x.drops) + Passed(extend, file, x.next, to)
  }

  /** When a record is delivered, every byte that was passed is in it or reported. */
  lemma {:induction false} DeliveredOrReported(extend: Crc, file: Bytes, p: nat, scratch: Option<Bytes>,
                                               drops: seq<nat>)
    requires p <= |file|
    ensures var o := ReadFrom(extend, file, p, scratch, drops);
            o.record.Some? ==>
              Total(o.drops) + |o.record.value| == Total(drops) + |Had(scratch)| + Passed(extend, file, p, o.next)
    decreases |file| - p
  {
    hide NextPhysical;
    var x, o := NextPhysical(extend, file, p), ReadFrom(extend, file, p, scratch, drops);
    PhysicalDrops(extend, file, p);
    if x.drops == [] {
      Seqs.NothingMore(drops);
    } else {
      TotalMore(drops, x.drops[0]);
      assert x.drops == [x.drops[0]] && Total(x.drops[..0]) == 0;
    }
    assert Total(drops + x.drops) == Total(drops) + Total(x.drops);
    AbsorbKeeps(x, scratch, drops + x.drops);
    match Absorb(x, scratch, drops + x.drops)
    case Done(record, seen) =>
    case More(sofar, seen) =>
      DeliveredOrReported(extend, file, x.next, sofar, seen);
  }

  lemma {:induction false} PhysicalDrops(extend: Crc, file: Bytes, p: nat)
    requires p <= |file|
    ensures |NextPhysical(extend, file, p).drops| <= 1
  {
    hide NextPhysical;
    PhysicalOutcome(extend, file, p);
  }

  lemma {:induction false} AbsorbKeeps(x: Physical, scratch: Option<Bytes>, drops: seq<nat>)
    ensures match Absorb(x, scratch, drops)
            case Done(record, seen) =>
              record.Some? ==> Total(seen) + |record.value| == Total(drops) + |Had(scratch)| + Carried(x)
            case More(sofar, seen) =>
              Total(seen) + |Had(sofar)| == Total(drops) + |Had(scratch)| + Carried(x)
  {
    hide Total;
    TotalMore(drops, |Had(scratch)|);
    TotalMore(drops, |x.fragment|);
    TotalMore(drops, |x.fragment| + |Had(scratch)|);
  }
}
