/** Framing of log records in fixed-size blocks: the writer's layout, the reader as a function of a
    byte position, the round trip and torn writes. */
module LogFormat {
  import opened Keys
  import Seqs

  type byte = x: int | 0 <= x < 256
  type Bytes = seq<byte>

  const BLOCK: nat := 32768
  const HEADER: nat := 7

  const FULL: byte := 1
  const FIRST: byte := 2
  const MIDDLE: byte := 3
  const LAST: byte := 4
  /** Codes that reading a physical record returns beside the record types. */
  const EOF: nat := 5
  const BAD: nat := 6

  // ----- Checksums

  const TWO32: nat := 0x1_0000_0000
  const MASK_DELTA: nat := 0xA282_EAD8

  type Word = x: int | 0 <= x < 0x1_0000_0000

  /** Rotated right by 15 bits, plus a constant, in 32 bits. */
  function Mask(crc: Word): Word {
    (crc / 0x8000 + crc % 0x8000 * 0x2_0000 + MASK_DELTA) % TWO32
  }

  function Unmask(masked: Word): Word {
    var rot := (masked - MASK_DELTA) % TWO32;
    rot / 0x2_0000 + rot % 0x2_0000 * 0x8000
  }

  lemma UnmaskMask(crc: Word)
    ensures Unmask(Mask(crc)) == crc
  {
    RotateBack(crc);
    AddBack(crc / 0x8000 + crc % 0x8000 * 0x2_0000);
  }

  lemma MaskUnmask(masked: Word)
    ensures Mask(Unmask(masked)) == masked
  {
    var rot := (masked - MASK_DELTA) % TWO32;
    RotateForth(rot);
    assert (rot + MASK_DELTA) % TWO32 == masked;
  }

  lemma RotateForth(rot: Word)
    ensures var crc := rot / 0x2_0000 + rot % 0x2_0000 * 0x8000;
            0 <= crc < TWO32 && crc / 0x8000 == rot % 0x2_0000 && crc % 0x8000 == rot / 0x2_0000
  {
    var hi, lo := rot / 0x2_0000, rot % 0x2_0000;
    assert rot == hi * 0x2_0000 + lo && hi < 0x8000;
  }

  lemma RotateBack(crc: Word)
    ensures var rot := crc / 0x8000 + crc % 0x8000 * 0x2_0000;
            0 <= rot < TWO32 && rot / 0x2_0000 == crc % 0x8000 && rot % 0x2_0000 == crc / 0x8000
  {
    var hi, lo := crc / 0x8000, crc % 0x8000;
    assert crc == hi * 0x8000 + lo && hi < 0x2_0000;
  }

  lemma AddBack(rot: Word)
    ensures ((rot + MASK_DELTA) % TWO32 - MASK_DELTA) % TWO32 == rot
  {
    assert (rot + MASK_DELTA) % TWO32 == if rot + MASK_DELTA < TWO32 then rot + MASK_DELTA
        else rot + MASK_DELTA - TWO32;
  }

  /** The checksum function, extending the checksum of a prefix by more bytes. */
  type Crc = (Word, Bytes) -> Word

  ghost predicate Composes(extend: Crc) {
    forall c, a, b :: extend(extend(c, a), b) == extend(c, a + b)
  }

  function Fixed32(w: Word): (r: Bytes)
    ensures |r| == 4
  {
    [w % 256, w / 256 % 256, w / 256 / 256 % 256, w / 256 / 256 / 256]
  }

  function ReadFixed32(b: Bytes): Word
    requires |b| >= 4
  {
    b[0] as int + b[1] as int * 256 + b[2] as int * 0x1_0000 + b[3] as int * 0x100_0000
  }

  lemma Fixed32RoundTrip(w: Word, rest: Bytes)
    ensures ReadFixed32(Fixed32(w) + rest) == w
  {
    var a, b := w / 256, w / 256 / 256;
    assert w == a * 256 + w % 256 && a == b * 256 + a % 256 && b == b / 256 * 256 + b % 256;
  }

  lemma Fixed32Again(b: Bytes)
    requires |b| >= 4
    ensures Fixed32(ReadFixed32(b)) == b[..4]
  {
    var w := ReadFixed32(b);
    var y := b[2] as int + b[3] as int * 256;
    var x := b[1] as int + y * 256;
    Digits(w, b[0] as int, x);
    Digits(x, b[1] as int, y);
    Digits(y, b[2] as int, b[3] as int);
  }

  lemma Digits(n: int, low: int, high: int)
    requires n == low + high * 256 && 0 <= low < 256
    ensures n % 256 == low && n / 256 == high
  {
  }

  /** Least significant byte first. */
  lemma Fixed32Bytes(w: Word)
    ensures Fixed32(w)[0] as int +
              256 * (Fixed32(w)[1] as int + 256 * (Fixed32(w)[2] as int + 256 * Fixed32(w)[3] as int)) == w
  {
    var a, b := w / 256, w / 256 / 256;
    assert w == a * 256 + w % 256 && a == b * 256 + a % 256 && b == b / 256 * 256 + b % 256;
  }

  // ----- What the writer lays out

  function Header(extend: Crc, t: byte, payload: Bytes): (r: Bytes)
    requires |payload| < 0x1_0000
    ensures |r| == HEADER
  {
    Fixed32(Mask(extend(extend(0, [t]), payload))) + [|payload| % 256, |payload| / 256, t]
  }

  function Phys(extend: Crc, t: byte, payload: Bytes): (r: Bytes)
    requires |payload| < 0x1_0000
    ensures |r| == HEADER + |payload|
  {
    Header(extend, t, payload) + payload
  }

  function TypeOf(begin: bool, end: bool): byte {
    if begin && end then FULL else if begin then FIRST else if end then LAST else MIDDLE
  }

  /** Bytes left in the block of a position. */
  function Leftover(p: nat): (n: nat)
    ensures 0 < n <= BLOCK
  {
    BLOCK - p % BLOCK
  }

  /** A header never straddles two blocks: the rest of a short block is zeros. */
  function Padding(p: nat): Bytes {
    if Leftover(p) < HEADER then seq(Leftover(p), _ => 0) else []
  }

  function Start(p: nat): (q: nat)
    ensures p <= q && Leftover(q) >= HEADER
  {
    p + |Padding(p)|
  }

  function FragmentLength(p: nat, r: Bytes): (n: nat)
    ensures n <= |r| && HEADER + n <= Leftover(Start(p))
  {
    var avail := Leftover(Start(p)) - HEADER;
    if |r| < avail then |r| else avail
  }

  /** The bytes of record `r` when the file is `p` bytes long. */
  function Encode(extend: Crc, p: nat, r: Bytes, begin: bool): (e: Bytes)
    ensures |e| >= HEADER
    decreases |r|, FragmentLength(p, r) == 0
  {
    var n := FragmentLength(p, r);
    var end := n == |r|;
    var q := Start(p) + HEADER + n;
    Padding(p) + Phys(extend, TypeOf(begin, end), r[..n]) + (if end then [] else Encode(extend, q, r[n..], false))
  }

  function EncodeAll(extend: Crc, rs: seq<Bytes>): Bytes {
    if rs == [] then []
    else
      var before := EncodeAll(extend, rs[..|rs| - 1]);
      before + Encode(extend, |before|, rs[|rs| - 1], true)
  }

  // ----- The reader as a function of a position in an arbitrary file

  /** Result of one physical read: a code, the fragment, the next position, bytes reported as dropped. */
  datatype Physical = Physical(code: nat, fragment: Bytes, next: nat, drops: seq<nat>)

  function BlockEnd(p: nat): nat {
    p + Leftover(p)
  }

  /** The bytes the reader has in its buffer when it stands at `p`: the rest of the block, or of the file. */
  function BufferEnd(file: Bytes, p: nat): nat {
    if BlockEnd(p) <= |file| then BlockEnd(p) else |file|
  }

  /** One physical record from the buffered bytes, which begin at `p`; `eof` if the file ends with them. */
  function ParseBuffer(extend: Crc, buffer: Bytes, eof: bool, p: nat): (r: Physical)
    requires |buffer| >= HEADER
    ensures p < r.next <= p + |buffer|
  {
    var length := buffer[4] as int + buffer[5] as int * 256;
    var kind := buffer[6];
    if HEADER + length > |buffer| then
      if eof then Physical(EOF, [], p + |buffer|, []) else Physical(BAD, [], p + |buffer|, [|buffer|])
    else if kind == 0 && length == 0 then
      Physical(BAD, [], p + |buffer|, [])
    else if Unmask(ReadFixed32(buffer)) != extend(0, buffer[6..HEADER + length]) then
      Physical(BAD, [], p + |buffer|, [|buffer|])
    else
      Physical(kind, buffer[HEADER..HEADER + length], p + HEADER + length, [])
  }

  function NextPhysical(extend: Crc, file: Bytes, p: nat): (r: Physical)
    requires p <= |file|
    ensures p <= r.next <= |file| && (r.code != EOF ==> p < r.next)
    decreases |file| - p
  {
    if p + HEADER <= BufferEnd(file, p) then ParseBuffer(extend, file[p..BufferEnd(file, p)], |file| < BlockEnd(p), p)
    else if BlockEnd(p) <= |file| then NextPhysical(extend, file, BlockEnd(p))
    else Physical(EOF, [], |file|, [])
  }

  datatype Outcome = Outcome(record: Option<Bytes>, next: nat, drops: seq<nat>)

  /** What one physical result does to a logical read: end it, or go on with these fragments. */
  datatype Absorbed = Done(record: Option<Bytes>, drops: seq<nat>) | More(scratch: Option<Bytes>, drops: seq<nat>)

  function Absorb(x: Physical, scratch: Option<Bytes>, drops: seq<nat>): (r: Absorbed)
    ensures r.More? ==> x.code != EOF
    ensures r.Done? && r.record.Some? ==> x.code != EOF
  {
    var lost := Note(drops, scratch.Some? && scratch.value != [], |Had(scratch)|);
    if x.code == FULL as int then Done(Some(x.fragment), lost)
    else if x.code == FIRST as int then More(Some(x.fragment), lost)
    else if x.code == MIDDLE as int then
      if scratch.None? then More(None, drops + [|x.fragment|]) else More(Some(scratch.value + x.fragment), drops)
    else if x.code == LAST as int then
      if scratch.None? then More(None, drops + [|x.fragment|]) else Done(Some(scratch.value + x.fragment), drops)
    else if x.code == EOF then Done(None, drops)
    else if x.code == BAD then More(None, Note(drops, scratch.Some?, |Had(scratch)|))
    else More(None, drops + [|x.fragment| + |Had(scratch)|])
  }

  /** One logical read from position `p`; `scratch` holds the fragments so far, if any. */
  function ReadFrom(extend: Crc, file: Bytes, p: nat, scratch: Option<Bytes>, drops: seq<nat>): (r: Outcome)
    requires p <= |file|
    ensures p <= r.next <= |file| && (r.record.Some? ==> p < r.next)
    decreases |file| - p
  {
    var x := NextPhysical(extend, file, p);
    match Absorb(x, scratch, drops + x.drops)
    case Done(record, seen) => Outcome(record, x.next, seen)
    case More(sofar, seen) => ReadFrom(extend, file, x.next, sofar, seen)
  }

  function Note(drops: seq<nat>, report: bool, n: nat): seq<nat> {
    if report then drops + [n] else drops
  }

  function Had(scratch: Option<Bytes>): Bytes {
    if scratch.Some? then scratch.value else []
  }

  /** Everything the reader delivers from position `p` on, and everything it has reported by then. */
  function ReadAll(extend: Crc, file: Bytes, p: nat, drops: seq<nat>): (seq<Bytes>, seq<nat>)
    requires p <= |file|
    decreases |file| - p
  {
    var x := ReadFrom(extend, file, p, None, drops);
    if x.record.None? then ([], x.drops)
    else
      var rest := ReadAll(extend, file, x.next, x.drops);
      ([x.record.value] + rest.0, rest.1)
  }

  // ----- One physical record

  /** The file holds `e` at position `p`, as much of it as fits. */
  ghost predicate Holds(file: Bytes, p: nat, e: Bytes) {
    p <= |file| && forall i :: 0 <= i < |e| && p + i < |file| ==> file[p + i] == e[i]
  }

  lemma HoldsParts(file: Bytes, p: nat, a: Bytes, b: Bytes)
    requires Holds(file, p, a + b)
    ensures Holds(file, p, a)
    ensures p + |a| <= |file| ==> Holds(file, p + |a|, b)
  {
    forall i | 0 <= i < |a| && p + i < |file|
      ensures file[p + i] == a[i]
    {
      assert (a + b)[i] == a[i];
    }
    forall i | 0 <= i < |b| && p + |a| + i < |file|
      ensures file[p + |a| + i] == b[i]
    {
      assert (a + b)[|a| + i] == b[i];
    }
  }

  lemma HoldsSlice(file: Bytes, p: nat, e: Bytes)
    requires Holds(file, p, e) && p + |e| <= |file|
    ensures file[p..p + |e|] == e
  {
  }

  lemma {:induction false} ParseWritten(extend: Crc, file: Bytes, p: nat, t: byte, payload: Bytes)
    requires Composes(extend) && t != 0
    requires HEADER + |payload| <= Leftover(p) && Holds(file, p, Phys(extend, t, payload))
    ensures NextPhysical(extend, file, p) ==
            if p + HEADER + |payload| <= |file| then Physical(t, payload, p + HEADER + |payload|, [])
                else Physical(EOF, [], |file|, [])
  {
    hide ParseBuffer, Phys, Composes;
    if p + HEADER <= |file| {
      var buffer := file[p..BufferEnd(file, p)];
      assert Holds(buffer, 0, Phys(extend, t, payload));
      ParseHeld(extend, buffer, |file| < BlockEnd(p), p, t, payload);
    }
  }

  /** A buffer that begins with a written record parses to it. */
  lemma ParseHeld(extend: Crc, buffer: Bytes, eof: bool, p: nat, t: byte, payload: Bytes)
    requires Composes(extend) && t != 0 && |payload| < 0x1_0000
    requires |buffer| >= HEADER && Holds(buffer, 0, Phys(extend, t, payload)) && (|buffer| < HEADER + |payload| ==> eof)
    ensures ParseBuffer(extend, buffer, eof, p) ==
            if HEADER + |payload| <= |buffer| then Physical(t, payload, p + HEADER + |payload|, [])
                else Physical(EOF, [], p + |buffer|, [])
  {
    hide Phys, Composes, Mask, Unmask, ReadFixed32, Holds;
    HeaderHeld(extend, buffer, t, payload);
    if HEADER + |payload| <= |buffer| {
      PayloadHeld(extend, buffer, t, payload);
    }
  }

  lemma HeaderHeld(extend: Crc, buffer: Bytes, t: byte, payload: Bytes)
    requires |payload| < 0x1_0000 && |buffer| >= HEADER && Holds(buffer, 0, Phys(extend, t, payload))
    ensures buffer[4] as int + buffer[5] as int * 256 == |payload| && buffer[6] == t
    ensures ReadFixed32(buffer) == Mask(extend(extend(0, [t]), payload))
  {
    var w := Mask(extend(extend(0, [t]), payload));
    var h := Header(extend, t, payload);
    HoldsParts(buffer, 0, h, payload);
    hide Mask;
    assert h[4] == |payload| % 256 && h[5] == |payload| / 256 && h[6] == t;
    forall i | 0 <= i < HEADER
      ensures buffer[i] == h[i]
    {
      assert buffer[0 + i] == h[i];
    }
    assert buffer == Fixed32(w) + buffer[4..];
    hide Fixed32;
    Fixed32RoundTrip(w, buffer[4..]);
  }

  lemma PayloadHeld(extend: Crc, buffer: Bytes, t: byte, payload: Bytes)
    requires Composes(extend) && |payload| < 0x1_0000
    requires HEADER + |payload| <= |buffer| && Holds(buffer, 0, Phys(extend, t, payload))
    ensures buffer[HEADER..HEADER + |payload|] == payload
    ensures extend(0, buffer[6..HEADER + |payload|]) == Unmask(Mask(extend(extend(0, [t]), payload)))
  {
    HoldsParts(buffer, 0, Header(extend, t, payload), payload);
    HoldsSlice(buffer, HEADER, payload);
    HeaderHeld(extend, buffer, t, payload);
    assert buffer[6..HEADER + |payload|] == [t] + payload;
    UnmaskMask(extend(extend(0, [t]), payload));
  }

  /** The padding before a record is skipped. */
  lemma {:induction false} PaddingSkipped(extend: Crc, file: Bytes, p: nat)
    requires p <= |file|
    ensures Start(p) <= |file| ==> NextPhysical(extend, file, p) == NextPhysical(extend, file, Start(p))
    ensures |file| < Start(p) ==> NextPhysical(extend, file, p) == Physical(EOF, [], |file|, [])
  {
    hide ParseBuffer;
  }

  // ----- One logical record

  lemma EncodeUnfolds(extend: Crc, p: nat, r: Bytes, begin: bool)
    ensures var n := FragmentLength(p, r);
            Encode(extend, p, r, begin) ==
            Padding(p) + Phys(extend, TypeOf(begin, n == |r|), r[..n]) +
            (if n == |r| then [] else Encode(extend, Start(p) + HEADER + n, r[n..], false))
  {
  }

  lemma FragmentIs(p: nat, r: Bytes, avail: nat)
    requires HEADER + avail == Leftover(Start(p))
    ensures FragmentLength(p, r) == if |r| < avail then |r| else avail
  {
  }

  lemma EncodeParts(extend: Crc, file: Bytes, p: nat, r: Bytes, begin: bool)
    requires Holds(file, p, Encode(extend, p, r, begin))
    ensures var n := FragmentLength(p, r);
            var phys := Phys(extend, TypeOf(begin, n == |r|), r[..n]);
            var q := Start(p) + HEADER + n;
            && (Start(p) <= |file| ==> Holds(file, Start(p), phys))
            && (n < |r| && q <= |file| ==> Holds(file, q, Encode(extend, q, r[n..], false)))
  {
    hide Encode, Phys, Holds, FragmentLength;
    var n := FragmentLength(p, r);
    var phys := Phys(extend, TypeOf(begin, n == |r|), r[..n]);
    var q := Start(p) + HEADER + n;
    var rest := if n == |r| then [] else Encode(extend, q, r[n..], false);
    EncodeUnfolds(extend, p, r, begin);
    HoldsParts(file, p, Padding(p) + phys, rest);
    HoldsParts(file, p, Padding(p), phys);
  }

  lemma {:induction false} FragmentRead(extend: Crc, file: Bytes, p: nat, r: Bytes, begin: bool)
    requires Composes(extend) && Holds(file, p, Encode(extend, p, r, begin))
    ensures var n := FragmentLength(p, r);
            var q := Start(p) + HEADER + n;
            NextPhysical(extend, file, p) ==
            if q <= |file| then Physical(TypeOf(begin, n == |r|), r[..n], q, []) else Physical(EOF, [], |file|, [])
  {
    hide NextPhysical, Encode, Holds, Phys;
    EncodeParts(extend, file, p, r, begin);
    AtMostFile(file, p, r, extend, begin);
    PaddingSkipped(extend, file, p);
    if Start(p) <= |file| {
      var n := FragmentLength(p, r);
      ParseWritten(extend, file, Start(p), TypeOf(begin, n == |r|), r[..n]);
    }
  }

  lemma {:induction false} AtMostFile(file: Bytes, p: nat, r: Bytes, extend: Crc, begin: bool)
    requires Holds(file, p, Encode(extend, p, r, begin))
    ensures p <= |file|
  {
  }

  /** What a read must deliver when the record ends at `end`. */
  function Delivered(file: Bytes, end: nat, record: Bytes): Outcome {
    if end <= |file| then Outcome(Some(record), end, []) else Outcome(None, |file|, [])
  }

  /** Reading a record whose bytes are all there returns it; if some are missing, the end is reported and
      nothing else. */
  lemma {:induction false} RecordRead(extend: Crc, file: Bytes, p: nat, r: Bytes, scratch: Option<Bytes>)
    requires Composes(extend) && Holds(file, p, Encode(extend, p, r, scratch.None?)) && p <= |file|
    ensures ReadFrom(extend, file, p, scratch, []) == Delivered(file, p + |Encode(extend, p, r, scratch.None?)|,
              Had(scratch) + r)
    decreases |r|, FragmentLength(p, r) == 0
  {
    hide NextPhysical, Encode, FragmentLength, Start, Holds, ReadFrom, Had, TypeOf, Composes;
    var n := FragmentLength(p, r);
    var q := Start(p) + HEADER + n;
    FragmentRead(extend, file, p, r, scratch.None?);
    EncodeLength(extend, p, r, scratch.None?);
    if |file| < q {
      ReadStops(extend, file, p, scratch);
    } else if n == |r| {
      Seqs.WholeSlice(r);
      ReadEnds(extend, file, p, scratch, r, q);
    } else {
      FragmentProgress(p, r);
      EncodeParts(extend, file, p, r, scratch.None?);
      var sofar := Some(Had(scratch) + r[..n]);
      RecordRead(extend, file, q, r[n..], sofar);
      HadRest(scratch, r, n);
      ReadContinues(extend, file, p, scratch, r[..n], q);
    }
  }

  lemma HadRest(scratch: Option<Bytes>, r: Bytes, n: nat)
    requires n <= |r|
    ensures Had(Some(Had(scratch) + r[..n])) + r[n..] == Had(scratch) + r
  {
    Seqs.Rejoin(Had(scratch), r, n);
  }

  /** Only the very end of a block takes an empty fragment of a record that goes on. */
  lemma FragmentProgress(p: nat, r: Bytes)
    ensures FragmentLength(p, r) == 0 < |r| ==> FragmentLength(Start(p) + HEADER, r[0..]) > 0
  {
  }

  lemma EncodeLength(extend: Crc, p: nat, r: Bytes, begin: bool)
    ensures var n := FragmentLength(p, r);
            var q := Start(p) + HEADER + n;
            p + |Encode(extend, p, r, begin)| == q + if n == |r| then 0 else |Encode(extend, q, r[n..], false)|
  {
    hide Encode, Phys, FragmentLength;
    EncodeUnfolds(extend, p, r, begin);
  }

  lemma {:induction false} ReadContinues(extend: Crc, file: Bytes, p: nat, scratch: Option<Bytes>, fragment: Bytes,
                                         q: nat)
    requires p <= |file| && NextPhysical(extend, file, p) == Physical(TypeOf(scratch.None?, false), fragment, q, [])
    ensures q <= |file| &&
            ReadFrom(extend, file, p, scratch, []) ==
            ReadFrom(extend, file, q, Some(Had(scratch) + fragment), [])
  {
    hide NextPhysical;
    var none: seq<nat> := [];
    assert none + none == none;
    assert [] + fragment == fragment;
  }

  lemma {:induction false} ReadEnds(extend: Crc, file: Bytes, p: nat, scratch: Option<Bytes>, fragment: Bytes, q: nat)
    requires p <= |file| && NextPhysical(extend, file, p) == Physical(TypeOf(scratch.None?, true), fragment, q, [])
    ensures ReadFrom(extend, file, p, scratch, []) == Outcome(Some(Had(scratch) + fragment), q, [])
  {
    hide NextPhysical;
    var none: seq<nat> := [];
    assert none + none == none;
    assert [] + fragment == fragment;
  }

  lemma {:induction false} ReadStops(extend: Crc, file: Bytes, p: nat, scratch: Option<Bytes>)
    requires p <= |file| && NextPhysical(extend, file, p) == Physical(EOF, [], |file|, [])
    ensures ReadFrom(extend, file, p, scratch, []) == Outcome(None, |file|, [])
  {
    hide NextPhysical;
    var none: seq<nat> := [];
    assert none + none == none;
  }

  // ----- Whole logs

  /** Writing more never changes what is there. */
  lemma {:induction false} EncodePrefix(extend: Crc, rs: seq<Bytes>, k: nat)
    requires k <= |rs|
    ensures EncodeAll(extend, rs[..k]) <= EncodeAll(extend, rs)
  {
    if k < |rs| {
      var n := |rs| - 1;
      EncodePrefix(extend, rs[..n], k);
      Seqs.PrefixOfPrefix(rs, k, n);
    } else {
      Seqs.WholeSlice(rs);
    }
  }

  /** How many records have all their bytes within the first `t`. */
  function Surviving(extend: Crc, rs: seq<Bytes>, t: nat): (k: nat)
    ensures k <= |rs|
  {
    if rs == [] then 0
    else if |EncodeAll(extend, rs)| <= t then |rs|
    else Surviving(extend, rs[..|rs| - 1], t)
  }

  lemma {:induction false} SurvivingIs(extend: Crc, rs: seq<Bytes>, t: nat, k: nat)
    requires k <= |rs|
    ensures k <= Surviving(extend, rs, t) <==> k == 0 || |EncodeAll(extend, rs[..k])| <= t
  {
    hide EncodeAll;
    if rs != [] {
      EncodePrefix(extend, rs, k);
      if k < |rs| {
        SurvivingIs(extend, rs[..|rs| - 1], t, k);
        Seqs.PrefixOfPrefix(rs, k, |rs| - 1);
      } else {
        Seqs.WholeSlice(rs);
      }
    }
  }

  /** The log holds record `k` right after the records before it. */
  lemma HoldsRecord(extend: Crc, rs: seq<Bytes>, file: Bytes, k: nat)
    requires k < |rs| && file <= EncodeAll(extend, rs) && |EncodeAll(extend, rs[..k])| <= |file|
    ensures var p := |EncodeAll(extend, rs[..k])|;
            Holds(file, p, Encode(extend, p, rs[k], true)) && |EncodeAll(extend, rs[..k + 1])| ==
                p + |Encode(extend, p, rs[k], true)|
  {
    hide Encode, EncodeAll;
    EncodePrefix(extend, rs, k + 1);
    EncodeOneMore(extend, rs, k);
    PrefixHolds(file, EncodeAll(extend, rs), EncodeAll(extend, rs[..k]), Encode(extend, |EncodeAll(extend, rs[..k])|,
        rs[k], true));
  }

  lemma EncodeOneMore(extend: Crc, rs: seq<Bytes>, k: nat)
    requires k < |rs|
    ensures var before := EncodeAll(extend, rs[..k]);
            EncodeAll(extend, rs[..k + 1]) == before + Encode(extend, |before|, rs[k], true)
  {
    hide Encode;
    assert rs[..k + 1][..k] == rs[..k];
  }

  lemma PrefixHolds(file: Bytes, all: Bytes, a: Bytes, b: Bytes)
    requires file <= all && a + b <= all && |a| <= |file|
    ensures Holds(file, |a|, b)
  {
    forall i | 0 <= i < |b| && |a| + i < |file|
      ensures file[|a| + i] == b[i]
    {
      assert all[|a| + i] == (a + b)[|a| + i];
    }
  }

  /** Reading any byte prefix of a log delivers exactly the records whose bytes all survive, in order,
      and reports nothing. */
  lemma {:induction false} TornLogReads(extend: Crc, rs: seq<Bytes>, t: nat, k: nat)
    requires Composes(extend) && t <= |EncodeAll(extend, rs)| && k <= Surviving(extend, rs, t)
    requires |EncodeAll(extend, rs[..k])| <= t
    ensures ReadAll(extend, EncodeAll(extend, rs)[..t], |EncodeAll(extend, rs[..k])|, []) ==
              (rs[k..Surviving(extend, rs, t)], [])
    decreases |rs| - k
  {
    hide Encode, EncodeAll, ReadFrom, Surviving, Holds;
    var file, p, n := EncodeAll(extend, rs)[..t], |EncodeAll(extend, rs[..k])|, Surviving(extend, rs, t);
    if k < |rs| {
      HoldsRecord(extend, rs, file, k);
      RecordRead(extend, file, p, rs[k], None);
      SurvivingIs(extend, rs, t, k + 1);
      assert [] + rs[k] == rs[k];
      if k < n {
        TornLogReads(extend, rs, t, k + 1);
        assert [rs[k]] + rs[k + 1..n] == rs[k..n];
      } else {
        assert rs[k..n] == [];
      }
    } else {
      Seqs.WholeSlice(rs);
      NothingLeft(extend, file, p);
    }
  }

  lemma {:induction false} NothingLeft(extend: Crc, file: Bytes, p: nat)
    requires p == |file|
    ensures ReadFrom(extend, file, p, None, []) == Outcome(None, p, [])
  {
  }

  /** Round trip: reading a whole log returns exactly the records written. */
  lemma {:induction false} LogRoundTrip(extend: Crc, rs: seq<Bytes>)
    requires Composes(extend)
    ensures ReadAll(extend, EncodeAll(extend, rs), 0, []) == (rs, [])
  {
    var all := EncodeAll(extend, rs);
    assert rs[..0] == [] && EncodeAll(extend, []) == [];
    SurvivingIs(extend, rs, |all|, |rs|);
    Seqs.WholeSlice(rs);
    Seqs.WholeSlice(all);
    TornLogReads(extend, rs, |all|, 0);
  }
}
