/** Descriptors that differ. A field that the decoder does not know is skipped whatever its value, so a message
    encoded under one descriptor is decoded under another to the fields that both have; fields that only the
    decoder has keep their defaults, and the decoder fails exactly if one of them is required. */
module ProtoEvolution {
  import opened Keys
  import opened LogFormat
  import opened Varints
  import opened Proto
  import opened ProtoRoundTrip
  import Seqs

  // ----- Skipping

  ghost predicate Unknown(k: Kind, tag: nat)
    requires k.Sub?
  {
    0 < tag < TAG_LIMIT && forall i :: 0 <= i < |k.fields| ==> k.fields[i].tag != tag
  }

  /** What a value of each wire type looks like. */
  ghost predicate OnTheWire(wire: nat, value: Bytes) {
    || (wire == 0 && exists n: nat :: value == Varint(n))
    || (wire == 1 && |value| == 8)
    || (wire == 2 && exists x :: |x| < TWO32 && value == Delimited(x))
    || (wire == 5 && |value| == 4)
  }

  lemma {:induction false} SkipVarintReads(n: nat, rest: Bytes)
    ensures SkipVarint(Varint(n) + rest) == Some(rest)
  {
    if n < 128 {
      assert ([n] + rest)[1..] == rest;
    } else {
      SkipVarintReads(n / 128, rest);
      assert (Varint(n) + rest)[1..] == Varint(n / 128) + rest;
    }
  }

  lemma {:induction false} SkipReads(wire: nat, value: Bytes, rest: Bytes)
    requires OnTheWire(wire, value)
    ensures SkipField(wire, value + rest) == Some(rest)
  {
    hide SkipVarint, TakeDelimited, Delimited, Varint;
    if wire == 0 {
      var n: nat :| value == Varint(n);
      SkipVarintReads(n, rest);
    } else if wire == 2 {
      var x :| |x| < TWO32 && value == Delimited(x);
      TakeReads(x, rest);
    }
  }

  /** A field without a member in the descriptor leaves no trace, whatever its wire type. */
  lemma {:induction false} UnknownSkipped(k: Kind, d: Value, seen: set<nat>, wire: nat, tag: nat, value: Bytes,
                                          rest: Bytes)
    requires k.Sub? && d.Msg? && |d.slots| == |k.fields| && Unknown(k, tag) && OnTheWire(wire, value)
    ensures DecodeMessage(k, d, seen, (Proto.Tag(wire, tag) + value) + rest) == DecodeMessage(k, d, seen, rest)
  {
    SkipReads(wire, value, rest);
    Seqs.Assoc(Proto.Tag(wire, tag), value, rest);
    UnknownStep(k, d, seen, wire, tag, value + rest);
  }

  lemma {:induction false} UnknownStep(k: Kind, d: Value, seen: set<nat>, wire: nat, tag: nat, body: Bytes)
    requires k.Sub? && d.Msg? && |d.slots| == |k.fields| && Unknown(k, tag) && wire < 8
    ensures var r := SkipField(wire, body);
            DecodeMessage(k, d, seen, Proto.Tag(wire, tag) + body) ==
              if r.None? then None else DecodeMessage(k, d, seen, r.value)
  {
    hide Decode32, Varint, SkipField, DecodeField;
    Decode32Reads(tag * 8 + wire, body);
    assert (tag * 8 + wire) / 8 == tag && (tag * 8 + wire) % 8 == wire;
    assert Find(k.fields, tag).None?;
  }

  /** Groups and undefined wire types are an error. */
  lemma {:induction false} OddWireFails(k: Kind, d: Value, seen: set<nat>, wire: nat, tag: nat, rest: Bytes)
    requires k.Sub? && d.Msg? && |d.slots| == |k.fields| && Unknown(k, tag)
    requires wire == 3 || wire == 4 || wire == 6 || wire == 7
    ensures DecodeMessage(k, d, seen, Proto.Tag(wire, tag) + rest) == None
  {
    hide DecodeMessage;
    UnknownStep(k, d, seen, wire, tag, rest);
  }

  // ----- Whole fields

  lemma {:induction false} ValueOnTheWire(k: Kind, v: Value)
    requires Typed(k, v) && EncodeValue(k, v).Some? && |EncodeValue(k, v).value| < TWO32
    ensures OnTheWire(WireType(k), EncodeValue(k, v).value)
  {
    hide Varint, Fixed32;
    if k.Sub? {
      DelimitedLength(EncodeFrom(k, v, 0).value);
    } else if k.Blob? || k.Text? || k.FixedBlob? {
      DelimitedLength(v.bytes);
    }
  }

  lemma {:induction false} TaggedSkipped(b: Kind, d: Value, seen: set<nat>, f: Field, v: Value, rest: Bytes)
    requires b.Sub? && d.Msg? && |d.slots| == |b.fields| && Unknown(b, f.tag)
    requires Typed(f.kind, v) && EncodeValue(f.kind, v).Some? && |EncodeValue(f.kind, v).value| < TWO32
    ensures DecodeMessage(b, d, seen, (Proto.Tag(WireType(f.kind), f.tag) + EncodeValue(f.kind, v).value) + rest) ==
            DecodeMessage(b, d, seen, rest)
  {
    hide EncodeValue, Typed;
    ValueOnTheWire(f.kind, v);
    UnknownSkipped(b, d, seen, WireType(f.kind), f.tag, EncodeValue(f.kind, v).value, rest);
  }

  lemma {:induction false} EachSkipped(b: Kind, d: Value, seen: set<nat>, f: Field, s: Slot, j: nat, rest: Bytes)
    requires b.Sub? && d.Msg? && |d.slots| == |b.fields| && Unknown(b, f.tag)
    requires TypedSlot(f, s) && s.Many? && j <= |s.items|
    requires EachFrom(f, s, j).Some? && |EachFrom(f, s, j).value| < TWO32
    ensures DecodeMessage(b, d, seen, EachFrom(f, s, j).value + rest) == DecodeMessage(b, d, seen, rest)
    decreases |s.items| - j
  {
    EachUnfolds(f, s, j);
    hide EachFrom, EncodeValue, Typed, TypedSlot, DecodeMessage, Proto.Tag, Unknown;
    if j == |s.items| {
      Seqs.NothingBefore(rest);
    } else {
      var tag, body, more := Proto.Tag(WireType(f.kind), f.tag), EncodeValue(f.kind, s.items[j]).value,
          EachFrom(f, s, j + 1).value;
      Seqs.Lengths(tag, body, more);
      Seqs.Assoc(tag + body, more, rest);
      TaggedSkipped(b, d, seen, f, s.items[j], more + rest);
      EachSkipped(b, d, seen, f, s, j + 1, rest);
    }
  }

  /** Everything a member puts on the wire is skipped by a decoder that does not know it. */
  lemma {:induction false} FieldSkipped(b: Kind, d: Value, seen: set<nat>, f: Field, s: Slot, rest: Bytes)
    requires b.Sub? && d.Msg? && |d.slots| == |b.fields| && Unknown(b, f.tag) && TypedSlot(f, s)
    requires EncodeField(f, s).Some? && |EncodeField(f, s).value| < TWO32
    ensures DecodeMessage(b, d, seen, EncodeField(f, s).value + rest) == DecodeMessage(b, d, seen, rest)
  {
    hide EncodeValue, Typed, DecodeMessage, Proto.Tag, Unknown, PackedFrom, Delimited;
    if EncodeField(f, s) == Some([]) {
      Seqs.NothingBefore(rest);
    } else if s.One? {
      assert EncodeField(f, s) == EncodeTagged(f, s);
      TaggedSkipped(b, d, seen, f, s.value, rest);
    } else if Packable(f.kind) {
      PackedSkipped(b, d, seen, f, PackedFrom(f, s, 0), rest);
    } else {
      assert EncodeField(f, s) == EachFrom(f, s, 0);
      EachSkipped(b, d, seen, f, s, 0, rest);
    }
  }

  lemma {:induction false} PackedSkipped(b: Kind, d: Value, seen: set<nat>, f: Field, body: Bytes, rest: Bytes)
    requires b.Sub? && d.Msg? && |d.slots| == |b.fields| && Unknown(b, f.tag) && |Delimited(body)| < TWO32
    ensures DecodeMessage(b, d, seen, (Proto.Tag(2, f.tag) + Delimited(body)) + rest) == DecodeMessage(b, d, seen, rest)
  {
    DelimitedLength(body);
    UnknownSkipped(b, d, seen, 2, f.tag, Delimited(body), rest);
  }

  // ----- Two descriptors

  /** Fields with the same tag are the same. */
  ghost predicate Agree(a: Kind, b: Kind)
    requires a.Sub? && b.Sub?
  {
    forall i, j :: 0 <= i < |a.fields| && 0 <= j < |b.fields| && a.fields[i].tag == b.fields[j].tag ==>
      a.fields[i] == b.fields[j]
  }

  /** Descriptor `b` reads, from the first `n` members of a message under `a`, the fields that both have. */
  ghost function Common(a: Kind, v: Value, b: Kind, n: nat): (r: Value)
    requires a.Sub? && b.Sub? && v.Msg? && |v.slots| == |a.fields|
    ensures r.Msg? && |r.slots| == |b.fields|
  {
    Msg(seq(|b.fields|, j requires 0 <= j < |b.fields| => CommonSlot(a, v, b.fields[j], n)))
  }

  ghost function CommonSlot(a: Kind, v: Value, f: Field, n: nat): Slot
    requires a.Sub? && v.Msg? && |v.slots| == |a.fields|
  {
    var i := Find(a.fields, f.tag);
    if i.Some? && i.value < n then NormalSlot(f, v.slots[i.value]) else DefaultSlot(f)
  }

  /** The required fields of `b` among the first `n` fields of `a`. */
  ghost function Met(a: Kind, b: Kind, n: nat): set<nat>
    requires a.Sub? && b.Sub?
  {
    set j: nat | j < |b.fields| && b.fields[j].presence.Required? && MetAt(a, b.fields[j], n) :: j
  }

  ghost predicate MetAt(a: Kind, f: Field, n: nat)
    requires a.Sub?
  {
    var i := Find(a.fields, f.tag);
    i.Some? && i.value < n
  }

  /** Both descriptors are well-formed and agree, and the message is one of the first. */
  ghost predicate Compatible(a: Kind, v: Value, b: Kind) {
    && a.Sub? && b.Sub? && WellFormed(a) && WellFormed(b) && Agree(a, b) && Typed(a, v) && Storable(a, v)
  }

  lemma {:induction false} FieldKnown(a: Kind, v: Value, b: Kind, n: nat, j: nat)
    requires Compatible(a, v, b) && n < |a.fields| && j < |b.fields| && b.fields[j].tag == a.fields[n].tag
    ensures b.fields[j] == a.fields[n] && Find(a.fields, a.fields[n].tag) == Some(n)
    ensures CommonSlot(a, v, b.fields[j], n) == DefaultSlot(b.fields[j])
    ensures CommonSlot(a, v, b.fields[j], n + 1) == NormalSlot(b.fields[j], v.slots[n])
  {
    FindsIt(a.fields, n);
  }

  /** Other members do not notice. */
  lemma {:induction false} OtherField(a: Kind, v: Value, b: Kind, n: nat, j: nat)
    requires Compatible(a, v, b) && n < |a.fields| && j < |b.fields| && b.fields[j].tag != a.fields[n].tag
    ensures CommonSlot(a, v, b.fields[j], n + 1) == CommonSlot(a, v, b.fields[j], n)
    ensures MetAt(a, b.fields[j], n + 1) <==> MetAt(a, b.fields[j], n)
  {
  }

  /** A chosen field of a oneof leaves every other field of its group at its default. */
  lemma {:induction false} GroupDefault(a: Kind, v: Value, b: Kind, n: nat, j: nat)
    requires Compatible(a, v, b) && n < |a.fields| && j < |b.fields| && b.fields[j].tag != a.fields[n].tag
    requires a.fields[n].presence.OneOf? && b.fields[j].presence == a.fields[n].presence
    requires !Absent(a.fields[n], v.slots[n])
    ensures CommonSlot(a, v, b.fields[j], n + 1) == DefaultSlot(b.fields[j])
  {
    var i := Find(a.fields, b.fields[j].tag);
    if i.Some? && i.value < n + 1 {
      assert a.fields[i.value] == b.fields[j] && i.value != n;
      assert TypedSlot(a.fields[i.value], v.slots[i.value]) && TypedSlot(a.fields[n], v.slots[n]);
    }
  }

  lemma {:induction false} StoresCommon(a: Kind, v: Value, b: Kind, n: nat, j: nat)
    requires Compatible(a, v, b) && n < |a.fields| && j < |b.fields| && b.fields[j].tag == a.fields[n].tag
    requires !Absent(a.fields[n], v.slots[n])
    ensures Ready(b, Common(a, v, b, n), j, v.slots[n])
    ensures With(b, Common(a, v, b, n), j, v.slots[n]) == Common(a, v, b, n + 1)
    ensures Mark(b.fields[j], j, Met(a, b, n)) == Met(a, b, n + 1)
  {
    FieldKnown(a, v, b, n, j);
    assert TypedSlot(a.fields[n], v.slots[n]);
    forall l | 0 <= l < |b.fields| && l != j
      ensures b.fields[l].tag != a.fields[n].tag
      ensures CommonSlot(a, v, b.fields[l], n + 1) == CommonSlot(a, v, b.fields[l], n)
      ensures MetAt(a, b.fields[l], n + 1) <==> MetAt(a, b.fields[l], n)
      ensures a.fields[n].presence.OneOf? && b.fields[l].presence == a.fields[n].presence ==>
                CommonSlot(a, v, b.fields[l], n + 1) == DefaultSlot(b.fields[l])
    {
      assert b.fields[l].tag != b.fields[j].tag;
      OtherField(a, v, b, n, l);
      if a.fields[n].presence.OneOf? && b.fields[l].presence == a.fields[n].presence {
        GroupDefault(a, v, b, n, l);
      }
    }
    hide Compatible, CommonSlot, DefaultSlot, NormalSlot, Typed, Storable, WellFormed;
  }

  /** A member that is absent, or unknown to `b`, changes nothing. */
  lemma {:induction false} NothingStored(a: Kind, v: Value, b: Kind, n: nat)
    requires Compatible(a, v, b) && n < |a.fields|
    requires Absent(a.fields[n], v.slots[n]) || forall j :: 0 <= j < |b.fields| ==> b.fields[j].tag != a.fields[n].tag
    ensures Common(a, v, b, n + 1) == Common(a, v, b, n) && Met(a, b, n + 1) == Met(a, b, n)
  {
    assert TypedSlot(a.fields[n], v.slots[n]) && WellFormedField(a.fields[n]);
    forall j | 0 <= j < |b.fields|
      ensures CommonSlot(a, v, b.fields[j], n + 1) == CommonSlot(a, v, b.fields[j], n)
      ensures b.fields[j].presence.Required? ==> (MetAt(a, b.fields[j], n + 1) <==> MetAt(a, b.fields[j], n))
    {
      if b.fields[j].tag == a.fields[n].tag {
        FieldKnown(a, v, b, n, j);
        AbsentIsEmpty(a.fields[n], v.slots[n]);
      } else {
        OtherField(a, v, b, n, j);
      }
    }
    hide Compatible, CommonSlot, MetAt;
  }

  /** One member of the message is read or skipped. */
  lemma {:induction false} MemberPasses(a: Kind, v: Value, b: Kind, n: nat, rest: Bytes)
    requires Compatible(a, v, b) && n < |a.fields|
    requires TypedSlot(a.fields[n], v.slots[n])
    requires EncodeField(a.fields[n], v.slots[n]).Some? && |EncodeField(a.fields[n], v.slots[n]).value| < TWO32
    ensures DecodeMessage(b, Common(a, v, b, n), Met(a, b, n), EncodeField(a.fields[n], v.slots[n]).value + rest) ==
            DecodeMessage(b, Common(a, v, b, n + 1), Met(a, b, n + 1), rest)
  {
    var f, s := a.fields[n], v.slots[n];
    assert WellFormedField(f) && StorableSlot(f, s);
    hide DecodeMessage, EncodeField, Common, Met, Typed, Storable, WellFormed, NormalSlot, Mark;
    if Absent(f, s) {
      AbsentIsEmpty(f, s);
      Seqs.NothingBefore(rest);
      NothingStored(a, v, b, n);
    } else if j :| 0 <= j < |b.fields| && b.fields[j].tag == f.tag {
      StoresCommon(a, v, b, n, j);
      FieldKnown(a, v, b, n, j);
      MemberReads(b, Common(a, v, b, n), Met(a, b, n), j, s, rest);
    } else {
      NothingStored(a, v, b, n);
      FieldSkipped(b, Common(a, v, b, n), Met(a, b, n), f, s, rest);
    }
  }

  lemma {:induction false} RestPasses(a: Kind, v: Value, b: Kind, n: nat)
    requires Compatible(a, v, b) && n <= |a.fields| && EncodeFrom(a, v, n).Some? && |EncodeFrom(a, v, n).value| < TWO32
    ensures DecodeMessage(b, Common(a, v, b, n), Met(a, b, n), EncodeFrom(a, v, n).value) ==
            Finish(b, Common(a, v, b, |a.fields|), Met(a, b, |a.fields|))
    decreases |a.fields| - n
  {
    if n < |a.fields| {
      assert TypedSlot(a.fields[n], v.slots[n]);
      hide EncodeField, Typed, Storable, WellFormed, Common, Met, DecodeMessage, Finish;
      MemberPasses(a, v, b, n, EncodeFrom(a, v, n + 1).value);
      RestPasses(a, v, b, n + 1);
    }
  }

  // ----- Required fields

  /** The required fields before `j`. */
  ghost function RequiredSet(fields: seq<Field>, j: nat): set<nat> {
    set i: nat | i < j && i < |fields| && fields[i].presence.Required? :: i
  }

  lemma {:induction false} RequiredCounts(fields: seq<Field>, j: nat)
    requires j <= |fields|
    ensures RequiredBefore(fields, j) == |RequiredSet(fields, j)|
  {
    if j > 0 {
      RequiredCounts(fields, j - 1);
      if fields[j - 1].presence.Required? {
        assert RequiredSet(fields, j) == RequiredSet(fields, j - 1) + {j - 1};
      } else {
        assert RequiredSet(fields, j) == RequiredSet(fields, j - 1);
      }
    }
  }

  /** `b` has a required field, one of its first 64, that `a` does not have. */
  ghost predicate Misses(a: Kind, b: Kind)
    requires a.Sub? && b.Sub?
  {
    exists j :: 0 <= j < |b.fields| && b.fields[j].presence.Required? && |RequiredSet(b.fields, j)| < 64
      && forall i :: 0 <= i < |a.fields| ==> a.fields[i].tag != b.fields[j].tag
  }

  lemma {:induction false} FinishedUnlessMissing(a: Kind, b: Kind, r: Value)
    requires a.Sub? && b.Sub?
    ensures Finish(b, r, Met(a, b, |a.fields|)) == if Misses(a, b) then None else Some(r)
  {
    forall j | 0 <= j < |b.fields|
      ensures RequiredBefore(b.fields, j) == |RequiredSet(b.fields, j)|
      ensures MetAt(a, b.fields[j], |a.fields|) <==>
              exists i :: 0 <= i < |a.fields| && a.fields[i].tag == b.fields[j].tag
    {
      RequiredCounts(b.fields, j);
    }
    hide MetAt, RequiredSet, RequiredBefore;
  }

  lemma {:induction false} NothingCommon(a: Kind, v: Value, b: Kind)
    requires a.Sub? && b.Sub? && v.Msg? && |v.slots| == |a.fields|
    ensures Common(a, v, b, 0) == DefaultMessage(b) && Met(a, b, 0) == {}
  {
  }

  /** A message encoded under one descriptor and decoded under another: every field that both have comes back, every
      other field of the second has its default; an error exactly if one of its first 64 required fields is missing. */
  lemma {:induction false} DecodesCommon(a: Kind, v: Value, b: Kind)
    requires Compatible(a, v, b) && EncodeFrom(a, v, 0).Some? && |EncodeFrom(a, v, 0).value| < TWO32
    ensures Decode(b, EncodeFrom(a, v, 0).value) == if Misses(a, b) then None else Some(Common(a, v, b, |a.fields|))
  {
    hide EncodeFrom, DecodeMessage, Finish, Common, Met, Misses, Storable, WellFormed;
    NothingCommon(a, v, b);
    RestPasses(a, v, b, 0);
    FinishedUnlessMissing(a, b, Common(a, v, b, |a.fields|));
  }
}
