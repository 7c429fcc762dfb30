/** When a message that encodes also decodes: exactly if every string that is present leaves room for its
    terminator. A string that fills its array is encoded in full, and the decoder refuses it. */
module ProtoTextFits {
  import opened Keys
  import opened LogFormat
  import opened Varints
  import opened Proto
  import opened ProtoRoundTrip
  import Seqs

  /** Every present string is shorter than its member. */
  ghost predicate TextsFit(k: Kind, v: Value)
    decreases v, 1
  {
    match k
    case Text(size) => v.Raw? && |v.bytes| < size
    case Sub(fields) => v.Msg? && |v.slots| == |fields| && forall i :: 0 <= i < |fields| ==>
        TextsFitSlot(fields[i], v.slots[i])
    case _ => true
  }

  ghost predicate TextsFitSlot(f: Field, s: Slot)
    decreases s, 0
  {
    match f.presence
    case Repeated(_) => s.Many? && forall i :: 0 <= i < |s.items| ==> TextsFit(f.kind, s.items[i])
    case Required => s.One? && TextsFit(f.kind, s.value)
    case Implicit => s.One? && (!IsZero(f.kind, s.value) ==> TextsFit(f.kind, s.value))
    case _ => s.One? && (s.has ==> TextsFit(f.kind, s.value))
  }

  /** At most one field of a oneof is chosen, as the single tag of the C union has it. */
  ghost predicate OneChoice(k: Kind, v: Value)
    decreases v, 1
  {
    match k
    case Sub(fields) =>
      && v.Msg? && |v.slots| == |fields| && Exclusive(fields, v.slots)
      && forall i :: 0 <= i < |fields| ==> OneChoiceSlot(fields[i], v.slots[i])
    case _ => true
  }

  ghost predicate OneChoiceSlot(f: Field, s: Slot)
    decreases s, 0
  {
    if s.Many? then forall i :: 0 <= i < |s.items| ==> OneChoice(f.kind, s.items[i]) else OneChoice(f.kind, s.value)
  }

  // ----- What encodes is storable if its strings fit

  lemma {:induction false} EncodedStorable(k: Kind, v: Value)
    requires Typed(k, v) && OneChoice(k, v) && EncodeValue(k, v).Some?
    ensures Storable(k, v) <==> TextsFit(k, v)
    decreases v, 1
  {
    if k.Sub? {
      forall i | 0 <= i < |k.fields|
        ensures StorableSlot(k.fields[i], v.slots[i]) <==> TextsFitSlot(k.fields[i], v.slots[i])
      {
        assert TypedSlot(k.fields[i], v.slots[i]) && OneChoiceSlot(k.fields[i], v.slots[i]);
        FieldEncoded(k, v, 0, i);
        EncodedStorableSlot(k.fields[i], v.slots[i]);
      }
    }
  }

  lemma {:induction false} FieldEncoded(k: Kind, v: Value, from: nat, i: nat)
    requires k.Sub? && Typed(k, v) && from <= i < |k.fields| && EncodeFrom(k, v, from).Some?
    ensures TypedSlot(k.fields[i], v.slots[i]) && EncodeField(k.fields[i], v.slots[i]).Some?
    decreases i - from
  {
    hide EncodeField;
    if from < i {
      FieldEncoded(k, v, from + 1, i);
    }
  }

  lemma {:induction false} EncodedStorableSlot(f: Field, s: Slot)
    requires TypedSlot(f, s) && OneChoiceSlot(f, s) && EncodeField(f, s).Some?
    ensures StorableSlot(f, s) <==> TextsFitSlot(f, s)
    decreases s, 0
  {
    if s.Many? {
      forall i | 0 <= i < |s.items|
        ensures Storable(f.kind, s.items[i]) <==> TextsFit(f.kind, s.items[i])
      {
        if !Packable(f.kind) {
          ItemEncoded(f, s, 0, i);
          EncodedStorable(f.kind, s.items[i]);
        }
      }
    } else if !Absent(f, s) {
      assert EncodeField(f, s) == EncodeTagged(f, s);
      EncodedStorable(f.kind, s.value);
    }
  }

  lemma {:induction false} ItemEncoded(f: Field, s: Slot, from: nat, i: nat)
    requires TypedSlot(f, s) && s.Many? && from <= i < |s.items| && EachFrom(f, s, from).Some?
    ensures Typed(f.kind, s.items[i]) && EncodeValue(f.kind, s.items[i]).Some?
    decreases i - from
  {
    hide EncodeValue;
    if from < i {
      ItemEncoded(f, s, from + 1, i);
    }
  }

  // ----- A string without room for its terminator is refused

  lemma {:induction false} ValueFails(f: Field, v: Value, rest: Bytes)
    requires WellFormed(f.kind) && Typed(f.kind, v) && OneChoice(f.kind, v) && !Storable(f.kind, v)
    requires EncodeValue(f.kind, v).Some? && |EncodeValue(f.kind, v).value| < TWO32
    ensures DecodeValue(f.kind, DefaultValue(f), EncodeValue(f.kind, v).value + rest) == None
    decreases v, if v.Msg? then |v.slots| + 1 else 0
  {
    hide TakeDelimited, Delimited;
    var k := f.kind;
    if k.Sub? {
      var body := EncodeFrom(k, v, 0).value;
      DelimitedLength(body);
      TakeReads(body, rest);
      PartialEnds(k, v);
      MessageFails(k, v, {}, 0);
    } else if k.Text? {
      DelimitedLength(v.bytes);
      TakeReads(v.bytes, rest);
    }
  }

  ghost predicate StorableAfter(k: Kind, v: Value, i: nat)
    requires k.Sub? && v.Msg? && |v.slots| == |k.fields|
  {
    forall j :: i <= j < |k.fields| ==> StorableSlot(k.fields[j], v.slots[j])
  }

  /** Members before the first that does not fit are decoded, and that one stops the decoder. */
  lemma {:induction false} MessageFails(k: Kind, v: Value, seen: set<nat>, i: nat)
    requires k.Sub? && WellFormed(k) && Typed(k, v) && OneChoice(k, v) && i <= |k.fields| && !StorableAfter(k, v, i)
    requires EncodeFrom(k, v, i).Some? && |EncodeFrom(k, v, i).value| < TWO32
    ensures DecodeMessage(k, Partial(k, v, i), seen, EncodeFrom(k, v, i).value) == None
    decreases v, |v.slots| - i
  {
    if i < |k.fields| {
      var f, s := k.fields[i], v.slots[i];
      var e, rest := EncodeField(f, s).value, EncodeFrom(k, v, i + 1).value;
      assert TypedSlot(f, s) && WellFormedField(f);
      if !StorableSlot(f, s) {
        assert OneChoiceSlot(f, s);
        MemberFails(k, Partial(k, v, i), seen, i, s, rest);
      } else if Absent(f, s) {
        AbsentIsEmpty(f, s);
        assert [] + rest == rest;
        PartialAbsent(k, v, i);
        MessageFails(k, v, seen, i + 1);
      } else {
        PartialStores(k, v, i);
        MemberReads(k, Partial(k, v, i), seen, i, s, rest);
        MessageFails(k, v, Mark(f, i, seen), i + 1);
      }
    }
  }

  /** A slot that is not storable stops the decoder at any destination. */
  lemma {:induction false} MemberFails(k: Kind, d: Value, seen: set<nat>, i: nat, s: Slot, rest: Bytes)
    requires Ready(k, d, i, s) && OneChoiceSlot(k.fields[i], s) && !StorableSlot(k.fields[i], s)
    requires EncodeField(k.fields[i], s).Some? && |EncodeField(k.fields[i], s).value| < TWO32
    ensures DecodeMessage(k, d, seen, EncodeField(k.fields[i], s).value + rest) == None
    decreases s, if s.Many? then |s.items| + 2 else 1
  {
    var f := k.fields[i];
    if s.One? {
      SingleFails(k, d, seen, i, s, rest);
    } else {
      ArrayParts(f, s);
      assert IsArray(k, d, i, s);
      ItemsFail(k, d, seen, i, s, 0, rest);
      ItemsAll(k, d, i, s);
    }
  }

  /** An array that encodes but cannot be stored is not packed, and one of its items does not fit. */
  lemma {:induction false} ArrayParts(f: Field, s: Slot)
    requires TypedSlot(f, s) && s.Many? && !StorableSlot(f, s) && EncodeField(f, s).Some?
    ensures !Packable(f.kind) && EncodeField(f, s) == EachFrom(f, s, 0)
    ensures f.presence.Repeated? && |s.items| <= f.presence.max && !ItemsStorable(f, s, 0)
  {
  }

  ghost predicate ItemsStorable(f: Field, s: Slot, j: nat)
    requires s.Many?
  {
    forall l :: j <= l < |s.items| ==> Storable(f.kind, s.items[l])
  }

  lemma {:induction false} SingleFails(k: Kind, d: Value, seen: set<nat>, i: nat, s: Slot, rest: Bytes)
    requires Ready(k, d, i, s) && s.One? && OneChoiceSlot(k.fields[i], s) && !StorableSlot(k.fields[i], s)
    requires EncodeField(k.fields[i], s).Some? && |EncodeField(k.fields[i], s).value| < TWO32
    ensures DecodeMessage(k, d, seen, EncodeField(k.fields[i], s).value + rest) == None
    decreases s, 0
  {
    var f := k.fields[i];
    assert WellFormedField(f);
    assert EncodeField(f, s) == EncodeTagged(f, s);
    var tag, body := Proto.Tag(WireType(f.kind), f.tag), EncodeValue(f.kind, s.value).value;
    ValueFails(f, s.value, rest);
    hide EncodeField, EncodeValue, Typed, Storable, WellFormed, Proto.Tag, DecodeValue, OneChoice;
    Seqs.Assoc(tag, body, rest);
    OneStep(k, d, seen, i, WireType(f.kind), body + rest);
  }

  lemma {:induction false} ItemsFail(k: Kind, d: Value, seen: set<nat>, i: nat, s: Slot, j: nat, rest: Bytes)
    requires Remains(k, d, i, s, j) && OneChoiceSlot(k.fields[i], s) && !ItemsStorable(k.fields[i], s, j)
    ensures DecodeMessage(k, WithItems(k, d, i, s, j), seen, EachFrom(k.fields[i], s, j).value + rest) == None
    decreases s, |s.items| - j, 2
  {
    var f := k.fields[i];
    hide Remains, OneChoiceSlot, DecodeMessage, WithItems, EachFrom, EncodeValue, Storable, Typed;
    if j < |s.items| {
      if Storable(f.kind, s.items[j]) {
        EachStep(k, d, seen, i, s, j, rest);
        ItemsFail(k, d, seen, i, s, j + 1, rest);
      } else {
        FirstItemFails(k, d, seen, i, s, j, rest);
      }
    }
  }

  lemma {:induction false} FirstItemFails(k: Kind, d: Value, seen: set<nat>, i: nat, s: Slot, j: nat, rest: Bytes)
    requires Remains(k, d, i, s, j) && OneChoiceSlot(k.fields[i], s) && j < |s.items|
    requires !Storable(k.fields[i].kind, s.items[j])
    ensures DecodeMessage(k, WithItems(k, d, i, s, j), seen, EachFrom(k.fields[i], s, j).value + rest) == None
    decreases s, |s.items| - j, 1
  {
    var f := k.fields[i];
    EachUnfolds(f, s, j);
    var tag, body, more := Proto.Tag(WireType(f.kind), f.tag), EncodeValue(f.kind, s.items[j]).value,
        EachFrom(f, s, j + 1).value;
    hide IsArray, OneChoiceSlot, DecodeMessage, WithItems, EachFrom, EncodeValue, Storable, Proto.Tag, Typed, WireType;
    Seqs.Lengths(tag, body, more);
    Seqs.Assoc(tag + body, more, rest);
    ItemFails(k, d, seen, i, s, j, more + rest);
  }

  lemma {:induction false} ItemFails(k: Kind, d: Value, seen: set<nat>, i: nat, s: Slot, j: nat, rest: Bytes)
    requires IsArray(k, d, i, s) && OneChoiceSlot(k.fields[i], s) && j < |s.items|
    requires Typed(k.fields[i].kind, s.items[j]) && !Storable(k.fields[i].kind, s.items[j])
    requires EncodeValue(k.fields[i].kind, s.items[j]).Some?
    requires |EncodeValue(k.fields[i].kind, s.items[j]).value| < TWO32
    ensures var f := k.fields[i];
            var e := Proto.Tag(WireType(f.kind), f.tag) + EncodeValue(f.kind, s.items[j]).value;
            DecodeMessage(k, WithItems(k, d, i, s, j), seen, e + rest) == None
    decreases s, 0
  {
    var f := k.fields[i];
    assert WellFormedField(f);
    var tag, body := Proto.Tag(WireType(f.kind), f.tag), EncodeValue(f.kind, s.items[j]).value;
    ValueFails(f, s.items[j], rest);
    hide EncodeValue, Typed, Storable, WellFormed, Proto.Tag, DecodeValue, NormalItems, OneChoice;
    Seqs.Assoc(tag, body, rest);
    OneStep(k, WithItems(k, d, i, s, j), seen, i, WireType(f.kind), body + rest);
  }

  /** A message that encodes comes back from its bytes if and only if each present string is shorter than its
      member; otherwise the decoder reports an error. */
  lemma {:induction false} RoundTripExactly(k: Kind, v: Value)
    requires k.Sub? && WellFormed(k) && Typed(k, v) && OneChoice(k, v)
    requires EncodeFrom(k, v, 0).Some? && |EncodeFrom(k, v, 0).value| < TWO32
    ensures Decode(k, EncodeFrom(k, v, 0).value) == if TextsFit(k, v) then Some(Normal(k, v)) else None
  {
    EncodedStorable(k, v);
    if Storable(k, v) {
      MessageRoundTrip(k, v);
    } else {
      PartialEnds(k, v);
      MessageFails(k, v, {}, 0);
    }
  }
}
