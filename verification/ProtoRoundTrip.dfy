/** Decoding what was encoded gives the message back: presence flags, counts, oneof choices and present
    values, through submessages and packed arrays. */
module ProtoRoundTrip {
  import opened Keys
  import opened LogFormat
  import opened Varints
  import opened Proto
  import Seqs

  // ----- What the statement ranges over

  const TAG_LIMIT: nat := 0x2000_0000

  /** A descriptor the generator could emit: nonzero distinct tags, integer sizes of 1, 2, 4 or 8 bytes,
      and zero defaults wherever presence is implicit. */
  ghost predicate WellFormed(k: Kind)
    decreases k, 0
  {
    match k
    case Signed(size) => IsSize(size)
    case Unsigned(size) => IsSize(size)
    case ZigZag(size) => IsSize(size)
    case Sub(fields) =>
      && (forall i, j :: 0 <= i < j < |fields| ==> fields[i].tag != fields[j].tag)
      && (forall i :: 0 <= i < |fields| ==> WellFormedField(fields[i]))
    case _ => true
  }

  ghost predicate WellFormedField(f: Field)
    decreases f, 0
  {
    && 0 < f.tag < TAG_LIMIT && WellFormed(f.kind)
    && (f.presence.Implicit? && !f.kind.Sub? ==> f.initial == Unset(f.kind))
  }

  /** What a member without a default of its own starts as. */
  ghost function Unset(k: Kind): Value
    requires !k.Sub?
  {
    match k
    case Blob(_) => Raw([])
    case Text(_) => Raw([])
    case FixedBlob(size) => Raw(Zeros(size))
    case _ => Num(0)
  }

  /** Present values fit their members, and at most one field of a oneof is chosen. */
  ghost predicate Storable(k: Kind, v: Value)
    decreases v, 1
  {
    match k
    case Blob(max) => v.Raw? && |v.bytes| <= max
    case Text(size) => v.Raw? && |v.bytes| < size
    case Sub(fields) =>
      && v.Msg? && |v.slots| == |fields| && Exclusive(fields, v.slots)
      && forall i :: 0 <= i < |fields| ==> StorableSlot(fields[i], v.slots[i])
    case _ => true
  }

  ghost predicate StorableSlot(f: Field, s: Slot)
    decreases s, 0
  {
    match f.presence
    case Repeated(max) => s.Many? && |s.items| <= max && forall i :: 0 <= i < |s.items| ==> Storable(f.kind, s.items[i])
    case Required => s.One? && Storable(f.kind, s.value)
    case Implicit => s.One? && (!IsZero(f.kind, s.value) ==> Storable(f.kind, s.value))
    case _ => s.One? && (s.has ==> Storable(f.kind, s.value))
  }

  ghost predicate Exclusive(fields: seq<Field>, slots: seq<Slot>)
    requires |fields| == |slots|
  {
    forall i, j :: 0 <= i < |fields| && 0 <= j < |fields| && i != j ==>
      fields[i].presence.OneOf? && fields[j].presence == fields[i].presence ==>
      !(slots[i].One? && slots[i].has && slots[j].One? && slots[j].has)
  }

  /** The message with every absent member at its default. */
  ghost function Normal(k: Kind, v: Value): (r: Value)
    decreases v, 1
  {
    if k.Sub? && v.Msg? && |v.slots| == |k.fields| then
      Msg(seq(|v.slots|, i requires 0 <= i < |v.slots| => NormalSlot(k.fields[i], v.slots[i])))
    else v
  }

  ghost function NormalSlot(f: Field, s: Slot): Slot
    decreases s, 0
  {
    if s.Many? then Many(seq(|s.items|, i requires 0 <= i < |s.items| => Normal(f.kind, s.items[i])))
    else if Absent(f, s) then DefaultSlot(f)
    else One(true, Normal(f.kind, s.value))
  }

  ghost predicate Absent(f: Field, s: Slot) {
    match f.presence
    case Repeated(_) => s.Many? && s.items == []
    case Required => false
    case Implicit => s.One? && IsZero(f.kind, s.value)
    case _ => s.One? && !s.has
  }

  // ----- Numbers

  lemma Word64Reads(n: nat, rest: Bytes)
    requires n < TWO64
    ensures var b := Word64Bytes(n) + rest;
            |b| >= 8 && ReadFixed32(b) + TWO32 * ReadFixed32(b[4..]) == n && b[8..] == rest
  {
    hide Fixed32, ReadFixed32;
    var lo, hi := n % TWO32, n / TWO32;
    var b := Word64Bytes(n) + rest;
    assert b == Fixed32(lo) + (Fixed32(hi) + rest) && b[4..] == Fixed32(hi) + rest;
    Fixed32RoundTrip(lo, Fixed32(hi) + rest);
    Fixed32RoundTrip(hi, rest);
  }

  /** The number a varint kind puts on the wire. */
  ghost function OnWire(k: Kind, n: int): int {
    match k
    case Signed(_) => if n < 0 then n + TWO64 else n
    case ZigZag(_) => if n < 0 then -2 * n - 1 else 2 * n
    case _ => n
  }

  lemma SignedReads(size: nat, n: int)
    requires IsSize(size) && InRange(size, n)
    ensures var x := OnWire(Signed(size), n);
            0 <= x < TWO64 && n == if size == 8 then ToSigned(x, TWO64) else ToSigned(x % TWO32, TWO32)
  {
  }

  lemma ZigZagReads(size: nat, n: int)
    requires IsSize(size) && InRange(size, n)
    ensures var x := OnWire(ZigZag(size), n);
            0 <= x < TWO64 && n == if x % 2 == 1 then -(x / 2) - 1 else x / 2
  {
  }

  lemma {:induction false} NumReads(k: Kind, n: int, rest: Bytes)
    requires Packable(k) && WellFormed(k) && Typed(k, Num(n))
    ensures DecodeNum(k, EncodeNum(k, n) + rest) == Some(Got(Num(n), rest))
    ensures EncodeNum(k, n) != []
  {
    hide Decode64, Varint, Fixed32, ReadFixed32, Word64Bytes, ToSigned;
    match k
    case Word32 => Fixed32RoundTrip(n, rest);
    case Word64 => Word64Reads(n, rest);
    case Signed(size) =>
      SignedReads(size, n);
      Decode64Reads(OnWire(k, n), rest);
    case ZigZag(size) =>
      ZigZagReads(size, n);
      Decode64Reads(OnWire(k, n), rest);
    case Unsigned(size) => Decode64Reads(n, rest);
  }

  // ----- Delimited bytes

  lemma TakeReads(b: Bytes, rest: Bytes)
    requires |b| < TWO32
    ensures TakeDelimited(Delimited(b) + rest) == Some(Got(b, rest))
  {
    hide Decode32, Varint;
    Seqs.Assoc(Varint(|b|), b, rest);
    Decode32Reads(|b|, b + rest);
  }

  lemma {:induction false} NoZeroKept(b: Bytes)
    requires 0 !in b
    ensures UpToZero(b) == b
  {
    if b != [] {
      NoZeroKept(b[1..]);
    }
  }

  // ----- Tags

  lemma {:induction false} FindsIt(fields: seq<Field>, i: nat)
    requires i < |fields| && forall a, b :: 0 <= a < b < |fields| ==> fields[a].tag != fields[b].tag
    ensures Find(fields, fields[i].tag) == Some(i)
  {
  }

  /** One tagged member is taken off the front. */
  lemma {:induction false} OneStep(k: Kind, v: Value, seen: set<nat>, i: nat, wire: nat, body: Bytes)
    requires k.Sub? && WellFormed(k) && v.Msg? && |v.slots| == |k.fields| && i < |k.fields| && wire < 8
    ensures var f := k.fields[i];
            var r := DecodeField(f, v.slots[i], wire, body);
            DecodeMessage(k, v, seen, Proto.Tag(wire, f.tag) + body) ==
            if r.None? then None
            else DecodeMessage(k, Msg(Store(k.fields, v.slots, i, r.value.value)), Mark(f, i, seen), r.value.rest)
  {
    hide Decode32, Varint, DecodeField, Find;
    var f := k.fields[i];
    assert WellFormedField(f);
    Decode32Reads(f.tag * 8 + wire, body);
    FindsIt(k.fields, i);
    assert (f.tag * 8 + wire) / 8 == f.tag && (f.tag * 8 + wire) % 8 == wire;
  }

  // ----- Zero messages are default messages

  lemma {:induction false} ZeroIsDefault(k: Kind, v: Value)
    requires k.Sub? && WellFormed(k) && Typed(k, v) && IsZero(k, v)
    ensures Normal(k, v) == DefaultMessage(k)
    decreases v
  {
    forall i | 0 <= i < |k.fields|
      ensures NormalSlot(k.fields[i], v.slots[i]) == DefaultSlot(k.fields[i])
    {
      assert ZeroSlot(k.fields[i], v.slots[i]) && TypedSlot(k.fields[i], v.slots[i]);
    }
  }

  /** An implicit number or string that is not sent is the default it comes back as. */
  lemma {:induction false} ImplicitScalarKept(f: Field, s: Slot)
    requires WellFormedField(f) && f.presence.Implicit? && !f.kind.Sub? && TypedSlot(f, s)
    ensures NormalSlot(f, s) == s
  {
    assert Normal(f.kind, s.value) == s.value;
    if IsZero(f.kind, s.value) {
      assert DefaultSlot(f) == One(true, f.initial);
      ZeroIsUnset(f.kind, s.value);
    }
  }

  lemma {:induction false} ZeroIsUnset(k: Kind, v: Value)
    requires !k.Sub? && Typed(k, v)
    ensures IsZero(k, v) <==> v == Unset(k) && (k.FixedBlob? ==> k.size == 0)
  {
    if IsZero(k, v) && k.FixedBlob? {
      assert v.bytes == [];
    }
  }

  // ----- Arrays

  lemma {:induction false} PackedReads(f: Field, s: Slot, max: nat, i: nat)
    requires TypedSlot(f, s) && s.Many? && Packable(f.kind) && WellFormed(f.kind) && i <= |s.items| <= max
    ensures DecodePacked(f.kind, s.items[..i], max, PackedFrom(f, s, i)) == Some(s.items)
    decreases |s.items| - i
  {
    hide DecodeNum, EncodeNum;
    if i == |s.items| {
      Seqs.WholeSlice(s.items);
    } else {
      var x := s.items[i];
      assert Typed(f.kind, x);
      NumReads(f.kind, x.n, PackedFrom(f, s, i + 1));
      Seqs.SliceAppend(s.items, 0, i);
      PackedReads(f, s, max, i + 1);
      PackedStep(f.kind, s.items[..i], max, PackedFrom(f, s, i), x, PackedFrom(f, s, i + 1));
      assert s.items[..i] + [x] == s.items[..i + 1];
    }
  }

  lemma {:induction false} PackedStep(k: Kind, items: seq<Value>, max: nat, b: Bytes, x: Value, rest: Bytes)
    requires Packable(k) && b != [] && |items| < max && DecodeNum(k, b) == Some(Got(x, rest))
    ensures DecodePacked(k, items, max, b) == DecodePacked(k, items + [x], max, rest)
  {
    hide DecodeNum;
  }

  lemma {:induction false} NumbersNormal(f: Field, s: Slot)
    requires s.Many? && Packable(f.kind)
    ensures NormalSlot(f, s) == s
  {
  }

  // ----- The decoder's destination while it works through the members

  /** Members before `i` are decoded, the others at their defaults. */
  ghost function Partial(k: Kind, v: Value, i: nat): (r: Value)
    requires k.Sub? && v.Msg? && |v.slots| == |k.fields|
    ensures r.Msg? && |r.slots| == |k.fields|
  {
    Msg(seq(|v.slots|, j requires 0 <= j < |v.slots| => if j < i then NormalSlot(k.fields[j], v.slots[j])
        else DefaultSlot(k.fields[j])))
  }

  lemma {:induction false} PartialEnds(k: Kind, v: Value)
    requires k.Sub? && v.Msg? && |v.slots| == |k.fields|
    ensures Partial(k, v, 0) == DefaultMessage(k) && Partial(k, v, |k.fields|) == Normal(k, v)
  {
  }

  lemma PartialAbsent(k: Kind, v: Value, i: nat)
    requires k.Sub? && v.Msg? && |v.slots| == |k.fields| && i < |k.fields|
    requires NormalSlot(k.fields[i], v.slots[i]) == DefaultSlot(k.fields[i])
    ensures Partial(k, v, i + 1) == Partial(k, v, i)
  {
    hide NormalSlot, DefaultSlot;
  }

  /** Member `i` is the next of the partial message. */
  lemma {:induction false} PartialStores(k: Kind, v: Value, i: nat)
    requires k.Sub? && WellFormed(k) && Typed(k, v) && Exclusive(k.fields, v.slots) && i < |k.fields|
    requires !Absent(k.fields[i], v.slots[i])
    ensures Ready(k, Partial(k, v, i), i, v.slots[i])
    ensures With(k, Partial(k, v, i), i, v.slots[i]) == Partial(k, v, i + 1)
  {
    hide DefaultSlot;
    var f := k.fields[i];
    forall j | 0 <= j < |k.fields| && j != i && f.presence.OneOf? && k.fields[j].presence == f.presence
      ensures NormalSlot(k.fields[j], v.slots[j]) == DefaultSlot(k.fields[j])
    {
      assert TypedSlot(k.fields[j], v.slots[j]) && TypedSlot(f, v.slots[i]);
    }
  }

  ghost predicate SeenUpTo(fields: seq<Field>, seen: set<nat>, i: nat) {
    forall j :: 0 <= j < i && j < |fields| && fields[j].presence.Required? ==> j in seen
  }

  // ----- The induction

  lemma {:induction false} ValueReads(f: Field, v: Value, rest: Bytes)
    requires WellFormed(f.kind) && Typed(f.kind, v) && Storable(f.kind, v)
    requires EncodeValue(f.kind, v).Some? && |EncodeValue(f.kind, v).value| < TWO32
    ensures DecodeValue(f.kind, DefaultValue(f), EncodeValue(f.kind, v).value + rest) ==
              Some(Got(Normal(f.kind, v), rest))
    decreases v, if v.Msg? then |v.slots| + 1 else 0
  {
    hide DecodeNum, EncodeNum, TakeDelimited, Delimited;
    var k := f.kind;
    if Packable(k) {
      NumReads(k, v.n, rest);
    } else if k.Sub? {
      var body := EncodeFrom(k, v, 0).value;
      DelimitedLength(body);
      TakeReads(body, rest);
      PartialEnds(k, v);
      MessageReads(k, v, {}, 0);
    } else {
      DelimitedLength(v.bytes);
      TakeReads(v.bytes, rest);
      if k.Text? {
        NoZeroKept(v.bytes);
      } else if k.FixedBlob? && k.size == 0 {
        assert v.bytes == [] && Zeros(0) == [];
      }
    }
  }

  lemma DelimitedLength(b: Bytes)
    ensures |b| < |Delimited(b)|
  {
  }

  /** Members `i` and following fill the rest of the destination. */
  lemma {:induction false} MessageReads(k: Kind, v: Value, seen: set<nat>, i: nat)
    requires k.Sub? && WellFormed(k) && Typed(k, v) && Storable(k, v) && i <= |k.fields| && SeenUpTo(k.fields, seen, i)
    requires EncodeFrom(k, v, i).Some? && |EncodeFrom(k, v, i).value| < TWO32
    ensures DecodeMessage(k, Partial(k, v, i), seen, EncodeFrom(k, v, i).value) == Some(Normal(k, v))
    decreases v, |v.slots| - i
  {
    if i == |k.fields| {
      PartialEnds(k, v);
    } else {
      var f, s := k.fields[i], v.slots[i];
      var e, rest := EncodeField(f, s).value, EncodeFrom(k, v, i + 1).value;
      assert TypedSlot(f, s) && WellFormedField(f) && StorableSlot(f, s);
      if Absent(f, s) {
        AbsentIsEmpty(f, s);
        assert [] + rest == rest;
        PartialAbsent(k, v, i);
        MessageReads(k, v, seen, i + 1);
      } else {
        PartialStores(k, v, i);
        MemberReads(k, Partial(k, v, i), seen, i, s, rest);
        MessageReads(k, v, Mark(f, i, seen), i + 1);
      }
    }
  }

  lemma {:induction false} AbsentIsEmpty(f: Field, s: Slot)
    requires TypedSlot(f, s) && WellFormedField(f) && Absent(f, s)
    ensures EncodeField(f, s) == Some([]) && NormalSlot(f, s) == DefaultSlot(f)
  {
  }

  // ----- One member

  /** Slot `s` is to be read into member `i`, which still has its default. */
  ghost predicate Ready(k: Kind, d: Value, i: nat, s: Slot) {
    && k.Sub? && d.Msg? && i < |k.fields| == |d.slots| && WellFormed(k)
    && TypedSlot(k.fields[i], s) && d.slots[i] == DefaultSlot(k.fields[i])
  }

  /** The destination once it is read. */
  ghost function With(k: Kind, d: Value, i: nat, s: Slot): (r: Value)
    requires k.Sub? && d.Msg? && i < |k.fields| == |d.slots|
    ensures r.Msg? && |r.slots| == |k.fields|
  {
    Msg(Store(k.fields, d.slots, i, NormalSlot(k.fields[i], s)))
  }

  /** What a member puts on the wire is read into any destination that has its default there. */
  lemma {:induction false} MemberReads(k: Kind, d: Value, seen: set<nat>, i: nat, s: Slot, rest: Bytes)
    requires Ready(k, d, i, s) && !Absent(k.fields[i], s) && StorableSlot(k.fields[i], s)
    requires EncodeField(k.fields[i], s).Some? && |EncodeField(k.fields[i], s).value| < TWO32
    ensures DecodeMessage(k, d, seen, EncodeField(k.fields[i], s).value + rest) ==
            DecodeMessage(k, With(k, d, i, s), Mark(k.fields[i], i, seen), rest)
    decreases s, if s.Many? then |s.items| + 2 else 1
  {
    hide EncodeField, DecodeMessage, With, NormalSlot, EncodeValue, Typed, Storable, WellFormed, Absent;
    if s.One? {
      SingleReads(k, d, seen, i, s, rest);
    } else if Packable(k.fields[i].kind) {
      PackedMemberReads(k, d, seen, i, s, rest);
    } else {
      EachReads(k, d, seen, i, s, rest);
    }
  }

  lemma {:induction false} SingleReads(k: Kind, d: Value, seen: set<nat>, i: nat, s: Slot, rest: Bytes)
    requires Ready(k, d, i, s) && !Absent(k.fields[i], s) && s.One? && StorableSlot(k.fields[i], s)
    requires EncodeField(k.fields[i], s).Some? && |EncodeField(k.fields[i], s).value| < TWO32
    ensures DecodeMessage(k, d, seen, EncodeField(k.fields[i], s).value + rest) ==
            DecodeMessage(k, With(k, d, i, s), Mark(k.fields[i], i, seen), rest)
    decreases s, 0
  {
    var f := k.fields[i];
    assert WellFormedField(f);
    SingleParts(f, s);
    var tag, body := Proto.Tag(WireType(f.kind), f.tag), EncodeValue(f.kind, s.value).value;
    ValueReads(f, s.value, rest);
    hide EncodeField, EncodeValue, Typed, Storable, WellFormed, Proto.Tag, DecodeValue;
    Seqs.Assoc(tag, body, rest);
    OneStep(k, d, seen, i, WireType(f.kind), body + rest);
  }

  lemma {:induction false} SingleParts(f: Field, s: Slot)
    requires TypedSlot(f, s) && StorableSlot(f, s) && s.One? && !Absent(f, s)
    ensures Storable(f.kind, s.value) && Typed(f.kind, s.value)
    ensures EncodeField(f, s) == Join(Some(Proto.Tag(WireType(f.kind), f.tag)), EncodeValue(f.kind, s.value))
  {
    assert EncodeField(f, s) == EncodeTagged(f, s);
  }

  lemma {:induction false} PackedMemberReads(k: Kind, d: Value, seen: set<nat>, i: nat, s: Slot, rest: Bytes)
    requires Ready(k, d, i, s) && !Absent(k.fields[i], s) && StorableSlot(k.fields[i], s)
    requires s.Many? && Packable(k.fields[i].kind)
    requires EncodeField(k.fields[i], s).Some? && |EncodeField(k.fields[i], s).value| < TWO32
    ensures DecodeMessage(k, d, seen, EncodeField(k.fields[i], s).value + rest) ==
            DecodeMessage(k, With(k, d, i, s), Mark(k.fields[i], i, seen), rest)
  {
    var f := k.fields[i];
    assert WellFormedField(f);
    var tag, body := Proto.Tag(2, f.tag), PackedFrom(f, s, 0);
    assert EncodeField(f, s).value == tag + Delimited(body);
    hide EncodeField;
    DelimitedLength(body);
    PackedReads(f, s, f.presence.max, 0);
    NumbersNormal(f, s);
    TakeReads(body, rest);
    hide Typed, Storable, WellFormed, Proto.Tag, Delimited, TakeDelimited, PackedFrom, NormalSlot;
    Seqs.Assoc(tag, Delimited(body), rest);
    assert s.items[..0] == [];
    OneStep(k, d, seen, i, 2, Delimited(body) + rest);
  }

  /** The destination with the first `j` items of array `s` in member `i`. */
  ghost function WithItems(k: Kind, d: Value, i: nat, s: Slot, j: nat): (r: Value)
    requires k.Sub? && d.Msg? && i < |k.fields| == |d.slots| && s.Many? && j <= |s.items|
    ensures r.Msg? && |r.slots| == |k.fields|
  {
    Msg(d.slots[i := Many(NormalItems(k.fields[i], s, j))])
  }

  ghost function NormalItems(f: Field, s: Slot, j: nat): seq<Value>
    requires s.Many? && j <= |s.items|
  {
    seq(j, l requires 0 <= l < j => Normal(f.kind, s.items[l]))
  }

  lemma {:induction false} ItemsGrow(f: Field, s: Slot, j: nat)
    requires s.Many? && j < |s.items|
    ensures NormalItems(f, s, j) + [Normal(f.kind, s.items[j])] == NormalItems(f, s, j + 1)
    ensures NormalSlot(f, s) == Many(NormalItems(f, s, |s.items|))
  {
  }

  lemma ItemStored(k: Kind, d: Value, i: nat, s: Slot, j: nat)
    requires k.Sub? && d.Msg? && i < |k.fields| == |d.slots| && s.Many? && j < |s.items|
    requires k.fields[i].presence.Repeated?
    ensures Store(k.fields, WithItems(k, d, i, s, j).slots, i, Many(NormalItems(k.fields[i], s, j + 1))) ==
              WithItems(k, d, i, s, j + 1).slots
  {
    hide NormalItems;
  }

  /** Slot `s` is an array whose items carry their own tags. */
  ghost predicate IsArray(k: Kind, d: Value, i: nat, s: Slot) {
    && Ready(k, d, i, s) && s.Many? && !Packable(k.fields[i].kind)
    && k.fields[i].presence.Repeated? && |s.items| <= k.fields[i].presence.max
  }

  /** Items `j` and following of such an array are still to be read. */
  ghost predicate Remains(k: Kind, d: Value, i: nat, s: Slot, j: nat) {
    && IsArray(k, d, i, s) && j <= |s.items|
    && EachFrom(k.fields[i], s, j).Some? && |EachFrom(k.fields[i], s, j).value| < TWO32
  }

  lemma {:induction false} ItemsRead(k: Kind, d: Value, seen: set<nat>, i: nat, s: Slot, j: nat, rest: Bytes)
    requires Remains(k, d, i, s, j) && StorableSlot(k.fields[i], s)
    ensures DecodeMessage(k, WithItems(k, d, i, s, j), seen, EachFrom(k.fields[i], s, j).value + rest) ==
            DecodeMessage(k, WithItems(k, d, i, s, |s.items|), seen, rest)
    decreases s, |s.items| - j, 2
  {
    hide Typed, WellFormed, StorableSlot, EachFrom, TypedSlot, DecodeMessage, WithItems, Storable, EncodeValue;
    var f := k.fields[i];
    assert TypedSlot(f, s) && j <= |s.items|;
    hide IsArray, Remains;
    if j == |s.items| {
      EachUnfolds(f, s, j);
      Seqs.NothingBefore(rest);
    } else {
      ItemStorable(f, s, j);
      EachStep(k, d, seen, i, s, j, rest);
      ItemsRead(k, d, seen, i, s, j + 1, rest);
    }
  }

  /** Item `j` is taken off the front of the rest of its array. */
  lemma {:induction false} EachStep(k: Kind, d: Value, seen: set<nat>, i: nat, s: Slot, j: nat, rest: Bytes)
    requires Remains(k, d, i, s, j) && j < |s.items| && Storable(k.fields[i].kind, s.items[j])
    ensures Remains(k, d, i, s, j + 1)
    ensures DecodeMessage(k, WithItems(k, d, i, s, j), seen, EachFrom(k.fields[i], s, j).value + rest) ==
            DecodeMessage(k, WithItems(k, d, i, s, j + 1), seen, EachFrom(k.fields[i], s, j + 1).value + rest)
    decreases s, |s.items| - j, 1
  {
    var f := k.fields[i];
    EachUnfolds(f, s, j);
    var tag, body, more := Proto.Tag(WireType(f.kind), f.tag), EncodeValue(f.kind, s.items[j]).value,
        EachFrom(f, s, j + 1).value;
    hide IsArray, DecodeMessage, WithItems, EachFrom, EncodeValue, Storable, Proto.Tag, Typed, WireType;
    Seqs.Lengths(tag, body, more);
    Seqs.Assoc(tag + body, more, rest);
    ItemReads(k, d, seen, i, s, j, more + rest);
  }

  lemma {:induction false} ItemStorable(f: Field, s: Slot, j: nat)
    requires s.Many? && TypedSlot(f, s) && StorableSlot(f, s) && j < |s.items|
    ensures Storable(f.kind, s.items[j])
  {
  }

  lemma EachUnfolds(f: Field, s: Slot, j: nat)
    requires s.Many? && TypedSlot(f, s) && j <= |s.items|
    ensures j == |s.items| ==> EachFrom(f, s, j) == Some([])
    ensures j < |s.items| ==> Typed(f.kind, s.items[j])
    ensures j < |s.items| && EachFrom(f, s, j).Some? ==>
              && EncodeValue(f.kind, s.items[j]).Some? && EachFrom(f, s, j + 1).Some?
              && EachFrom(f, s, j).value ==
                  (Proto.Tag(WireType(f.kind), f.tag) + EncodeValue(f.kind, s.items[j]).value) +
                      EachFrom(f, s, j + 1).value
  {
    hide EncodeValue, Proto.Tag;
  }

  lemma {:induction false} ItemReads(k: Kind, d: Value, seen: set<nat>, i: nat, s: Slot, j: nat, rest: Bytes)
    requires IsArray(k, d, i, s) && j < |s.items| && Storable(k.fields[i].kind, s.items[j])
    requires EncodeValue(k.fields[i].kind, s.items[j]).Some?
    requires |EncodeValue(k.fields[i].kind, s.items[j]).value| < TWO32
    ensures var f := k.fields[i];
            DecodeMessage(k, WithItems(k, d, i, s, j), seen,
                (Proto.Tag(WireType(f.kind), f.tag) + EncodeValue(f.kind, s.items[j]).value) + rest) ==
            DecodeMessage(k, WithItems(k, d, i, s, j + 1), seen, rest)
    decreases s, 0
  {
    var f := k.fields[i];
    assert WellFormedField(f);
    var x := s.items[j];
    var tag, body := Proto.Tag(WireType(f.kind), f.tag), EncodeValue(f.kind, x).value;
    ValueReads(f, x, rest);
    ItemStored(k, d, i, s, j);
    ItemsGrow(f, s, j);
    hide EncodeValue, Typed, Storable, WellFormed, Proto.Tag, DecodeValue, NormalItems, NormalSlot;
    Seqs.Assoc(tag, body, rest);
    OneStep(k, WithItems(k, d, i, s, j), seen, i, WireType(f.kind), body + rest);
  }

  lemma {:induction false} EachReads(k: Kind, d: Value, seen: set<nat>, i: nat, s: Slot, rest: Bytes)
    requires Ready(k, d, i, s) && !Absent(k.fields[i], s) && StorableSlot(k.fields[i], s)
    requires s.Many? && !Packable(k.fields[i].kind)
    requires EncodeField(k.fields[i], s).Some? && |EncodeField(k.fields[i], s).value| < TWO32
    ensures DecodeMessage(k, d, seen, EncodeField(k.fields[i], s).value + rest) ==
            DecodeMessage(k, With(k, d, i, s), Mark(k.fields[i], i, seen), rest)
    decreases s, |s.items| + 1
  {
    var f := k.fields[i];
    assert EncodeField(f, s) == EachFrom(f, s, 0);
    ItemsRead(k, d, seen, i, s, 0, rest);
    ItemsAll(k, d, i, s);
  }

  lemma {:induction false} ItemsAll(k: Kind, d: Value, i: nat, s: Slot)
    requires Ready(k, d, i, s) && s.Many? && k.fields[i].presence.Repeated?
    ensures WithItems(k, d, i, s, 0) == d && WithItems(k, d, i, s, |s.items|) == With(k, d, i, s)
  {
    var f := k.fields[i];
    assert NormalItems(f, s, 0) == [];
    assert NormalSlot(f, s) == Many(NormalItems(f, s, |s.items|));
  }

  // ----- The theorem

  /** Every well-formed message comes back: its presence flags, counts, oneof choices and present values. */
  lemma {:induction false} MessageRoundTrip(k: Kind, v: Value)
    requires k.Sub? && WellFormed(k) && Typed(k, v) && Storable(k, v)
    requires EncodeFrom(k, v, 0).Some? && |EncodeFrom(k, v, 0).value| < TWO32
    ensures Decode(k, EncodeFrom(k, v, 0).value) == Some(Normal(k, v))
  {
    PartialEnds(k, v);
    MessageReads(k, v, {}, 0);
  }

  /** Normalising keeps presence flags, oneof choices and counts, and every present value's own members. */
  lemma {:induction false} NormalKeeps(k: Kind, v: Value, i: nat)
    requires k.Sub? && WellFormed(k) && Typed(k, v) && i < |k.fields|
    ensures TypedSlot(k.fields[i], v.slots[i])
    ensures var f, s, r := k.fields[i], v.slots[i], Normal(k, v).slots[i];
            && (f.presence.Repeated? ==> r.Many? && |r.items| == |s.items| && forall j :: 0 <= j < |s.items| ==>
                r.items[j] == Normal(f.kind, s.items[j]))
            && (!f.presence.Repeated? ==> r.One? && r.has == s.has)
            && (!f.presence.Repeated? && !Absent(f, s) ==> r.value == Normal(f.kind, s.value))
  {
    assert TypedSlot(k.fields[i], v.slots[i]);
  }

  /** A message whose present values fit is encoded without error. */
  lemma {:induction false} StorableEncodes(k: Kind, v: Value)
    requires Typed(k, v) && Storable(k, v)
    ensures EncodeValue(k, v).Some?
    decreases v, if v.Msg? then |v.slots| + 1 else 0
  {
    if k.Sub? {
      StorableFrom(k, v, 0);
    }
  }

  lemma {:induction false} StorableFrom(k: Kind, v: Value, i: nat)
    requires k.Sub? && Typed(k, v) && Storable(k, v) && i <= |k.fields|
    ensures EncodeFrom(k, v, i).Some?
    decreases v, |v.slots| - i
  {
    if i < |k.fields| {
      var f, s := k.fields[i], v.slots[i];
      assert TypedSlot(f, s) && StorableSlot(f, s);
      StorableField(f, s);
      StorableFrom(k, v, i + 1);
    }
  }

  lemma {:induction false} StorableField(f: Field, s: Slot)
    requires TypedSlot(f, s) && StorableSlot(f, s)
    ensures EncodeField(f, s).Some?
    decreases s, if s.Many? then |s.items| + 1 else 0
  {
    if s.Many? {
      StorableEach(f, s, 0);
    } else if !Absent(f, s) {
      SingleParts(f, s);
      StorableEncodes(f.kind, s.value);
    } else if f.presence.Implicit? {
      assert EncodeField(f, s) == Some([]);
    }
  }

  lemma {:induction false} StorableEach(f: Field, s: Slot, j: nat)
    requires TypedSlot(f, s) && StorableSlot(f, s) && s.Many? && j <= |s.items|
    ensures EachFrom(f, s, j).Some?
    decreases s, |s.items| - j
  {
    if j < |s.items| {
      StorableEncodes(f.kind, s.items[j]);
      StorableEach(f, s, j + 1);
    }
  }
}
