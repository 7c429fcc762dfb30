/** Descriptor-driven Protocol Buffers messages: what is encoded, and what decoding any bytes does to a
    destination. A message is a typed tree that follows its descriptor. */
module Proto {
  import opened Keys
  import opened LogFormat
  import opened Varints

  /** How a value is stored and laid out. Sizes are those of the C struct member, in bytes. */
  datatype Kind =
    | Signed(size: nat) | Unsigned(size: nat) | ZigZag(size: nat) | Word32 | Word64
    | Blob(max: nat) | Text(size: nat) | FixedBlob(size: nat)
    | Sub(fields: seq<Field>)

  /** Implicit: present if not zero, as in proto3. Repeated holds at most `max` items. */
  datatype Presence = Required | Optional | Implicit | Repeated(max: nat) | OneOf(group: nat)

  /** `initial` is the field's default; a submessage takes its fields' defaults instead. */
  datatype Field = Field(tag: nat, kind: Kind, presence: Presence, initial: Value)

  datatype Value = Num(n: int) | Raw(bytes: Bytes) | Msg(slots: seq<Slot>)

  /** A member: one value with its presence flag (or oneof choice), or an array with its count. */
  datatype Slot = One(has: bool, value: Value) | Many(items: seq<Value>)

  // ----- Types

  predicate IsSize(size: nat) {
    size == 1 || size == 2 || size == 4 || size == 8
  }

  /** Half the number of values of an integer of that size. */
  function Half(size: nat): nat {
    if size == 1 then 0x80 else if size == 2 then 0x8000 else if size == 4 then 0x8000_0000 else 0x8000_0000_0000_0000
  }

  predicate InRange(size: nat, n: int) {
    0 - Half(size) <= n < Half(size)
  }

  /** What the C type of the member guarantees. */
  predicate Typed(k: Kind, v: Value)
    decreases v, 1
  {
    match k
    case Signed(size) => v.Num? && InRange(size, v.n)
    case ZigZag(size) => v.Num? && InRange(size, v.n)
    case Unsigned(size) => v.Num? && 0 <= v.n < 2 * Half(size)
    case Word32 => v.Num? && 0 <= v.n < TWO32
    case Word64 => v.Num? && 0 <= v.n < TWO64
    case Blob(_) => v.Raw?
    case Text(size) => v.Raw? && |v.bytes| <= size && 0 !in v.bytes
    case FixedBlob(size) => v.Raw? && |v.bytes| == size
    case Sub(fields) => v.Msg? && |v.slots| == |fields| && forall i :: 0 <= i < |fields| ==>
        TypedSlot(fields[i], v.slots[i])
  }

  predicate TypedSlot(f: Field, s: Slot)
    decreases s, 0
  {
    match f.presence
    case Repeated(_) => s.Many? && forall i :: 0 <= i < |s.items| ==> Typed(f.kind, s.items[i])
    case Required => s.One? && s.has && Typed(f.kind, s.value)
    case Implicit => s.One? && s.has && Typed(f.kind, s.value)
    case _ => s.One? && Typed(f.kind, s.value)
  }

  // ----- Defaults

  function DefaultValue(f: Field): Value
    decreases f, 1
  {
    if f.kind.Sub? then DefaultMessage(f.kind) else f.initial
  }

  function DefaultMessage(k: Kind): (v: Value)
    requires k.Sub?
    ensures v.Msg? && |v.slots| == |k.fields|
    ensures forall i :: 0 <= i < |k.fields| ==> v.slots[i] == DefaultSlot(k.fields[i])
    decreases k, 0
  {
    Msg(seq(|k.fields|, i requires 0 <= i < |k.fields| => DefaultSlot(k.fields[i])))
  }

  function DefaultSlot(f: Field): Slot
    decreases f, 2
  {
    match f.presence
    case Repeated(_) => Many([])
    case Required => One(true, DefaultValue(f))
    case Implicit => One(true, DefaultValue(f))
    case _ => One(false, DefaultValue(f))
  }

  /** The proto3 zero check, through submessages. */
  predicate IsZero(k: Kind, v: Value)
    decreases v, 1
  {
    match k
    case Blob(_) => v.Raw? && v.bytes == []
    case Text(_) => v.Raw? && v.bytes == []
    case FixedBlob(size) => size == 0
    case Sub(fields) => v.Msg? && forall i :: 0 <= i < |fields| && i < |v.slots| ==> ZeroSlot(fields[i], v.slots[i])
    case _ => v.Num? && v.n == 0
  }

  predicate ZeroSlot(f: Field, s: Slot)
    decreases s, 0
  {
    match f.presence
    case Required => false
    case Repeated(_) => s.Many? && s.items == []
    case Implicit => s.One? && IsZero(f.kind, s.value)
    case _ => s.One? && !s.has
  }

  // ----- Encoding

  function WireType(k: Kind): nat {
    match k
    case Signed(_) => 0 case Unsigned(_) => 0 case ZigZag(_) => 0
    case Word64 => 1
    case Word32 => 5
    case _ => 2
  }

  predicate Packable(k: Kind) {
    k.Signed? || k.Unsigned? || k.ZigZag? || k.Word32? || k.Word64?
  }

  function Tag(wire: nat, tag: nat): Bytes {
    Varint(tag * 8 + wire)
  }

  function Word64Bytes(n: nat): Bytes
    requires n < TWO64
  {
    Fixed32(n % TWO32) + Fixed32(n / TWO32)
  }

  function EncodeNum(k: Kind, n: int): Bytes
    requires Packable(k) && Typed(k, Num(n))
  {
    match k
    case Signed(_) => Varint(if n < 0 then n + TWO64 else n)
    case Unsigned(_) => Varint(n)
    case ZigZag(_) => Varint(if n < 0 then -2 * n - 1 else 2 * n)
    case Word32 => Fixed32(n)
    case Word64 => Word64Bytes(n)
  }

  /** Absent when the source reports an error. */
  function Join(a: Option<Bytes>, b: Option<Bytes>): Option<Bytes> {
    if a.Some? && b.Some? then Some(a.value + b.value) else None
  }

  function EncodeValue(k: Kind, v: Value): Option<Bytes>
    requires Typed(k, v)
    decreases v, if v.Msg? then |v.slots| + 1 else 0
  {
    match k
    case Blob(max) => if |v.bytes| > max then None else Some(Delimited(v.bytes))
    case Text(_) => Some(Delimited(v.bytes))
    case FixedBlob(_) => Some(Delimited(v.bytes))
    case Sub(fields) =>
      var body := EncodeFrom(k, v, 0);
      if body.None? then None else Some(Delimited(body.value))
    case _ => Some(EncodeNum(k, v.n))
  }

  /** Members `i` and following, in descriptor order. */
  function EncodeFrom(k: Kind, v: Value, i: nat): Option<Bytes>
    requires k.Sub? && Typed(k, v) && i <= |k.fields|
    decreases v, |v.slots| - i
  {
    if i == |k.fields| then Some([]) else Join(EncodeField(k.fields[i], v.slots[i]), EncodeFrom(k, v, i + 1))
  }

  function EncodeField(f: Field, s: Slot): Option<Bytes>
    requires TypedSlot(f, s)
    decreases s, if s.Many? then |s.items| + 1 else 1
  {
    match f.presence
    case Repeated(max) =>
      if s.items == [] then Some([])
      else if |s.items| > max then None
      else if Packable(f.kind) then
        Some(Tag(2, f.tag) + Delimited(PackedFrom(f, s, 0)))
      else EachFrom(f, s, 0)
    case Required => EncodeTagged(f, s)
    case Implicit => if IsZero(f.kind, s.value) then Some([]) else EncodeTagged(f, s)
    case _ => if s.has then EncodeTagged(f, s) else Some([])
  }

  function EncodeTagged(f: Field, s: Slot): Option<Bytes>
    requires s.One? && Typed(f.kind, s.value)
    decreases s, 0
  {
    Join(Some(Tag(WireType(f.kind), f.tag)), EncodeValue(f.kind, s.value))
  }

  /** Items `i` and following of a packed array. */
  function PackedFrom(f: Field, s: Slot, i: nat): Bytes
    requires TypedSlot(f, s) && s.Many? && Packable(f.kind) && i <= |s.items|
    decreases s, |s.items| - i
  {
    if i == |s.items| then [] else
      assert Typed(f.kind, s.items[i]);
      EncodeNum(f.kind, s.items[i].n) + PackedFrom(f, s, i + 1)
  }

  /** Items `i` and following of an array that is not packed, each with its tag. */
  function EachFrom(f: Field, s: Slot, i: nat): Option<Bytes>
    requires TypedSlot(f, s) && s.Many? && i <= |s.items|
    decreases s, |s.items| - i
  {
    if i == |s.items| then Some([])
    else Join(Join(Some(Tag(WireType(f.kind), f.tag)), EncodeValue(f.kind, s.items[i])), EachFrom(f, s, i + 1))
  }

  // ----- Decoding

  function ToSigned(value: nat, modulus: nat): int {
    if value < modulus / 2 then value else value - modulus
  }

  function Checked(ok: bool, n: int, rest: Bytes): Option<Got<Value>> {
    if ok then Some(Got(Num(n), rest)) else None
  }

  function DecodeNum(k: Kind, b: Bytes): (r: Option<Got<Value>>)
    requires Packable(k)
    ensures r.Some? ==> |r.value.rest| < |b|
  {
    if k.Word32? then
      if |b| < 4 then None else Some(Got(Num(ReadFixed32(b)), b[4..]))
    else if k.Word64? then
      if |b| < 8 then None else Some(Got(Num(ReadFixed32(b) + TWO32 * ReadFixed32(b[4..])), b[8..]))
    else
      var r := Decode64(b);
      if r.None? then None
      else
        var x, rest := r.value.value, r.value.rest;
        match k
        case Signed(size) =>
          var n := if size == 8 then ToSigned(x, TWO64) else ToSigned(x % TWO32, TWO32);
          Checked(InRange(size, n), n, rest)
        case Unsigned(size) => Checked(x < 2 * Half(size), x, rest)
        case _ =>
          var n := if x % 2 == 1 then -(x / 2) - 1 else x / 2;
          Checked(InRange(k.size, n), n, rest)
  }

  /** A length-prefixed run of bytes. */
  function TakeDelimited(b: Bytes): (r: Option<Got<Bytes>>)
    ensures r.Some? ==> |r.value.rest| + |r.value.value| < |b|
  {
    var r := Decode32(b);
    if r.None? || |r.value.rest| < r.value.value then None
    else Some(Got(r.value.rest[..r.value.value], r.value.rest[r.value.value..]))
  }

  /** A C string ends at its first zero. */
  function UpToZero(b: Bytes): Bytes {
    if b == [] || b[0] == 0 then [] else [b[0]] + UpToZero(b[1..])
  }

  /** Decodes one value over `dest`; a new array item starts from its defaults. */
  function DecodeValue(k: Kind, dest: Value, b: Bytes): (r: Option<Got<Value>>)
    ensures r.Some? ==> |r.value.rest| < |b|
    decreases |b|, 0
  {
    if Packable(k) then DecodeNum(k, b)
    else
      var r := TakeDelimited(b);
      if r.None? then None
      else
        var x, rest := r.value.value, r.value.rest;
        match k
        case Blob(max) => if |x| > max then None else Some(Got(Raw(x), rest))
        case Text(size) => if |x| + 1 > size then None else Some(Got(Raw(UpToZero(x)), rest))
        case FixedBlob(size) =>
          if x == [] then Some(Got(Raw(Zeros(size)), rest)) else if |x| != size then None else Some(Got(Raw(x), rest))
        case Sub(_) =>
          var m := DecodeMessage(k, dest, {}, x);
          if m.None? then None else Some(Got(m.value, rest))
  }

  function Find(fields: seq<Field>, tag: nat): (r: Option<nat>)
    ensures r.Some? ==> r.value < |fields| && fields[r.value].tag == tag
    ensures r.None? ==> forall i :: 0 <= i < |fields| ==> fields[i].tag != tag
  {
    if fields == [] then None
    else if fields[0].tag == tag then Some(0)
    else
      var r := Find(fields[1..], tag);
      if r.None? then None else Some(r.value + 1)
  }

  function SkipVarint(b: Bytes): (r: Option<Bytes>)
    ensures r.Some? ==> |r.value| < |b|
  {
    if b == [] then None else if b[0] < 128 then Some(b[1..]) else SkipVarint(b[1..])
  }

  function SkipField(wire: nat, b: Bytes): (r: Option<Bytes>)
    ensures r.Some? ==> |r.value| <= |b|
  {
    if wire == 0 then SkipVarint(b)
    else if wire == 1 then if |b| < 8 then None else Some(b[8..])
    else if wire == 2 then var r := TakeDelimited(b); if r.None? then None else Some(r.value.rest)
    else if wire == 5 then if |b| < 4 then None else Some(b[4..])
    else None
  }

  const MAX_REQUIRED: nat := 64

  function RequiredBefore(fields: seq<Field>, i: nat): nat
    requires i <= |fields|
  {
    if i == 0 then 0 else RequiredBefore(fields, i - 1) + if fields[i - 1].presence.Required? then 1 else 0
  }

  /** Only the first 64 required fields are checked. */
  predicate AllRequired(fields: seq<Field>, seen: set<nat>) {
    forall i :: 0 <= i < |fields| && fields[i].presence.Required? && RequiredBefore(fields, i) < MAX_REQUIRED ==>
      i in seen
  }

  function Finish(k: Kind, v: Value, seen: set<nat>): Option<Value>
    requires k.Sub?
  {
    if AllRequired(k.fields, seen) then Some(v) else None
  }

  /** A oneof choice takes the place of every other field of its group. */
  function Store(fields: seq<Field>, slots: seq<Slot>, i: nat, s: Slot): (r: seq<Slot>)
    requires i < |fields| == |slots|
    ensures |r| == |slots|
  {
    seq(|slots|, j requires 0 <= j < |slots| =>
      if j == i then s
      else if fields[i].presence.OneOf? && fields[j].presence == fields[i].presence then DefaultSlot(fields[j])
      else slots[j])
  }

  function Mark(f: Field, i: nat, seen: set<nat>): set<nat> {
    if f.presence.Required? then seen + {i} else seen
  }

  /** The decoding loop over arbitrary bytes: unknown fields are skipped, a zero tag ends the message. */
  function DecodeMessage(k: Kind, v: Value, seen: set<nat>, b: Bytes): Option<Value>
    decreases |b|, 1
  {
    if !k.Sub? || !v.Msg? || |v.slots| != |k.fields| then None
    else if b == [] then Finish(k, v, seen)
    else
      var t := Decode32(b);
      if t.None? then None
      else if t.value.value == 0 then Finish(k, v, seen)
      else
        var tag, wire, rest := t.value.value / 8, t.value.value % 8, t.value.rest;
        var i := Find(k.fields, tag);
        if i.None? then
          var r := SkipField(wire, rest);
          if r.None? then None else DecodeMessage(k, v, seen, r.value)
        else
          var f := k.fields[i.value];
          var r := DecodeField(f, v.slots[i.value], wire, rest);
          if r.None? then None
          else DecodeMessage(k, Msg(Store(k.fields, v.slots, i.value, r.value.value)), Mark(f, i.value, seen),
              r.value.rest)
  }

  function DecodeField(f: Field, s: Slot, wire: nat, b: Bytes): (r: Option<Got<Slot>>)
    ensures r.Some? ==> |r.value.rest| < |b|
    decreases |b|, 1
  {
    match f.presence
    case Repeated(max) =>
      if !s.Many? then None
      else if wire == 2 && Packable(f.kind) then
        var r := TakeDelimited(b);
        if r.None? then None
        else
          var items := DecodePacked(f.kind, s.items, max, r.value.value);
          if items.None? then None else Some(Got(Many(items.value), r.value.rest))
      else if |s.items| >= max then None
      else
        var r := DecodeValue(f.kind, DefaultValue(f), b);
        if r.None? then None else Some(Got(Many(s.items + [r.value.value]), r.value.rest))
    case OneOf(_) =>
      var r := DecodeValue(f.kind, DefaultValue(f), b);
      if r.None? then None else Some(Got(One(true, r.value.value), r.value.rest))
    case _ =>
      if !s.One? then None
      else
        var r := DecodeValue(f.kind, s.value, b);
        if r.None? then None else Some(Got(One(true, r.value.value), r.value.rest))
  }

  function DecodePacked(k: Kind, items: seq<Value>, max: nat, b: Bytes): Option<seq<Value>>
    requires Packable(k)
    decreases |b|
  {
    if b == [] then Some(items)
    else if |items| >= max then None
    else
      var r := DecodeNum(k, b);
      if r.None? then None else DecodePacked(k, items + [r.value.value], max, r.value.rest)
  }

  function Decode(k: Kind, b: Bytes): Option<Value>
    requires k.Sub?
  {
    DecodeMessage(k, DefaultMessage(k), {}, b)
  }
}
