/** What the decoder does with fields that the encoder of this library would not write: a value given twice, array
    items without packing, too many of them, values that do not fit, a zero tag. */
module ProtoRules {
  import opened Keys
  import opened LogFormat
  import opened Varints
  import opened Proto
  import opened ProtoRoundTrip
  import Seqs

  /** `d` is a destination for `k`, and `i` one of its members. */
  ghost predicate Dest(k: Kind, d: Value, i: nat) {
    k.Sub? && WellFormed(k) && d.Msg? && i < |k.fields| == |d.slots|
  }

  /** A value that is not a message replaces whatever the member held: of several the last one counts. */
  lemma {:induction false} LastOneCounts(k: Kind, d: Value, seen: set<nat>, i: nat, v: Value, rest: Bytes)
    requires Dest(k, d, i) && d.slots[i].One? && !k.fields[i].presence.Repeated? && !k.fields[i].kind.Sub?
    requires Typed(k.fields[i].kind, v) && Storable(k.fields[i].kind, v)
    requires EncodeValue(k.fields[i].kind, v).Some? && |EncodeValue(k.fields[i].kind, v).value| < TWO32
    ensures var f := k.fields[i];
            DecodeMessage(k, d, seen, (Proto.Tag(WireType(f.kind), f.tag) + EncodeValue(f.kind, v).value) + rest) ==
            DecodeMessage(k, Msg(Store(k.fields, d.slots, i, One(true, v))), Mark(f, i, seen), rest)
  {
    var f := k.fields[i];
    assert WellFormedField(f);
    ScalarReads(f, d.slots[i].value, v, rest);
    ScalarReads(f, DefaultValue(f), v, rest);
    hide EncodeValue, Typed, Storable, WellFormed, Proto.Tag, DecodeValue;
    Seqs.Assoc(Proto.Tag(WireType(f.kind), f.tag), EncodeValue(f.kind, v).value, rest);
    OneStep(k, d, seen, i, WireType(f.kind), EncodeValue(f.kind, v).value + rest);
  }

  /** The former value plays no part. */
  lemma {:induction false} ScalarReads(f: Field, dest: Value, v: Value, rest: Bytes)
    requires WellFormed(f.kind) && Typed(f.kind, v) && Storable(f.kind, v) && !f.kind.Sub?
    requires EncodeValue(f.kind, v).Some? && |EncodeValue(f.kind, v).value| < TWO32
    ensures DecodeValue(f.kind, dest, EncodeValue(f.kind, v).value + rest) == Some(Got(v, rest))
  {
    ValueReads(f, v, rest);
    assert Normal(f.kind, v) == v;
    hide DecodeNum, TakeDelimited, EncodeNum, Delimited, Typed, Storable;
  }

  /** An array of numbers also takes items one by one, each with its own tag, as long as there is room. */
  lemma {:induction false} UnpackedItem(k: Kind, d: Value, seen: set<nat>, i: nat, n: int, rest: Bytes)
    requires Dest(k, d, i) && d.slots[i].Many? && k.fields[i].presence.Repeated? && Packable(k.fields[i].kind)
    requires Typed(k.fields[i].kind, Num(n))
    ensures var f, items := k.fields[i], d.slots[i].items;
            DecodeMessage(k, d, seen, (Proto.Tag(WireType(f.kind), f.tag) + EncodeNum(f.kind, n)) + rest) ==
              if |items| >= f.presence.max then None
              else DecodeMessage(k, Msg(d.slots[i := Many(items + [Num(n)])]), seen, rest)
  {
    var f, items := k.fields[i], d.slots[i].items;
    assert WellFormedField(f);
    NumReads(f.kind, n, rest);
    assert Store(k.fields, d.slots, i, Many(items + [Num(n)])) == d.slots[i := Many(items + [Num(n)])];
    hide EncodeNum, DecodeNum, Typed, WellFormed, Proto.Tag, Store;
    Seqs.Assoc(Proto.Tag(WireType(f.kind), f.tag), EncodeNum(f.kind, n), rest);
    OneStep(k, d, seen, i, WireType(f.kind), EncodeNum(f.kind, n) + rest);
  }

  /** A packed run goes on behind the items already there, and fails if they are too many. */
  lemma {:induction false} PackedRun(k: Kind, items: seq<Value>, max: nat, n: int, rest: Bytes)
    requires Packable(k) && WellFormed(k) && Typed(k, Num(n))
    ensures DecodePacked(k, items, max, EncodeNum(k, n) + rest) ==
              if |items| >= max then None else DecodePacked(k, items + [Num(n)], max, rest)
    ensures DecodePacked(k, items, max, []) == Some(items)
  {
    NumReads(k, n, rest);
    hide EncodeNum, DecodeNum;
  }

  /** A zero tag ends the message. */
  lemma {:induction false} ZeroTagEnds(k: Kind, d: Value, seen: set<nat>, rest: Bytes)
    requires k.Sub? && d.Msg? && |d.slots| == |k.fields|
    ensures DecodeMessage(k, d, seen, [0] + rest) == Finish(k, d, seen)
  {
    hide DecodeField, SkipField, Decode32;
    assert Varint(0) == [0];
    Decode32Reads(0, rest);
  }

  /** A number that does not fit its member is refused. */
  lemma {:induction false} NumberRefused(k: Kind, n: int, rest: Bytes)
    requires (k.Signed? || k.Unsigned? || k.ZigZag?) && IsSize(k.size)
    requires k.Unsigned? ==> 2 * Half(k.size) <= n < TWO64
    requires k.Signed? ==> (k.size == 1 || k.size == 2) && InRange(4, n) && !InRange(k.size, n)
    requires k.ZigZag? ==> InRange(8, n) && !InRange(k.size, n)
    ensures DecodeNum(k, Varint(OnWire(k, n)) + rest) == None
  {
    hide Decode64, Varint;
    match k
    case Unsigned(_) => Decode64Reads(n, rest);
    case Signed(_) =>
      SignedReads(4, n);
      Decode64Reads(OnWire(k, n), rest);
    case ZigZag(_) =>
      ZigZagReads(8, n);
      Decode64Reads(OnWire(k, n), rest);
  }

  /** Bytes that do not fit their member are refused; an empty fixed-length field is all zeros. */
  lemma {:induction false} BytesRefused(k: Kind, dest: Value, x: Bytes, rest: Bytes)
    requires |x| < TWO32
    ensures k.Blob? && |x| > k.max ==> DecodeValue(k, dest, Delimited(x) + rest) == None
    ensures k.Text? && |x| >= k.size ==> DecodeValue(k, dest, Delimited(x) + rest) == None
    ensures k.FixedBlob? && x != [] && |x| != k.size ==> DecodeValue(k, dest, Delimited(x) + rest) == None
    ensures k.FixedBlob? && x == [] ==> DecodeValue(k, dest, Delimited(x) + rest) == Some(Got(Raw(Zeros(k.size)), rest))
  {
    hide TakeDelimited, Delimited;
    TakeReads(x, rest);
  }

  /** A string may fill its member and is then encoded in full, but not decoded again. */
  lemma {:induction false} FullText(size: nat, dest: Value, x: Bytes, rest: Bytes)
    requires |x| == size < TWO32 && 0 !in x
    ensures Typed(Text(size), Raw(x)) && EncodeValue(Text(size), Raw(x)) == Some(Delimited(x))
    ensures DecodeValue(Text(size), dest, Delimited(x) + rest) == None
  {
    BytesRefused(Text(size), dest, x, rest);
  }

  // ----- The numbers of the wire format

  function Power(base: nat, n: nat): nat {
    if n == 0 then 1 else base * Power(base, n - 1)
  }

  /** Integers of one, two, four and eight bytes hold the numbers that so many bytes can. */
  lemma {:induction false} NumberSizes(size: nat)
    ensures IsSize(size) <==> size in {1, 2, 4, 8}
    ensures IsSize(size) ==> forall n :: InRange(size, n) <==> 0 - Power(256, size) <= 2 * n < Power(256, size)
    ensures IsSize(size) ==> forall n :: Typed(Unsigned(size), Num(n)) <==> 0 <= n < Power(256, size)
  {
    assert Power(256, 2) == 0x1_0000;
    assert Power(256, 4) == 256 * (256 * Power(256, 2)) == 0x1_0000_0000;
    assert Power(256, 6) == 256 * (256 * Power(256, 4)) == 0x1_0000_0000_0000;
    assert Power(256, 8) == 256 * (256 * Power(256, 6)) == TWO64;
  }

  /** The wire format itself, on the examples of the Protocol Buffers encoding guide. */
  lemma {:induction false} WireExamples()
    ensures Proto.Tag(WireType(Signed(4)), 1) + EncodeNum(Signed(4), 150) == [0x08, 0x96, 0x01]
    ensures Proto.Tag(WireType(Text(8)), 2) == [0x12] && Delimited([0x74, 0x65]) == [2, 0x74, 0x65]
    ensures EncodeNum(ZigZag(4), -1) == [1] && EncodeNum(ZigZag(4), 1) == [2] && EncodeNum(ZigZag(4), -2) == [3]
    ensures Proto.Tag(WireType(Word32), 1) + EncodeNum(Word32, 0x0403_0201) == [0x0D, 1, 2, 3, 4]
    ensures Proto.Tag(WireType(Word64), 1) + EncodeNum(Word64, 0x0807_0605_0403_0201) == [0x09, 1, 2, 3, 4, 5, 6, 7, 8]
    ensures EncodeNum(Signed(4), -2) == [0xFE, 0xFF, 0xFF, 0xFF, 0xFF, 0xFF, 0xFF, 0xFF, 0xFF, 0x01]
  {
    assert Varint(1) == [1];
    assert Varint(150) == [0x96] + Varint(1);
    Ones();
  }

  lemma {:induction false} Ones()
    ensures Varint(TWO64 - 2) == [0xFE, 0xFF, 0xFF, 0xFF, 0xFF, 0xFF, 0xFF, 0xFF, 0xFF, 0x01]
  {
    assert Varint(0xFF) == [0xFF] + Varint(1);
    assert Varint(0x7FFF) == [0xFF] + Varint(0xFF);
    assert Varint(0x3F_FFFF) == [0xFF] + Varint(0x7FFF);
    assert Varint(0x1FFF_FFFF) == [0xFF] + Varint(0x3F_FFFF);
    assert Varint(0xF_FFFF_FFFF) == [0xFF] + Varint(0x1FFF_FFFF);
    assert Varint(0x7FF_FFFF_FFFF) == [0xFF] + Varint(0xF_FFFF_FFFF);
    assert Varint(0x3_FFFF_FFFF_FFFF) == [0xFF] + Varint(0x7FF_FFFF_FFFF);
    assert Varint(0x1FF_FFFF_FFFF_FFFF) == [0xFF] + Varint(0x3_FFFF_FFFF_FFFF);
    assert Varint(TWO64 - 2) == [0xFE] + Varint(0x1FF_FFFF_FFFF_FFFF);
  }
}
