/** The encoder as it runs on an output stream, with the sizing pass before every length prefix. */
module ProtoStream {
  import opened Keys
  import opened LogFormat
  import opened Varints
  import opened Proto
  import Seqs

  lemma {:induction false} VarintShort(n: nat, k: nat)
    requires k < 10 && n < Room64(k)
    ensures |Varint(n)| <= 10 - k
    decreases 10 - k
  {
    RoomShrinks(k);
    if n >= 128 {
      VarintShort(n / 128, k + 1);
    }
  }

  /** A ten-byte buffer holds every 64-bit varint. */
  lemma {:induction false} VarintFits(n: nat)
    requires n < TWO64
    ensures |Varint(n)| <= 10
  {
    VarintShort(n, 0);
  }

  /** The encoding loop: seven bits at a time into a buffer. */
  method VarintBytes(value: nat) returns (buffer: Bytes)
    ensures buffer == Varint(value)
  {
    buffer := [];
    var rest := value;
    while rest >= 128
      invariant buffer + Varint(rest) == Varint(value)
    {
      Seqs.Assoc(buffer, [rest % 128 + 128], Varint(rest / 128));
      buffer := buffer + [rest % 128 + 128];
      rest := rest / 128;
    }
    assert Varint(rest) == [rest];
    buffer := buffer + [rest];
  }

  class OStream {
    /** A sizing stream counts bytes and stores none. */
    const sizing: bool
    const maxSize: nat
    var buf: Bytes
    var written: nat

    constructor (sizing: bool, maxSize: nat, buf: Bytes)
      ensures this.sizing == sizing && this.maxSize == maxSize && this.buf == buf && written == 0 && Valid()
    {
      this.sizing, this.maxSize, this.buf, written := sizing, maxSize, buf, 0;
    }

    ghost predicate Valid()
      reads this
    {
      sizing || written <= maxSize
    }

    predicate Fits(n: nat)
      reads this
    {
      sizing || written + n <= maxSize
    }

    /** `e` has been emitted since the stream was as given. */
    ghost predicate Emitted(was: Bytes, count: nat, e: Bytes)
      reads this
    {
      written == count + |e| && buf == if sizing then was else was + e
    }

    method Write(b: Bytes) returns (ok: bool)
      requires Valid()
      modifies this
      ensures Valid() && ok == old(Fits(|b|)) && (ok ==> Emitted(old(buf), old(written), b))
    {
      if !sizing {
        if written + |b| > maxSize {
          return false;
        }
        buf := buf + b;
      }
      written := written + |b|;
      return true;
    }

    /** Counts `n` bytes on a sizing stream. */
    method Count(ghost e: Bytes, n: nat) returns (ok: bool)
      requires sizing && n == |e|
      modifies this
      ensures Valid() && ok && Emitted(old(buf), old(written), e)
    {
      written := written + n;
      return true;
    }

    method EncodeVarint(value: nat) returns (ok: bool)
      requires Valid()
      modifies this
      ensures Valid() && ok == old(Fits(|Varint(value)|)) && (ok ==> Emitted(old(buf), old(written), Varint(value)))
    {
      var buffer := VarintBytes(value);
      ok := Write(buffer);
    }

    method EncodeDelimited(b: Bytes) returns (ok: bool)
      requires Valid()
      modifies this
      ensures Valid() && ok == old(Fits(|Delimited(b)|)) && (ok ==> Emitted(old(buf), old(written), Delimited(b)))
    {
      ok := EncodeVarint(|b|);
      if ok {
        Seqs.Assoc(old(buf), Varint(|b|), b);
        ok := Write(b);
      }
    }

    /** Tag and value kinds that need no second pass. */
    method EncodeNumber(k: Kind, n: int) returns (ok: bool)
      requires Packable(k) && Typed(k, Num(n))
      requires Valid()
      modifies this
      ensures Valid() && ok == old(Fits(|EncodeNum(k, n)|)) && (ok ==> Emitted(old(buf), old(written), EncodeNum(k, n)))
    {
      match k
      case Signed(_) => ok := EncodeVarint(if n < 0 then n + TWO64 else n);
      case Unsigned(_) => ok := EncodeVarint(n);
      case ZigZag(_) => ok := EncodeVarint(if n < 0 then -2 * n - 1 else 2 * n);
      case Word32 => ok := Write(Fixed32(n));
      case Word64 => ok := Write(Word64Bytes(n));
    }

    /** All items of a packed array, on this stream. */
    method EncodeItems(f: Field, s: Slot) returns (ok: bool)
      requires TypedSlot(f, s) && s.Many? && Packable(f.kind)
      requires Valid()
      modifies this
      ensures Valid() && ok == old(Fits(|PackedFrom(f, s, 0)|))
      ensures ok ==> Emitted(old(buf), old(written), PackedFrom(f, s, 0))
    {
      hide EncodeNum, Typed;
      ok := true;
      ghost var done: Bytes := [];
      for i := 0 to |s.items|
        invariant ok && Emitted(old(buf), old(written), done) && done + PackedFrom(f, s, i) == PackedFrom(f, s, 0)
        invariant Valid()
      {
        ItemTyped(f, s, i);
        var n := s.items[i].n;
        ghost var e, more := EncodeNum(f.kind, n), PackedFrom(f, s, i + 1);
        Seqs.Assoc(done, e, more);
        Seqs.Assoc(old(buf), done, e);
        ok := EncodeNumber(f.kind, n);
        if !ok {
          return;
        }
        done := done + e;
      }
    }

    method EncodeTag(wire: nat, tag: nat) returns (ok: bool)
      requires Valid()
      modifies this
      ensures Valid() && ok == old(Fits(|Proto.Tag(wire, tag)|))
      ensures ok ==> Emitted(old(buf), old(written), Proto.Tag(wire, tag))
    {
      ok := EncodeVarint(tag * 8 + wire);
    }

    /** A packed array: tag, size, items. Fixed-width sizes are multiplied out, others counted. */
    method EncodePacked(f: Field, s: Slot) returns (ok: bool)
      requires Valid() && TypedSlot(f, s) && s.Many? && Packable(f.kind)
      modifies this
      ensures Valid()
      ensures var e := Proto.Tag(2, f.tag) + Delimited(PackedFrom(f, s, 0));
              ok == old(Fits(|e|)) && (ok ==> Emitted(old(buf), old(written), e))
    {
      hide Proto.Tag, PackedFrom, Varint;
      ghost var tag, body := Proto.Tag(2, f.tag), PackedFrom(f, s, 0);
      ok := EncodeTag(2, f.tag);
      if !ok {
        return;
      }
      var size := PackedSize(f, s);
      ok := EncodeVarint(size);
      if !ok {
        return;
      }
      Seqs.Assoc(old(buf), tag, Varint(|body|));
      Seqs.Assoc(old(buf), tag + Varint(|body|), body);
      Seqs.Assoc(tag, Varint(|body|), body);
      if sizing {
        ok := Count(body, size);
      } else {
        ok := EncodeItems(f, s);
      }
    }

    method EncodeValueTo(k: Kind, v: Value) returns (ok: bool)
      requires Valid() && Typed(k, v)
      modifies this
      ensures Valid()
      ensures var e := EncodeValue(k, v);
              ok == (e.Some? && old(Fits(|e.value|))) && (ok ==> Emitted(old(buf), old(written), e.value))
      decreases v, if v.Msg? then |v.slots| + 2 else 0
    {
      hide Delimited, EncodeNum;
      match k
      case Blob(max) =>
        if |v.bytes| > max {
          return false;
        }
        ok := EncodeDelimited(v.bytes);
      case Text(_) => ok := EncodeDelimited(v.bytes);
      case FixedBlob(_) => ok := EncodeDelimited(v.bytes);
      case Sub(_) => ok := EncodeSubmessage(k, v);
      case _ => ok := EncodeNumber(k, v.n);
    }

    /** The message is encoded twice: once to count its bytes, then for real into a stream of exactly that
        size. The second pass always writes that many bytes. */
    method EncodeSubmessage(k: Kind, v: Value) returns (ok: bool)
      requires Valid() && k.Sub? && Typed(k, v)
      modifies this
      ensures Valid()
      ensures var body := EncodeFrom(k, v, 0);
              && ok == (body.Some? && old(Fits(|Delimited(body.value)|)))
              && (ok ==> Emitted(old(buf), old(written), Delimited(body.value)))
      decreases v, |v.slots| + 1
    {
      hide Typed, EncodeFrom, Varint;
      var counter := new OStream(true, 0, []);
      ok := counter.EncodeMessage(k, v);
      if !ok {
        return;
      }
      var size := counter.written;
      ghost var body := EncodeFrom(k, v, 0).value;
      ok := EncodeVarint(size);
      if !ok {
        return;
      }
      Seqs.Assoc(old(buf), Varint(size), body);
      if sizing {
        ok := Count(body, size);
        return;
      }
      if written + size > maxSize {
        return false;
      }
      var substream := new OStream(false, size, buf);
      ok := substream.EncodeMessage(k, v);
      assert ok && substream.written == size;
      written := written + substream.written;
      buf := substream.buf;
    }

    method EncodeMessage(k: Kind, v: Value) returns (ok: bool)
      requires Valid() && k.Sub? && Typed(k, v)
      modifies this
      ensures Valid()
      ensures var e := EncodeFrom(k, v, 0);
              ok == (e.Some? && old(Fits(|e.value|))) && (ok ==> Emitted(old(buf), old(written), e.value))
      decreases v, |v.slots|
    {
      hide EncodeFrom, EncodeField;
      ghost var done: Bytes, all := [], EncodeFrom(k, v, 0);
      StartJoin(all);
      ok := true;
      for i := 0 to |k.fields|
        invariant ok && Valid() && Emitted(old(buf), old(written), done) && all == Join(Some(done), EncodeFrom(k, v, i))
      {
        var f, s := k.fields[i], v.slots[i];
        assert TypedSlot(f, s);
        FromStep(k, v, i);
        ok := EncodeFieldTo(f, s);
        JoinStep(done, EncodeField(f, s), EncodeFrom(k, v, i + 1));
        if !ok {
          return;
        }
        Seqs.Assoc(old(buf), done, EncodeField(f, s).value);
        done := done + EncodeField(f, s).value;
      }
      FromEnd(k, v, done);
    }

    method EncodeFieldTo(f: Field, s: Slot) returns (ok: bool)
      requires Valid() && TypedSlot(f, s)
      modifies this
      ensures Valid()
      ensures var e := EncodeField(f, s);
              ok == (e.Some? && old(Fits(|e.value|))) && (ok ==> Emitted(old(buf), old(written), e.value))
      decreases s, 2
    {
      hide EncodeValue, Proto.Tag, PackedFrom, Delimited, Typed, EachFrom;
      match f.presence
      case Repeated(max) =>
        if s.items == [] {
          ok := true;
        } else if |s.items| > max {
          ok := false;
        } else if Packable(f.kind) {
          ok := EncodePacked(f, s);
        } else {
          ok := EncodeEach(f, s);
        }
      case Required => ok := EncodeOne(f, s);
      case Implicit =>
        if IsZero(f.kind, s.value) {
          ok := true;
        } else {
          ok := EncodeOne(f, s);
        }
      case _ =>
        if s.has {
          ok := EncodeOne(f, s);
        } else {
          ok := true;
        }
    }

    method EncodeOne(f: Field, s: Slot) returns (ok: bool)
      requires Valid() && s.One? && Typed(f.kind, s.value)
      modifies this
      ensures Valid()
      ensures var e := EncodeTagged(f, s);
              ok == (e.Some? && old(Fits(|e.value|))) && (ok ==> Emitted(old(buf), old(written), e.value))
      decreases s, 0
    {
      hide EncodeValue, Proto.Tag, Typed;
      ghost var tag, e := Proto.Tag(WireType(f.kind), f.tag), EncodeValue(f.kind, s.value);
      ok := EncodeTag(WireType(f.kind), f.tag);
      if ok {
        ok := EncodeValueTo(f.kind, s.value);
        if ok {
          Seqs.Assoc(old(buf), tag, e.value);
        }
      }
    }

    /** An array that is not packed: each item with its tag. */
    method EncodeEach(f: Field, s: Slot) returns (ok: bool)
      requires Valid() && TypedSlot(f, s) && s.Many? && f.presence.Repeated?
      modifies this
      ensures Valid()
      ensures var e := EachFrom(f, s, 0);
              ok == (e.Some? && old(Fits(|e.value|))) && (ok ==> Emitted(old(buf), old(written), e.value))
      decreases s, 1
    {
      hide EachFrom, EncodeValue, Proto.Tag, Typed;
      ghost var done: Bytes, all := [], EachFrom(f, s, 0);
      StartJoin(all);
      ok := true;
      for i := 0 to |s.items|
        invariant ok && Valid() && Emitted(old(buf), old(written), done) && all == Join(Some(done), EachFrom(f, s, i))
      {
        EachStep(f, s, i);
        ghost var was, count := buf, written;
        ghost var tag, e := Proto.Tag(WireType(f.kind), f.tag), EncodeValue(f.kind, s.items[i]);
        JoinStep(done, Join(Some(tag), e), EachFrom(f, s, i + 1));
        ok := EncodeTag(WireType(f.kind), f.tag);
        if !ok {
          return;
        }
        ok := EncodeValueTo(f.kind, s.items[i]);
        if !ok {
          return;
        }
        Seqs.Assoc(was, tag, e.value);
        Seqs.Assoc(old(buf), done, tag + e.value);
        done := done + (tag + e.value);
      }
      EachEnd(f, s, done);
    }
  }

  /** The size of a packed array's items. */
  method PackedSize(f: Field, s: Slot) returns (size: nat)
    requires TypedSlot(f, s) && s.Many? && Packable(f.kind)
    ensures size == |PackedFrom(f, s, 0)|
  {
    if f.kind.Word32? {
      size := 4 * |s.items|;
      FixedSize(f, s, 0, 4);
    } else if f.kind.Word64? {
      size := 8 * |s.items|;
      FixedSize(f, s, 0, 8);
    } else {
      var counter := new OStream(true, 0, []);
      var ok := counter.EncodeItems(f, s);
      size := counter.written;
    }
  }

  lemma {:induction false} FixedSize(f: Field, s: Slot, i: nat, width: nat)
    requires TypedSlot(f, s) && s.Many? && i <= |s.items|
    requires (f.kind.Word32? && width == 4) || (f.kind.Word64? && width == 8)
    ensures |PackedFrom(f, s, i)| == width * (|s.items| - i)
    decreases |s.items| - i
  {
    if i < |s.items| {
      ItemTyped(f, s, i);
      FixedSize(f, s, i + 1, width);
      assert |EncodeNum(f.kind, s.items[i].n)| == width;
      hide PackedFrom, EncodeNum;
      assert width * (|s.items| - i) == width + width * (|s.items| - (i + 1));
    }
  }

  lemma StartJoin(all: Option<Bytes>)
    ensures all == Join(Some([]), all)
  {
    assert all.Some? ==> [] + all.value == all.value;
  }

  lemma JoinStep(done: Bytes, e: Option<Bytes>, more: Option<Bytes>)
    ensures e.Some? ==> Join(Some(done), Join(e, more)) == Join(Some(done + e.value), more)
    ensures e.None? ==> Join(Some(done), Join(e, more)) == None
    ensures var all := Join(Some(done), Join(e, more)); all.Some? ==> |all.value| >= |done| + |e.value|
  {
    if e.Some? && more.Some? {
      Seqs.Assoc(done, e.value, more.value);
    }
  }

  lemma FromStep(k: Kind, v: Value, i: nat)
    requires k.Sub? && Typed(k, v) && i < |k.fields| && TypedSlot(k.fields[i], v.slots[i])
    ensures EncodeFrom(k, v, i) == Join(EncodeField(k.fields[i], v.slots[i]), EncodeFrom(k, v, i + 1))
  {
    hide EncodeField;
  }

  lemma {:induction false} FromEnd(k: Kind, v: Value, done: Bytes)
    requires k.Sub? && Typed(k, v)
    ensures Join(Some(done), EncodeFrom(k, v, |k.fields|)) == Some(done)
  {
    assert done + [] == done;
  }

  lemma EachStep(f: Field, s: Slot, i: nat)
    requires TypedSlot(f, s) && s.Many? && i < |s.items|
    ensures Typed(f.kind, s.items[i])
    ensures EachFrom(f, s, i) == Join(Join(Some(Proto.Tag(WireType(f.kind), f.tag)), EncodeValue(f.kind, s.items[i])),
              EachFrom(f, s, i + 1))
  {
    hide EncodeValue, Proto.Tag;
  }

  lemma {:induction false} EachEnd(f: Field, s: Slot, done: Bytes)
    requires TypedSlot(f, s) && s.Many?
    ensures Join(Some(done), EachFrom(f, s, |s.items|)) == Some(done)
  {
    assert done + [] == done;
  }

  /** The size a message will take: the sizing pass counts exactly the bytes of the encoding. */
  method GetEncodedSize(k: Kind, v: Value) returns (size: Option<nat>)
    requires k.Sub? && Typed(k, v)
    ensures size == var e := EncodeFrom(k, v, 0); if e.Some? then Some(|e.value|) else None
  {
    hide EncodeFrom;
    var counter := new OStream(true, 0, []);
    var ok := counter.EncodeMessage(k, v);
    size := if ok then Some(counter.written) else None;
  }

  /** A buffer of that size always suffices, and ends up holding the encoding. */
  method EncodeToBuffer(k: Kind, v: Value, size: nat) returns (r: Option<Bytes>)
    requires k.Sub? && Typed(k, v) && EncodeFrom(k, v, 0).Some?
    ensures r == if |EncodeFrom(k, v, 0).value| <= size then EncodeFrom(k, v, 0) else None
  {
    hide EncodeFrom;
    var stream := new OStream(false, size, []);
    var ok := stream.EncodeMessage(k, v);
    assert [] + EncodeFrom(k, v, 0).value == EncodeFrom(k, v, 0).value;
    r := if ok then Some(stream.buf) else None;
  }

  lemma ItemTyped(f: Field, s: Slot, i: nat)
    requires TypedSlot(f, s) && s.Many? && Packable(f.kind) && i < |s.items|
    ensures Typed(f.kind, s.items[i]) && s.items[i].Num? && Typed(f.kind, Num(s.items[i].n))
    ensures PackedFrom(f, s, i) == EncodeNum(f.kind, s.items[i].n) + PackedFrom(f, s, i + 1)
  {
    assert Typed(f.kind, s.items[i]);
  }
}
