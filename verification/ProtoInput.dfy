/** The decoder as it runs: an input stream that is consumed, a destination that is filled in place,
    substreams for delimited fields. */
module ProtoInput {
  import opened Keys
  import opened LogFormat
  import opened Varints
  import opened Proto
  import Seqs

  class IStream {
    /** What is left to read. */
    var left: Bytes

    constructor (b: Bytes)
      ensures left == b
    {
      left := b;
    }

    /** Both varint decoders, consuming what they read; on failure the stream is spent as far as they got. */
    method ReadVarint(wide: bool) returns (r: Option<nat>)
      modifies this
      ensures var x := if wide then Decode64(old(left)) else Decode32(old(left));
              r == (if x.Some? then Some(x.value.value) else None) && (x.Some? ==> left == x.value.rest)
    {
      var x;
      if wide {
        x := DecodeVarint(left);
      } else {
        x := DecodeVarint32(left);
      }
      if x.None? {
        return None;
      }
      left := x.value.rest;
      r := Some(x.value.value);
    }

    method ReadBytes(n: nat) returns (r: Option<Bytes>)
      modifies this
      ensures r == (if n <= |old(left)| then Some(old(left)[..n]) else None)
      ensures r.Some? ==> left == old(left)[n..]
    {
      if |left| < n {
        return None;
      }
      r := Some(left[..n]);
      left := left[n..];
    }

    /** A substream limited to a length-prefixed field, which the parent stream then skips whole. */
    method MakeSubstream() returns (sub: Option<IStream>)
      modifies this
      ensures var x := TakeDelimited(old(left));
              && sub.Some? == x.Some?
              && (x.Some? ==> fresh(sub.value) && sub.value.left == x.value.value && left == x.value.rest)
    {
      var n := ReadVarint(false);
      if n.None? {
        return None;
      }
      var b := ReadBytes(n.value);
      if b.None? {
        return None;
      }
      var s := new IStream(b.value);
      sub := Some(s);
    }

    method ReadNumber(k: Kind) returns (r: Option<Value>)
      requires Packable(k)
      modifies this
      ensures var x := DecodeNum(k, old(left));
              r == (if x.Some? then Some(x.value.value) else None) && (x.Some? ==> left == x.value.rest)
    {
      hide Decode64;
      if k.Word32? || k.Word64? {
        var b := ReadBytes(if k.Word32? then 4 else 8);
        if b.None? {
          return None;
        }
        return Some(if k.Word32? then Num(ReadFixed32(b.value))
            else Num(ReadFixed32(b.value) + TWO32 * ReadFixed32(b.value[4..])));
      }
      var x := ReadVarint(true);
      if x.None? {
        return None;
      }
      var n, ok := x.value as int, true;
      if k.Signed? {
        n := if k.size == 8 then ToSigned(x.value, TWO64) else ToSigned(x.value % TWO32, TWO32);
        ok := InRange(k.size, n);
      } else if k.Unsigned? {
        ok := x.value < 2 * Half(k.size);
      } else {
        n := if x.value % 2 == 1 then -(x.value / 2) - 1 else x.value / 2;
        ok := InRange(k.size, n);
      }
      return if ok then Some(Num(n)) else None;
    }

    /** Items until the substream is empty; more than the array holds is an error. */
    method ReadPacked(k: Kind, items0: seq<Value>, max: nat) returns (r: Option<seq<Value>>)
      requires Packable(k)
      modifies this
      ensures r == DecodePacked(k, items0, max, old(left))
    {
      hide DecodeNum;
      var items := items0;
      while left != []
        invariant DecodePacked(k, items, max, left) == DecodePacked(k, items0, max, old(left))
        decreases |left|
      {
        if |items| >= max {
          return None;
        }
        var x := ReadNumber(k);
        if x.None? {
          return None;
        }
        items := items + [x.value];
      }
      r := Some(items);
    }

    method ReadValue(k: Kind, dest: Value) returns (r: Option<Value>)
      modifies this
      ensures var x := DecodeValue(k, dest, old(left));
              r == (if x.Some? then Some(x.value.value) else None) && (x.Some? ==> left == x.value.rest)
      decreases |left|, 2
    {
      hide DecodeNum, DecodeMessage;
      if Packable(k) {
        r := ReadNumber(k);
        return;
      }
      var sub := MakeSubstream();
      if sub.None? {
        return None;
      }
      var x := sub.value.left;
      match k {
        case Blob(max) => r := if |x| > max then None else Some(Raw(x));
        case Text(size) => r := if |x| + 1 > size then None else Some(Raw(UpToZero(x)));
        case FixedBlob(size) => r := if x == [] then Some(Raw(Zeros(size))) else if |x| != size then None
            else Some(Raw(x));
        case Sub(_) => r := sub.value.ReadMessage(k, dest);
      }
    }

    method ReadField(f: Field, s: Slot, wire: nat) returns (r: Option<Slot>)
      modifies this
      ensures var x := DecodeField(f, s, wire, old(left));
              r == (if x.Some? then Some(x.value.value) else None) && (x.Some? ==> left == x.value.rest)
      decreases |left|, 3
    {
      hide DecodeValue, DecodePacked;
      match f.presence
      case Repeated(max) =>
        if !s.Many? {
          return None;
        }
        if wire == 2 && Packable(f.kind) {
          var sub := MakeSubstream();
          if sub.None? {
            return None;
          }
          var items := sub.value.ReadPacked(f.kind, s.items, max);
          return if items.None? then None else Some(Many(items.value));
        }
        if |s.items| >= max {
          return None;
        }
        var x := ReadValue(f.kind, DefaultValue(f));
        return if x.None? then None else Some(Many(s.items + [x.value]));
      case OneOf(_) =>
        var x := ReadValue(f.kind, DefaultValue(f));
        return if x.None? then None else Some(One(true, x.value));
      case _ =>
        if !s.One? {
          return None;
        }
        var x := ReadValue(f.kind, s.value);
        return if x.None? then None else Some(One(true, x.value));
    }

    method Skip(wire: nat) returns (ok: bool)
      modifies this
      ensures ok == SkipField(wire, old(left)).Some? && (ok ==> left == SkipField(wire, old(left)).value)
    {
      var r := SkipField(wire, left);
      if r.None? {
        return false;
      }
      left := r.value;
      return true;
    }

    /** Tag, field, tag, field, until the stream is empty or a zero tag; then the required fields are checked. */
    method ReadMessage(k: Kind, dest: Value) returns (r: Option<Value>)
      requires k.Sub?
      modifies this
      ensures r == DecodeMessage(k, dest, {}, old(left))
      decreases |left|, 1
    {
      hide DecodeField, SkipField, Decode32, Store;
      var v, seen: set<nat> := dest, {};
      if !v.Msg? || |v.slots| != |k.fields| {
        return None;
      }
      ghost var start := |left|;
      while left != []
        invariant v.Msg? && |v.slots| == |k.fields| && |left| <= start
        invariant DecodeMessage(k, v, seen, left) == DecodeMessage(k, dest, {}, old(left))
        decreases |left|
      {
        ghost var b := left;
        var t := ReadVarint(false);
        if t.None? {
          return None;
        }
        if t.value == 0 {
          break;
        }
        var i := Find(k.fields, t.value / 8);
        if i.None? {
          var ok := Skip(t.value % 8);
          if !ok {
            return None;
          }
        } else {
          var s := ReadField(k.fields[i.value], v.slots[i.value], t.value % 8);
          if s.None? {
            return None;
          }
          v := Msg(Store(k.fields, v.slots, i.value, s.value));
          seen := Mark(k.fields[i.value], i.value, seen);
        }
      }
      r := Finish(k, v, seen);
    }
  }
}
