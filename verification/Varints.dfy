/** Base-128 varints: the layout, and the decoders that the repository's two codecs use. */
module Varints {
  import opened Keys
  import opened LogFormat
  import Seqs

  const TWO64: nat := 0x1_0000_0000_0000_0000

  /** Seven bits a byte, least significant first; every byte but the last has its top bit set. */
  function Varint(n: nat): (r: Bytes)
    ensures |r| > 0
  {
    if n < 128 then [n] else [n % 128 + 128] + Varint(n / 128)
  }

  /** A decoded number and the bytes after it. */
  datatype Read = Read(value: nat, rest: Bytes)

  /** A decoded value and the bytes after it. */
  datatype Got<T> = Got(value: T, rest: Bytes)

  /** Bytes with their length in front. */
  function Delimited(b: Bytes): Bytes {
    Varint(|b|) + b
  }

  function Zeros(n: nat): Bytes {
    seq(n, _ => 0)
  }

  // ----- Powers of 128

  function Pow(k: nat): (r: nat)
    ensures r > 0
  {
    if k == 0 then 1 else 128 * Pow(k - 1)
  }

  // ----- The 64-bit decoder

  /** Reads at most ten bytes; `k` have been read before. */
  function Raw64(b: Bytes, k: nat): (r: Option<Read>)
    ensures r.Some? ==> |r.value.rest| < |b|
    decreases |b|
  {
    if k >= 10 || b == [] then None
    else if b[0] < 128 then Some(Read(b[0], b[1..]))
    else Prepend(b[0] as int - 128, Raw64(b[1..], k + 1))
  }

  /** Seven more low bits. */
  function Prepend(digit: nat, more: Option<Read>): (r: Option<Read>)
    ensures r.Some? <==> more.Some?
    ensures r.Some? ==> r.value.rest == more.value.rest
  {
    if more.None? then None else Some(Read(digit + 128 * more.value.value, more.value.rest))
  }

  /** Bits beyond the 64th are lost. */
  function Decode64(b: Bytes): (r: Option<Read>)
    ensures r.Some? ==> |r.value.rest| < |b| && r.value.value < TWO64
  {
    var r := Raw64(b, 0);
    if r.None? then None else Some(r.value.(value := r.value.value % TWO64))
  }

  /** How large a number still fits after `k` bytes. */
  function Room64(k: nat): nat {
    if k == 0 then TWO64 else Room64(k - 1) / 128
  }

  lemma {:induction false} RawReads(n: nat, k: nat, rest: Bytes)
    requires k < 10 && n < Room64(k)
    ensures Raw64(Varint(n) + rest, k) == Some(Read(n, rest))
    decreases 10 - k
  {
    var b := Varint(n) + rest;
    RoomShrinks(k);
    if n < 128 {
      assert b[1..] == rest;
    } else {
      assert b[1..] == Varint(n / 128) + rest;
      RawReads(n / 128, k + 1, rest);
    }
  }

  lemma RoomShrinks(k: nat)
    requires k < 10
    ensures k == 9 ==> Room64(k) == 2
    ensures k < 9 ==> Room64(k) == 128 * Room64(k + 1)
  {
    assert Room64(1) == 0x200_0000_0000_0000 && Room64(2) == 0x4_0000_0000_0000 && Room64(3) == 0x800_0000_0000;
    assert Room64(4) == 0x10_0000_0000 && Room64(5) == 0x2000_0000 && Room64(6) == 0x40_0000;
    assert Room64(7) == 0x8000 && Room64(8) == 0x100 && Room64(9) == 2;
  }

  /** The decoder undoes the encoder on every 64-bit number. */
  lemma {:induction false} Decode64Reads(n: nat, rest: Bytes)
    requires n < TWO64
    ensures Decode64(Varint(n) + rest) == Some(Read(n, rest))
  {
    RawReads(n, 0, rest);
  }

  /** A digit shifted left by `7 * i` bits. */
  function Shift(digit: nat, i: nat): nat {
    digit * Pow(i)
  }

  /** The decoding loop: shift each byte's bits into place. */
  method DecodeVarint(b: Bytes) returns (r: Option<Read>)
    ensures r == Decode64(b)
  {
    hide Prepend, Shifted, Shift, Pow;
    var result: nat, i := 0, 0;
    Seqs.WholeSlice(b);
    NothingShifted(Raw64(b, 0));
    while true
      invariant 0 <= i <= 10 && i <= |b|
      invariant Raw64(b, 0) == Shifted(result, i, Raw64(b[i..], i))
      decreases |b| - i
    {
      LastShifted(result, i, if i < |b| then b[i] as int else 0, b[(if i < |b| then i + 1 else i)..]);
      if i >= 10 {
        return None;
      }
      if i == |b| {
        return None;
      }
      var byte := b[i];
      assert b[i..][1..] == b[i + 1..];
      if byte < 128 {
        result := result + Shift(byte as int, i);
        return Some(Read(result % TWO64, b[i + 1..]));
      }
      ShiftMore(result, i, byte as int - 128, Raw64(b[i + 1..], i + 1));
      result := result + Shift(byte as int - 128, i);
      i := i + 1;
    }
  }

  ghost function Shifted(result: nat, i: nat, more: Option<Read>): Option<Read> {
    if more.None? then None else Some(Read(result + Shift(more.value.value, i), more.value.rest))
  }

  lemma NothingShifted(more: Option<Read>)
    ensures Shifted(0, 0, more) == more
  {
  }

  lemma LastShifted(result: nat, i: nat, digit: nat, rest: Bytes)
    ensures Shifted(result, i, Some(Read(digit, rest))) == Some(Read(result + Shift(digit, i), rest))
    ensures Shifted(result, i, None) == None
  {
  }

  lemma ShiftMore(result: nat, i: nat, digit: nat, more: Option<Read>)
    ensures Shifted(result, i, Prepend(digit, more)) == Shifted(result + Shift(digit, i), i + 1, more)
  {
    if more.Some? {
      var v := more.value.value;
      assert Pow(i + 1) == 128 * Pow(i);
      assert (digit + 128 * v) * Pow(i) == digit * Pow(i) + v * (128 * Pow(i));
    }
  }

  // ----- The 32-bit decoder

  /** The bytes after the first: beyond bit 32 only zeros and sign extension are let through, and a last byte at
      bit 28 may carry four bits. */
  function Rest32(b: Bytes, k: nat, result: nat): (r: Option<Read>)
    ensures r.Some? ==> |r.value.rest| < |b|
    decreases |b|
  {
    if b == [] then None
    else
      var byte, digit := b[0] as int, b[0] as int % 128;
      var extension := if 7 * k < 63 then 255 else 1;
      if 7 * k >= 32 && digit != 0 && (result / 0x8000_0000 == 0 || byte != extension) then None
      else
        var sum := if 7 * k >= 32 then result else (result + Shift(digit, k)) % TWO32;
        if byte >= 128 then Rest32(b[1..], k + 1, sum)
        else if k == 4 && byte >= 16 then None
        else Some(Read(sum, b[1..]))
  }

  function Decode32(b: Bytes): (r: Option<Read>)
    ensures r.Some? ==> |r.value.rest| < |b|
  {
    if b == [] then None
    else if b[0] < 128 then Some(Read(b[0], b[1..]))
    else Rest32(b[1..], 1, b[0] as int - 128)
  }

  /** The loop of the 32-bit decoder: bit position `7 * k`, the number so far, and the last byte read. */
  method DecodeVarint32(b: Bytes) returns (r: Option<Read>)
    ensures r == Decode32(b)
  {
    hide Shift;
    if b == [] {
      return None;
    }
    if b[0] < 128 {
      return Some(Read(b[0] as int, b[1..]));
    }
    var result: nat, k := b[0] as int - 128, 1;
    while true
      invariant 1 <= k <= |b| && Decode32(b) == Rest32(b[k..], k, result)
      decreases |b| - k
    {
      if k == |b| {
        return None;
      }
      var byte := b[k] as int;
      var extension := if 7 * k < 63 then 255 else 1;
      assert b[k..][1..] == b[k + 1..];
      if 7 * k >= 32 {
        if byte % 128 != 0 && (result / 0x8000_0000 == 0 || byte != extension) {
          return None;
        }
      } else {
        result := (result + Shift(byte % 128, k)) % TWO32;
      }
      k := k + 1;
      if byte < 128 {
        break;
      }
    }
    if k == 5 && b[k - 1] >= 16 {
      return None;
    }
    return Some(Read(result, b[k..]));
  }

  function Room32(k: nat): nat
    requires k <= 4
  {
    match k
    case 0 => TWO32
    case 1 => 0x200_0000
    case 2 => 0x4_0000
    case 3 => 0x800
    case _ => 16
  }

  lemma Pows()
    ensures Pow(0) == 1 && Pow(1) == 128 && Pow(2) == 0x4000 && Pow(3) == 0x20_0000 && Pow(4) == 0x1000_0000
  {
    assert Pow(1) == 128 * Pow(0) && Pow(2) == 128 * Pow(1) && Pow(3) == 128 * Pow(2) && Pow(4) == 128 * Pow(3);
  }

  lemma {:induction false} RestReads(n: nat, k: nat, result: nat, rest: Bytes)
    requires 0 < k <= 4 && n < Room32(k) && result < Pow(k)
    ensures Rest32(Varint(n) + rest, k, result) == Some(Read(result + Shift(n, k), rest))
    decreases 4 - k
  {
    hide Shift, Pow, Room32;
    var b := Varint(n) + rest;
    ShiftFits(n, k, result);
    if n < 128 {
      assert b[1..] == rest;
    } else {
      var digit := n % 128;
      assert b[0] as int == digit + 128 && b[0] as int % 128 == digit && b[1..] == Varint(n / 128) + rest;
      DigitFits(n, k, result);
      RestReads(n / 128, k + 1, result + Shift(digit, k), rest);
    }
  }

  lemma {:induction false} ShiftFits(n: nat, k: nat, result: nat)
    requires 0 < k <= 4 && n < Room32(k) && result < Pow(k)
    ensures result + Shift(n, k) < TWO32 && (k == 4 ==> n < 16)
  {
    Pows();
  }

  lemma DigitFits(n: nat, k: nat, result: nat)
    requires 0 < k <= 4 && 128 <= n < Room32(k) && result < Pow(k)
    ensures k < 4 && n / 128 < Room32(k + 1)
    ensures result + Shift(n % 128, k) < Pow(k + 1) && result + Shift(n % 128, k) < TWO32
    ensures result + Shift(n, k) == (result + Shift(n % 128, k)) + Shift(n / 128, k + 1)
  {
    Pows();
  }

  lemma {:induction false} Decode32Reads(n: nat, rest: Bytes)
    requires n < TWO32
    ensures Decode32(Varint(n) + rest) == Some(Read(n, rest))
  {
    var b := Varint(n) + rest;
    if n < 128 {
      assert b[1..] == rest;
    } else {
      assert b[0] as int == n % 128 + 128 && b[1..] == Varint(n / 128) + rest;
      Pows();
      RestReads(n / 128, 1, n % 128, rest);
    }
  }
}
