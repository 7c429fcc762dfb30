/** The varint decoders on any bytes, not only on what the encoder writes. */
module VarintAny {
  import opened Keys
  import opened LogFormat
  import opened Varints
  import opened Blocks
  import Seqs

  /** The first byte with a clear top bit is at `n`. */
  predicate EndsAt(b: Bytes, n: nat) {
    n < |b| && b[n] < 128 && forall i :: 0 <= i < n ==> b[i] >= 128
  }

  predicate NeverEnds(b: Bytes) {
    forall i :: 0 <= i < |b| ==> b[i] >= 128
  }

  /** Seven bits a byte, least significant first. */
  function Digits(b: Bytes): nat {
    if b == [] then 0 else b[0] as int % 128 + 128 * Digits(b[1..])
  }

  lemma EndsNext(b: Bytes, n: nat)
    requires EndsAt(b, n) && n > 0
    ensures EndsAt(b[1..], n - 1) && b[1..][n..] == b[n + 1..] && b[1..][..n] == b[..n + 1][1..]
  {
  }

  lemma {:induction false} Raw64Any(b: Bytes, k: nat, n: nat)
    requires EndsAt(b, n)
    ensures Raw64(b, k) == if k + n < 10 then Some(Read(Digits(b[..n + 1]), b[n + 1..])) else None
    decreases n
  {
    if n == 0 {
      assert b[..1] == [b[0]] && Digits([b[0]][1..]) == 0;
    } else if k < 10 {
      EndsNext(b, n);
      Raw64Any(b[1..], k + 1, n - 1);
      assert b[..n + 1][0] == b[0];
    }
  }

  lemma {:induction false} Raw64Runs(b: Bytes, k: nat)
    requires NeverEnds(b)
    ensures Raw64(b, k) == None
    decreases |b|
  {
    if b != [] && k < 10 {
      Raw64Runs(b[1..], k + 1);
    }
  }

  /** The 64-bit decoder: up to ten bytes, of which the first with a clear top bit is the last; the bits beyond the
      64th are lost; an error if there is no such byte. */
  lemma {:induction false} Decode64Any(b: Bytes)
    ensures forall n :: EndsAt(b, n) ==>
              Decode64(b) == if n < 10 then Some(Read(Digits(b[..n + 1]) % TWO64, b[n + 1..])) else None
    ensures NeverEnds(b) ==> Decode64(b) == None
  {
    forall n | EndsAt(b, n)
      ensures Decode64(b) == if n < 10 then Some(Read(Digits(b[..n + 1]) % TWO64, b[n + 1..])) else None
    {
      Raw64Any(b, 0, n);
    }
    if NeverEnds(b) {
      Raw64Runs(b, 0);
    }
  }

  lemma {:induction false} Raw32Any(b: Bytes, k: nat, n: nat)
    requires EndsAt(b, n)
    ensures Raw32(b, k) == if k + n < 5 then Some(Read(Digits(b[..n + 1]), b[n + 1..])) else None
    decreases n
  {
    if n == 0 {
      assert b[..1] == [b[0]] && Digits([b[0]][1..]) == 0;
    } else if k < 5 {
      EndsNext(b, n);
      Raw32Any(b[1..], k + 1, n - 1);
      assert b[..n + 1][0] == b[0];
    }
  }

  lemma {:induction false} Raw32Runs(b: Bytes, k: nat)
    requires NeverEnds(b)
    ensures Raw32(b, k) == None
    decreases |b|
  {
    if b != [] && k < 5 {
      Raw32Runs(b[1..], k + 1);
    }
  }

  /** The store's 32-bit decoder: the same with up to five bytes. */
  lemma {:induction false} GetVarint32Any(b: Bytes)
    ensures forall n :: EndsAt(b, n) ==>
              GetVarint32(b) == if n < 5 then Some(Read(Digits(b[..n + 1]) % TWO32, b[n + 1..])) else None
    ensures NeverEnds(b) ==> GetVarint32(b) == None
  {
    forall n | EndsAt(b, n)
      ensures GetVarint32(b) == if n < 5 then Some(Read(Digits(b[..n + 1]) % TWO32, b[n + 1..])) else None
    {
      Raw32Any(b, 0, n);
    }
    if NeverEnds(b) {
      Raw32Runs(b, 0);
    }
  }

  // ----- The 32-bit decoder of nanopb

  /** Bits 35 and up, seven at a time: only zeros and ones, with the 64th bit set. */
  predicate OnlySign(m: nat, k: nat) {
    if m < 128 then k == 9 && m == 1
    else k < 9 && (m % 128 == 0 || m % 128 == 127) && OnlySign(m / 128, k + 1)
  }

  /** What a 64-bit varint is to a 32-bit member: itself if it fits; its lowest 32 bits if bit 31 is set and what
      lies above bit 34 looks like a sign; otherwise an error. */
  function Narrow(n: nat): Option<nat> {
    if n < TWO32 then Some(n)
    else if n >= 0x8_0000_0000 && n % TWO32 >= 0x8000_0000 && OnlySign(n / 0x8_0000_0000, 5) then Some(n % TWO32)
    else None
  }

  function Found(n: Option<nat>, rest: Bytes): Option<Read> {
    if n.Some? then Some(Read(n.value, rest)) else None
  }

  lemma {:induction false} RestSign(m: nat, k: nat, result: nat, rest: Bytes)
    requires 5 <= k <= 9 && 0 < m < Room64(k) && result < TWO32
    ensures Rest32(Varint(m) + rest, k, result) ==
              if result >= 0x8000_0000 && OnlySign(m, k) then Some(Read(result, rest)) else None
    decreases 9 - k
  {
    hide Shift;
    RoomShrinks(k);
    var b := Varint(m) + rest;
    if m < 128 {
      assert b[1..] == rest;
    } else {
      assert b[0] as int == m % 128 + 128 && b[1..] == Varint(m / 128) + rest;
      RestSign(m / 128, k + 1, result, rest);
    }
  }

  lemma {:induction false} RestAny(n: nat, k: nat, result: nat, rest: Bytes)
    requires 0 < k <= 4 && n > 0 && result < Pow(k) && result + Shift(n, k) < TWO64
    ensures Rest32(Varint(n) + rest, k, result) == Found(Narrow(result + Shift(n, k)), rest)
    decreases 4 - k
  {
    hide Shift, Narrow, Pow;
    var b := Varint(n) + rest;
    if n < 128 {
      assert b[1..] == rest;
      LastDigit(n, k, result);
    } else {
      assert b[0] as int == n % 128 + 128 && b[0] as int % 128 == n % 128 && b[1..] == Varint(n / 128) + rest;
      if k < 4 {
        MoreDigits(n, k, result);
        RestAny(n / 128, k + 1, result + Shift(n % 128, k), rest);
      } else {
        FifthDigit(n, result);
        RestSign(n / 128, 5, (result + Shift(n % 128, 4)) % TWO32, rest);
      }
    }
  }

  lemma {:induction false} LastDigit(n: nat, k: nat, result: nat)
    requires 0 < k <= 4 && 0 < n < 128 && result < Pow(k)
    ensures k < 4 || n < 16 ==> result + Shift(n, k) < TWO32
    ensures k < 4 || n < 16 ==> Narrow(result + Shift(n, k)) == Some(result + Shift(n, k))
    ensures k == 4 && n >= 16 ==> Narrow(result + Shift(n, k)) == None
  {
    Pows();
  }

  lemma MoreDigits(n: nat, k: nat, result: nat)
    requires 0 < k < 4 && n >= 128 && result < Pow(k)
    ensures result + Shift(n % 128, k) < Pow(k + 1) <= TWO32
    ensures result + Shift(n, k) == (result + Shift(n % 128, k)) + Shift(n / 128, k + 1)
  {
    Pows();
    assert n == n / 128 * 128 + n % 128;
  }

  lemma {:induction false} FifthDigit(n: nat, result: nat)
    requires n >= 128 && result < Pow(4) && result + Shift(n, 4) < TWO64
    ensures 0 < n / 128 < Room64(5)
    ensures var all, low := result + Shift(n, 4), (result + Shift(n % 128, 4)) % TWO32;
            Narrow(all) == if low >= 0x8000_0000 && OnlySign(n / 128, 5) then Some(low) else None
  {
    Pows();
    hide OnlySign, Pow;
    Room5();
    var q, r := n / 128, n % 128;
    SplitFifth(q, r, result);
    assert Shift(n, 4) == n * 0x1000_0000 && Shift(r, 4) == r * 0x1000_0000;
  }

  lemma Room5()
    ensures Room64(5) == 0x2000_0000
  {
    assert Room64(1) == 0x200_0000_0000_0000 && Room64(2) == 0x4_0000_0000_0000 && Room64(3) == 0x800_0000_0000;
    assert Room64(4) == 0x10_0000_0000;
  }

  lemma SplitFifth(q: nat, r: nat, result: nat)
    requires q > 0 && r < 128 && result < 0x1000_0000
    ensures var all := (q * 128 + r) * 0x1000_0000 + result;
            && all / 0x8_0000_0000 == q && all >= 0x8_0000_0000
            && all % TWO32 == (result + r * 0x1000_0000) % TWO32
            && (all < TWO64 ==> q < 0x2000_0000)
  {
    var s := r * 0x1000_0000 + result;
    assert (q * 128 + r) * 0x1000_0000 + result == q * 0x8_0000_0000 + s && s < 0x8_0000_0000;
    assert q * 0x8_0000_0000 == (q * 8) * TWO32;
  }

  /** A 64-bit varint read as a 32-bit number. */
  lemma {:induction false} Decode32Any(n: nat, rest: Bytes)
    requires n < TWO64
    ensures Decode32(Varint(n) + rest) == Found(Narrow(n), rest)
  {
    var b := Varint(n) + rest;
    if n < 128 {
      assert b[1..] == rest;
    } else {
      assert b[0] as int == n % 128 + 128 && b[1..] == Varint(n / 128) + rest;
      Pows();
      assert n == n % 128 + Shift(n / 128, 1);
      hide Shift, Narrow, Pow;
      RestAny(n / 128, 1, n % 128, rest);
    }
  }

  /** A negative 32-bit number comes as ten bytes and is read as its two's complement. */
  lemma {:induction false} NegativeNarrows(m: nat)
    requires 0 < m <= 0x8000_0000
    ensures Narrow(TWO64 - m) == Some(TWO32 - m)
  {
    var n := TWO64 - m;
    assert n / 0x8_0000_0000 == 0x1FFF_FFFF && n % TWO32 == TWO32 - m;
    assert OnlySign(1, 9) && OnlySign(0xFF, 8) && OnlySign(0x7FFF, 7) && OnlySign(0x3F_FFFF, 6);
  }

  // ----- The 32-bit decoder on any bytes

  /** From byte `k` on, with `low` the lowest 32 bits: every byte adds nothing, or a sign. */
  predicate SignOnly(b: Bytes, k: nat, low: nat) {
    forall i :: 0 <= i < |b| ==>
      b[i] as int % 128 == 0 || (low >= 0x8000_0000 && b[i] as int == if 7 * (k + i) < 63 then 255 else 1)
  }

  lemma SignOnlyNext(b: Bytes, k: nat, low: nat)
    requires b != []
    ensures SignOnly(b, k, low) <==>
            (b[0] as int % 128 == 0 || (low >= 0x8000_0000 && b[0] as int == if 7 * k < 63 then 255 else 1))
            && SignOnly(b[1..], k + 1, low)
  {
    if SignOnly(b[1..], k + 1, low) {
      assert forall i :: 0 < i < |b| ==> b[i] == b[1..][i - 1];
    }
  }

  lemma {:induction false} RestHigh(b: Bytes, k: nat, low: nat, n: nat)
    requires EndsAt(b, n) && k >= 5
    ensures Rest32(b, k, low) == if SignOnly(b[..n + 1], k, low) then Some(Read(low, b[n + 1..])) else None
    decreases n
  {
    hide SignOnly, Shift;
    SignOnlyNext(b[..n + 1], k, low);
    if n == 0 {
      assert b[..1][1..] == [];
      NoMore(k + 1, low);
    } else {
      EndsNext(b, n);
      RestHigh(b[1..], k + 1, low, n - 1);
      assert b[..n + 1][0] == b[0];
    }
  }

  lemma NoMore(k: nat, low: nat)
    ensures SignOnly([], k, low)
  {
  }

  lemma {:induction false} RestRuns(b: Bytes, k: nat, low: nat)
    requires NeverEnds(b)
    ensures Rest32(b, k, low) == None
    decreases |b|
  {
    hide Shift;
    if b != [] {
      RestRuns(b[1..], k + 1, if 7 * k >= 32 then low else (low + Shift(b[0] as int % 128, k)) % TWO32);
    }
  }

  /** What bytes from byte `k` on make of `result`, when the first with a clear top bit is at `n`. */
  ghost function Ending(b: Bytes, k: nat, result: nat, n: nat): Option<Read>
    requires 0 < k <= 4 && EndsAt(b, n)
  {
    if k + n < 4 || (k + n == 4 && b[n] < 16) then Some(Read(result + Pow(k) * Digits(b[..n + 1]), b[n + 1..]))
    else if k + n == 4 then None
    else
      var low := (result + Pow(k) * Digits(b[..5 - k])) % TWO32;
      if SignOnly(b[5 - k..n + 1], 5, low) then Some(Read(low, b[n + 1..])) else None
  }

  lemma DigitsFirst(b: Bytes, m: nat)
    requires 0 < m <= |b|
    ensures Digits(b[..m]) == b[0] as int % 128 + 128 * Digits(b[1..][..m - 1])
  {
    assert b[..m][1..] == b[1..][..m - 1];
  }

  /** One digit further, in plain numbers. */
  lemma DigitStep(k: nat, result: nat, digit: nat, more: nat)
    requires 0 < k <= 4 && digit < 128 && result < Pow(k)
    ensures result + Shift(digit, k) == result + Pow(k) * digit
    ensures k < 4 ==> result + Shift(digit, k) < Pow(k + 1) <= TWO32
    ensures k < 4 ==> (result + Shift(digit, k)) + Pow(k + 1) * more == result + Pow(k) * (digit + 128 * more)
    ensures k == 4 && digit < 16 ==> result + Shift(digit, k) < TWO32
  {
    Pows();
  }

  lemma {:induction false} EndingNext(b: Bytes, k: nat, result: nat, n: nat)
    requires 0 < k < 4 && EndsAt(b, n) && n > 0 && result < Pow(k)
    ensures EndsAt(b[1..], n - 1)
    ensures Ending(b[1..], k + 1, result + Shift(b[0] as int % 128, k), n - 1) == Ending(b, k, result, n)
  {
    hide Shift, Pow, SignOnly;
    EndsNext(b, n);
    var digit := b[0] as int % 128;
    DigitsFirst(b, n + 1);
    DigitStep(k, result, digit, Digits(b[1..][..n]));
    if k + n > 4 {
      DigitsFirst(b, 5 - k);
      DigitStep(k, result, digit, Digits(b[1..][..4 - k]));
      assert b[1..][4 - k..n] == b[5 - k..n + 1];
    }
  }

  lemma {:induction false} RestLow(b: Bytes, k: nat, result: nat, n: nat)
    requires 0 < k <= 4 && EndsAt(b, n) && result < Pow(k)
    ensures Rest32(b, k, result) == Ending(b, k, result, n)
    decreases n
  {
    hide Shift, Pow, SignOnly;
    var digit := b[0] as int % 128;
    DigitStep(k, result, digit, 0);
    DigitsFirst(b, 1);
    assert Digits(b[1..][..0]) == 0;
    if n > 0 {
      EndsNext(b, n);
      if k < 4 {
        RestLow(b[1..], k + 1, result + Shift(digit, k), n - 1);
        EndingNext(b, k, result, n);
      } else {
        RestHigh(b[1..], 5, (result + Shift(digit, 4)) % TWO32, n - 1);
        assert b[1..][..n] == b[1..n + 1];
      }
    } else if k < 4 || digit < 16 {
      FitsLast(k, result, digit);
    }
  }

  lemma {:induction false} FitsLast(k: nat, result: nat, digit: nat)
    requires 0 < k <= 4 && digit < 128 && result < Pow(k) && (k == 4 ==> digit < 16)
    ensures (result + Shift(digit, k)) % TWO32 == result + Shift(digit, k)
  {
    Pows();
  }

  /** Up to five bytes make a number, the fifth adding at most four bits; any further bytes must be zero digits or
      a sign; an error if no byte is the last. */
  lemma {:induction false} Decode32Bytes(b: Bytes)
    ensures forall n: nat :: EndsAt(b, n) ==>
              Decode32(b) ==
                if n < 4 || (n == 4 && b[4] < 16) then Some(Read(Digits(b[..n + 1]), b[n + 1..]))
                else if n == 4 || !SignOnly(b[5..n + 1], 5, Digits(b[..5]) % TWO32) then None
                else Some(Read(Digits(b[..5]) % TWO32, b[n + 1..]))
    ensures NeverEnds(b) ==> Decode32(b) == None
  {
    hide SignOnly, Rest32;
    forall n: nat | EndsAt(b, n)
      ensures Decode32(b) ==
                if n < 4 || (n == 4 && b[4] < 16) then Some(Read(Digits(b[..n + 1]), b[n + 1..]))
                else if n == 4 || !SignOnly(b[5..n + 1], 5, Digits(b[..5]) % TWO32) then None
                else Some(Read(Digits(b[..5]) % TWO32, b[n + 1..]))
    {
      DigitsFirst(b, n + 1);
      if n == 0 {
        assert Digits(b[1..][..0]) == 0;
      } else {
        EndsNext(b, n);
        Pows();
        RestLow(b[1..], 1, b[0] as int % 128, n - 1);
        if n >= 5 {
          DigitsFirst(b, 5);
          assert b[1..][4..n] == b[5..n + 1];
        }
      }
    }
    if NeverEnds(b) && b != [] {
      RestRuns(b[1..], 1, b[0] as int - 128);
    }
  }
}
