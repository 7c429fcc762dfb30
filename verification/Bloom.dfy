/** The bloom filter: no key that went into a filter is ever rejected by it. */
module Bloom {
  import opened LogFormat

  // ----- Bits of a byte

  function Power(n: nat): nat {
    if n == 0 then 1 else 2 * Power(n - 1)
  }

  predicate Bit(x: nat, i: nat) {
    if i == 0 then x % 2 == 1 else Bit(x / 2, i - 1)
  }

  function SetBit(x: nat, i: nat): nat {
    if i == 0 then x - x % 2 + 1 else SetBit(x / 2, i - 1) * 2 + x % 2
  }

  lemma {:induction false} SetBitSets(x: nat, i: nat, j: nat)
    ensures Bit(SetBit(x, i), j) <==> i == j || Bit(x, j)
  {
    if i == 0 {
      assert j > 0 ==> SetBit(x, i) / 2 == x / 2;
    } else if j > 0 {
      SetBitSets(x / 2, i - 1, j - 1);
      assert SetBit(x, i) / 2 == SetBit(x / 2, i - 1);
    }
  }

  lemma PowerUnfolds(n: nat)
    requires n > 0
    ensures Power(n) == 2 * Power(n - 1)
  {
  }

  lemma SetBitUnfolds(x: nat, i: nat)
    ensures SetBit(x, i) == if i == 0 then x - x % 2 + 1 else SetBit(x / 2, i - 1) * 2 + x % 2
  {
  }

  lemma {:induction false} SetBitFits(x: nat, i: nat, n: nat)
    requires i < n && x < Power(n)
    ensures SetBit(x, i) < Power(n)
  {
    hide SetBit, Power;
    PowerUnfolds(n);
    SetBitUnfolds(x, i);
    if i > 0 {
      SetBitFits(x / 2, i - 1, n - 1);
    }
  }

  lemma {:induction false} ByteFits(x: nat, i: nat)
    requires i < 8 && x < 256
    ensures SetBit(x, i) < 256
  {
    assert Power(8) == 256;
    SetBitFits(x, i, 8);
  }

  ghost predicate BitAt(bytes: Bytes, pos: nat)
    requires pos < 8 * |bytes|
  {
    Bit(bytes[pos / 8], pos % 8)
  }

  // ----- Probes

  /** Rotated right by 17 bits. */
  function Delta(h: Word): Word {
    h / 0x2_0000 + h % 0x2_0000 * 0x8000
  }

  /** The hash value of probe `j`: double hashing in 32 bits. */
  function Probe(h: Word, j: nat): Word {
    if j == 0 then h else (Probe(h, j - 1) + Delta(h)) % TWO32
  }

  /** The `j`-th probe is `j` steps of the rotated hash from the hash. */
  lemma {:induction false} ProbeIs(h: Word, j: nat)
    ensures Probe(h, j) == (h + j * Delta(h)) % TWO32
  {
    hide Delta;
    if j > 0 {
      ProbeIs(h, j - 1);
      OneMore(j, Delta(h));
      StepMod(h + (j - 1) * Delta(h), Delta(h));
    }
  }

  lemma OneMore(j: nat, d: nat)
    requires j > 0
    ensures (j - 1) * d + d == j * d
  {
  }

  lemma StepMod(a: nat, d: nat)
    ensures (a % TWO32 + d) % TWO32 == (a + d) % TWO32
  {
  }

  /** The lowest 17 bits of the hash come first, then the other 15. */
  lemma DeltaRotates(h: Word)
    ensures Delta(h) / 0x8000 == h % 0x2_0000 && Delta(h) % 0x8000 == h / 0x2_0000
  {
    var hi, lo := h / 0x2_0000, h % 0x2_0000;
    assert h == hi * 0x2_0000 + lo && hi < 0x8000;
  }

  /** One of the first `k` probes for `h` falls on `pos` in a filter of `m` bits. */
  ghost predicate IsProbe(h: Word, k: nat, m: nat, pos: nat)
    requires m > 0
  {
    exists j :: 0 <= j < k && Probe(h, j) % m == pos
  }

  /** The bits of `b` are those of `a` and the first `k` probes for `h`. */
  ghost predicate Adds(a: Bytes, b: Bytes, h: Word, k: nat)
    requires |a| > 0
  {
    |a| == |b| && forall pos: nat :: pos < 8 * |a| ==> (BitAt(b, pos) <==> BitAt(a, pos) || IsProbe(h, k, 8 * |a|, pos))
  }

  lemma {:induction false} AddsOne(a: Bytes, b: Bytes, c: Bytes, h: Word, k: nat)
    requires |a| > 0 && Adds(a, b, h, k)
    requires |c| == |b|
    requires forall pos: nat :: pos < 8 * |a| ==> (BitAt(c, pos) <==> BitAt(b, pos) || pos == Probe(h, k) % (8 * |a|))
    ensures Adds(a, c, h, k + 1)
  {
    hide BitAt, Probe;
    forall pos: nat | pos < 8 * |a|
      ensures IsProbe(h, k + 1, 8 * |a|, pos) <==> IsProbe(h, k, 8 * |a|, pos) || pos == Probe(h, k) % (8 * |a|)
    {
      if IsProbe(h, k, 8 * |a|, pos) {
        var j :| 0 <= j < k && Probe(h, j) % (8 * |a|) == pos;
        assert j < k + 1;
      }
    }
    hide IsProbe;
  }

  /** A bit is set exactly if it is one of the probes of one of the keys. */
  ghost predicate ExactlyProbes(bits: Bytes, hashes: seq<Word>, k: nat)
    requires |bits| > 0
  {
    forall pos: nat :: pos < 8 * |bits| ==>
      (BitAt(bits, pos) <==> exists i :: 0 <= i < |hashes| && IsProbe(hashes[i], k, 8 * |bits|, pos))
  }

  lemma ExactlyMore(a: Bytes, b: Bytes, hashes: seq<Word>, i: nat, k: nat)
    requires |a| > 0 && i < |hashes| && ExactlyProbes(a, hashes[..i], k) && Adds(a, b, hashes[i], k)
    ensures ExactlyProbes(b, hashes[..i + 1], k)
  {
    hide BitAt, IsProbe;
    var done, more := hashes[..i], hashes[..i + 1];
    assert more[i] == hashes[i] && forall n :: 0 <= n < i ==> more[n] == done[n];
    forall pos: nat | pos < 8 * |b|
      ensures BitAt(b, pos) <==> exists n :: 0 <= n < |more| && IsProbe(more[n], k, 8 * |b|, pos)
    {
      if n :| 0 <= n < i && IsProbe(done[n], k, 8 * |a|, pos) {
        assert IsProbe(more[n], k, 8 * |a|, pos);
      }
    }
  }

  lemma {:induction false} NoBits(bits: Bytes, pos: nat)
    requires pos < 8 * |bits| && bits[pos / 8] == 0
    ensures !BitAt(bits, pos)
  {
    ZeroHasNone(pos % 8);
  }

  lemma {:induction false} ZeroHasNone(i: nat)
    ensures !Bit(0, i)
  {
    if i > 0 {
      ZeroHasNone(i - 1);
    }
  }

  /** The first `k` probes for `h` all hit set bits. */
  ghost predicate AllSet(bytes: Bytes, h: Word, k: nat)
    requires |bytes| > 0
  {
    forall j :: 0 <= j < k ==> ProbeSet(bytes, h, j)
  }

  ghost predicate ProbeSet(bytes: Bytes, h: Word, j: nat)
    requires |bytes| > 0
  {
    BitAt(bytes, Probe(h, j) % (8 * |bytes|))
  }

  /** Bits are only ever set. */
  ghost predicate Grows(a: Bytes, b: Bytes) {
    |a| == |b| && forall pos: nat :: pos < 8 * |a| && BitAt(a, pos) ==> BitAt(b, pos)
  }

  lemma GrowsKeeps(a: Bytes, b: Bytes, h: Word, k: nat)
    requires |a| > 0 && Grows(a, b) && AllSet(a, h, k)
    ensures AllSet(b, h, k)
  {
    forall j | 0 <= j < k
      ensures ProbeSet(b, h, j)
    {
      assert ProbeSet(a, h, j);
    }
  }

  /** One probe's bit set in the array. */
  lemma {:induction false} OneBitSet(a: Bytes, b: Bytes, pos: nat)
    requires pos < 8 * |a| && SetBit(a[pos / 8], pos % 8) < 256 && b == a[pos / 8 := SetBit(a[pos / 8], pos % 8)]
    ensures Grows(a, b) && BitAt(b, pos)
    ensures forall p: nat :: p < 8 * |a| ==> (BitAt(b, p) <==> BitAt(a, p) || p == pos)
  {
    forall p: nat | p < 8 * |a|
      ensures BitAt(b, p) <==> BitAt(a, p) || p == pos
    {
      SetBitSets(a[pos / 8], pos % 8, p % 8);
    }
    SetBitSets(a[pos / 8], pos % 8, pos % 8);
  }

  method AddKey(bits: array<byte>, h0: Word, k: nat)
    requires bits.Length > 0
    modifies bits
    ensures Grows(old(bits[..]), bits[..]) && AllSet(bits[..], h0, k) && Adds(old(bits[..]), bits[..], h0, k)
  {
    hide BitAt, Adds;
    var h := h0;
    SameBits(bits[..]);
    AddsNone(bits[..], h0);
    for j := 0 to k
      invariant h == Probe(h0, j) && Grows(old(bits[..]), bits[..]) && AllSet(bits[..], h0, j)
      invariant Adds(old(bits[..]), bits[..], h0, j)
    {
      ghost var before := bits[..];
      var pos := h % (8 * bits.Length);
      ByteFits(bits[pos / 8], pos % 8);
      bits[pos / 8] := SetBit(bits[pos / 8], pos % 8);
      OneBitSet(before, bits[..], pos);
      GrowsKeeps(before, bits[..], h0, j);
      GrowsMore(old(bits[..]), before, bits[..]);
      AddsOne(old(bits[..]), before, bits[..], h0, j);
      h := (h + Delta(h0)) % TWO32;
    }
  }

  lemma AddsNone(a: Bytes, h: Word)
    requires |a| > 0
    ensures Adds(a, a, h, 0)
  {
  }

  lemma SameBits(a: Bytes)
    ensures Grows(a, a)
  {
  }

  lemma GrowsMore(a: Bytes, b: Bytes, c: Bytes)
    requires Grows(a, b) && Grows(b, c)
    ensures Grows(a, c)
  {
    hide BitAt;
  }

  /** A filter: the bits, then the number of probes. */
  ghost predicate FilterFor(filter: Bytes, hashes: seq<Word>) {
    && |filter| >= 2 && filter[|filter| - 1] <= 30
    && forall i :: 0 <= i < |hashes| ==> AllSet(filter[..|filter| - 1], hashes[i], filter[|filter| - 1])
  }

  /** `k` is the policy's number of probes. A filter has at least 64 bits and otherwise as many as asked for, in
      whole bytes. */
  method CreateFilter(hashes: seq<Word>, bitsPerKey: nat, k: byte) returns (filter: Bytes)
    requires 1 <= k <= 30
    ensures FilterFor(filter, hashes) && filter[|filter| - 1] == k
    ensures var size := |hashes| * bitsPerKey;
            8 * (|filter| - 1) == if size <= 64 then 64 else if size % 8 == 0 then size else size + 8 - size % 8
    ensures ExactlyProbes(filter[..|filter| - 1], hashes, k)
  {
    hide AllSet, Grows, Adds, ExactlyProbes;
    var size := |hashes| * bitsPerKey;
    size := if size < 64 then 64 else size;
    var bytes := (size + 7) / 8;
    var bits := new byte[bytes](_ => 0);
    Untouched(bits[..], hashes, k);
    for i := 0 to |hashes|
      invariant ExactlyProbes(bits[..], hashes[..i], k)
      invariant forall n :: 0 <= n < i ==> AllSet(bits[..], hashes[n], k)
    {
      ghost var before := bits[..];
      AddKey(bits, hashes[i], k);
      ExactlyMore(before, bits[..], hashes, i, k);
      forall n | 0 <= n < i
        ensures AllSet(bits[..], hashes[n], k)
      {
        GrowsKeeps(before, bits[..], hashes[n], k);
      }
    }
    assert hashes[..|hashes|] == hashes;
    filter := bits[..] + [k];
    assert filter[..|filter| - 1] == bits[..];
  }

  lemma Untouched(bits: Bytes, hashes: seq<Word>, k: nat)
    requires |bits| > 0 && forall i :: 0 <= i < |bits| ==> bits[i] == 0
    ensures ExactlyProbes(bits, hashes[..0], k)
  {
    forall pos: nat | pos < 8 * |bits|
      ensures !BitAt(bits, pos)
    {
      NoBits(bits, pos);
    }
  }

  /** Whether a key with hash `h0` may be among the keys of the filter. */
  ghost predicate MayMatch(filter: Bytes, h0: Word) {
    |filter| >= 2 && (filter[|filter| - 1] > 30 || AllSet(filter[..|filter| - 1], h0, filter[|filter| - 1]))
  }

  method KeyMayMatch(h0: Word, filter: Bytes) returns (r: bool)
    ensures r == MayMatch(filter, h0)
  {
    var len := |filter|;
    if len < 2 {
      return false;
    }
    var size := (len - 1) * 8;
    var k := filter[len - 1];
    if k > 30 {
      return true;
    }
    ghost var bytes := filter[..len - 1];
    var h := h0;
    for j := 0 to k as int
      invariant h == Probe(h0, j) && AllSet(bytes, h0, j)
    {
      var pos := h % size;
      assert filter[pos / 8] == bytes[pos / 8];
      if !Bit(filter[pos / 8], pos % 8) {
        assert !ProbeSet(bytes, h0, j);
        return false;
      }
      h := (h + Delta(h0)) % TWO32;
    }
    return true;
  }

  /** No false negatives. */
  lemma NeverRejected(filter: Bytes, hashes: seq<Word>, i: nat)
    requires FilterFor(filter, hashes) && i < |hashes|
    ensures MayMatch(filter, hashes[i])
  {
  }
}
