/** Manifest records that are not whole: a tag nobody writes, a level that does not exist, a field that is cut
    short. Each is reported as corruption, wherever it comes. */
module EditErrors {
  import opened Keys
  import opened LogFormat
  import opened Varints
  import opened VarintAny
  import opened Blocks
  import opened EditCodec
  import Seqs

  /** Whole fields in front of anything are absorbed first. */
  lemma {:induction false} PrefixParsed(e: VersionEdit, xs: seq<Tagged>, rest: Bytes)
    requires forall i :: 0 <= i < |xs| ==> ValidItem(xs[i])
    ensures Parse(e, ItemsBytes(xs) + rest) == Parse(AbsorbAll(e, xs), rest)
    decreases |xs|
  {
    if xs == [] {
      Seqs.NothingBefore(rest);
    } else {
      var x, more := xs[0], ItemsBytes(xs[1..]);
      PrefixParsed(EditCodec.Absorb(e, x), xs[1..], rest);
      assert ItemBytes(x) == Varint(TagOf(x)) + BodyOf(x);
      hide GetField, GetVarint32, Varint, ItemBytes, BodyOf, EditCodec.Absorb;
      Seqs.Assoc(Varint(TagOf(x)) + BodyOf(x), more, rest);
      Seqs.Assoc(Varint(TagOf(x)), BodyOf(x), more + rest);
      GetVarint32Reads(TagOf(x), BodyOf(x) + (more + rest));
      BodyReads(x, more + rest);
    }
  }

  predicate KnownTag(tag: nat) {
    tag == 1 || tag == 2 || tag == 3 || tag == 4 || tag == 5 || tag == 6 || tag == 7 || tag == 9
  }

  /** Behind any whole fields, a tag that no field has is corruption. */
  lemma {:induction false} UnknownTagFails(e: VersionEdit, xs: seq<Tagged>, tag: nat, rest: Bytes)
    requires (forall i :: 0 <= i < |xs| ==> ValidItem(xs[i])) && tag < TWO32 && !KnownTag(tag)
    ensures Parse(e, ItemsBytes(xs) + (Varint(tag) + rest)) == None
  {
    hide ItemsBytes, Varint, GetVarint32;
    PrefixParsed(e, xs, Varint(tag) + rest);
    GetVarint32Reads(tag, rest);
  }

  /** A level beyond the last is corruption. */
  lemma {:induction false} NoSuchLevelFails(e: VersionEdit, xs: seq<Tagged>, tag: nat, level: nat, rest: Bytes)
    requires (forall i :: 0 <= i < |xs| ==> ValidItem(xs[i])) && 5 <= tag <= 7 && LEVELS <= level < TWO32
    ensures Parse(e, ItemsBytes(xs) + (Varint(tag) + (Varint(level) + rest))) == None
  {
    hide ItemsBytes, Varint, GetVarint32;
    PrefixParsed(e, xs, Varint(tag) + (Varint(level) + rest));
    GetVarint32Reads(tag, Varint(level) + rest);
    GetVarint32Reads(level, rest);
  }

  // ----- Fields cut short

  /** Every byte of a varint but the last has its top bit set. */
  lemma {:induction false} CutVarint(n: nat, m: nat)
    requires m < |Varint(n)|
    ensures NeverEnds(Varint(n)[..m])
  {
    if n >= 128 && m > 0 {
      CutVarint(n / 128, m - 1);
      assert Varint(n)[..m] == [Varint(n)[0]] + Varint(n / 128)[..m - 1];
    }
  }

  lemma {:induction false} CutNumber(n: nat, m: nat)
    requires m < |Varint(n)|
    ensures Decode64(Varint(n)[..m]) == None && GetVarint32(Varint(n)[..m]) == None
  {
    CutVarint(n, m);
    Decode64Any(Varint(n)[..m]);
    GetVarint32Any(Varint(n)[..m]);
  }

  lemma {:induction false} CutDelimited(b: Bytes, m: nat)
    requires |b| < TWO32 && m < |Delimited(b)|
    ensures GetDelimited(Delimited(b)[..m]) == None
  {
    hide Varint, GetVarint32;
    var n := |Varint(|b|)|;
    if m < n {
      assert Delimited(b)[..m] == Varint(|b|)[..m];
      CutNumber(|b|, m);
    } else {
      assert Delimited(b)[..m] == Varint(|b|) + b[..m - n];
      GetVarint32Reads(|b|, b[..m - n]);
    }
  }

  /** Cutting a concatenation cuts one of its parts. */
  lemma CutParts(a: Bytes, b: Bytes, m: nat)
    requires m <= |a + b|
    ensures m < |a| ==> (a + b)[..m] == a[..m]
    ensures m >= |a| ==> (a + b)[..m] == a + b[..m - |a|]
  {
  }

  lemma {:induction false} CutMeta(x: Meta, m: nat)
    requires x.number < TWO64 && x.size < TWO64 && Small(x.smallest) && Small(x.largest)
    requires m < |Varint(x.number) + (Varint(x.size) + (Delimited(x.smallest) + Delimited(x.largest)))|
    ensures GetMeta((Varint(x.number) + (Varint(x.size) + (Delimited(x.smallest) + Delimited(x.largest))))[..m]) == None
  {
    hide Varint, Delimited, Decode64, GetDelimited;
    var n, z, s, l := Varint(x.number), Varint(x.size), Delimited(x.smallest), Delimited(x.largest);
    CutParts(n, z + (s + l), m);
    if m < |n| {
      CutNumber(x.number, m);
    } else {
      var m1 := m - |n|;
      CutParts(z, s + l, m1);
      Decode64Reads(x.number, (z + (s + l))[..m1]);
      if m1 < |z| {
        CutNumber(x.size, m1);
      } else {
        CutKeys(x, m1 - |z|);
      }
    }
  }

  lemma {:induction false} CutKeys(x: Meta, m: nat)
    requires x.number < TWO64 && x.size < TWO64 && Small(x.smallest) && Small(x.largest)
    requires m < |Delimited(x.smallest) + Delimited(x.largest)|
    ensures GetMeta(Varint(x.number) + (Varint(x.size) + (Delimited(x.smallest) + Delimited(x.largest))[..m])) == None
  {
    hide Varint, Delimited, Decode64, GetDelimited;
    var s, l := Delimited(x.smallest), Delimited(x.largest);
    var keys := (s + l)[..m];
    Decode64Reads(x.number, Varint(x.size) + keys);
    Decode64Reads(x.size, keys);
    CutParts(s, l, m);
    if m < |s| {
      CutDelimited(x.smallest, m);
    } else {
      DelimitedReads(x.smallest, l[..m - |s|]);
      CutDelimited(x.largest, m - |s|);
    }
  }

  lemma {:induction false} CutBody(x: Tagged, m: nat)
    requires ValidItem(x) && m < |BodyOf(x)|
    ensures GetField(TagOf(x), BodyOf(x)[..m]) == None
  {
    hide Varint, Delimited, Decode64, GetVarint32, GetDelimited, GetMeta;
    match x
    case Comparator(name) => CutDelimited(name, m);
    case LogNumber(n) => CutNumber(n, m);
    case PrevLogNumber(n) => CutNumber(n, m);
    case NextFile(n) => CutNumber(n, m);
    case LastSequence(n) => CutNumber(n, m);
    case Pointer(level, key) => CutBehindLevel(x, level, Delimited(key), m);
    case Deleted(level, n) => CutBehindLevel(x, level, Varint(n), m);
    case Added(level, meta) =>
      CutBehindLevel(x, level,
                     Varint(meta.number) + (Varint(meta.size) + (Delimited(meta.smallest) + Delimited(meta.largest))),
                         m);
  }

  lemma {:induction false} CutBehindLevel(x: Tagged, level: nat, body: Bytes, m: nat)
    requires ValidItem(x) && (x.Pointer? || x.Deleted? || x.Added?) && level == x.level
    requires BodyOf(x) == Varint(level) + body && m < |BodyOf(x)|
    requires x.Pointer? ==> body == Delimited(x.key)
    requires x.Deleted? ==> body == Varint(x.n)
    requires x.Added? ==> body == Varint(x.meta.number) +
                          (Varint(x.meta.size) + (Delimited(x.meta.smallest) + Delimited(x.meta.largest)))
    ensures GetField(TagOf(x), BodyOf(x)[..m]) == None
  {
    hide Varint, Delimited, Decode64, GetVarint32, GetDelimited, GetMeta;
    var l := Varint(level);
    CutParts(l, body, m);
    if m < |l| {
      CutNumber(level, m);
    } else {
      var m1 := m - |l|;
      GetVarint32Reads(level, body[..m1]);
      if x.Pointer? {
        CutDelimited(x.key, m1);
      } else if x.Deleted? {
        CutNumber(x.n, m1);
      } else {
        CutMeta(x.meta, m1);
      }
    }
  }

  /** A record that ends in the middle of a field is corruption; one that ends behind a field is not. */
  lemma {:induction false} CutFieldFails(e: VersionEdit, xs: seq<Tagged>, x: Tagged, m: nat)
    requires (forall i :: 0 <= i < |xs| ==> ValidItem(xs[i])) && ValidItem(x) && 0 < m < |ItemBytes(x)|
    ensures Parse(e, ItemsBytes(xs) + ItemBytes(x)[..m]) == None
  {
    hide Varint, GetVarint32, GetField, ItemsBytes;
    assert ItemBytes(x) == Varint(TagOf(x)) + BodyOf(x);
    hide ItemBytes, BodyOf;
    PrefixParsed(e, xs, ItemBytes(x)[..m]);
    OneByte(TagOf(x));
    CutParts(Varint(TagOf(x)), BodyOf(x), m);
    GetVarint32Reads(TagOf(x), BodyOf(x)[..m - 1]);
    CutBody(x, m - 1);
  }

  lemma {:induction false} OneByte(n: nat)
    requires n < 128
    ensures Varint(n) == [n]
  {
  }
}
