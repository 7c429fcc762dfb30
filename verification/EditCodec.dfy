/** The byte form of manifest records: tagged fields, written in a fixed order, parsed in a loop. */
module EditCodec {
  import opened Keys
  import opened LogFormat
  import opened Varints
  import opened Blocks
  import Seqs

  const LEVELS: nat := 7

  datatype Meta = Meta(number: nat, size: nat, smallest: Bytes, largest: Bytes)

  datatype VersionEdit = VersionEdit(
    comparator: Option<Bytes>, logNumber: Option<nat>, prevLogNumber: Option<nat>, nextFile: Option<nat>,
        lastSequence: Option<nat>,
    pointers: seq<(nat, Bytes)>, deleted: set<(nat, nat)>, added: seq<(nat, Meta)>)

  /** One tagged field. */
  datatype Tagged =
    | Comparator(name: Bytes) | LogNumber(n: nat) | PrevLogNumber(n: nat) | NextFile(n: nat) | LastSequence(n: nat)
    | Pointer(level: nat, key: Bytes) | Deleted(level: nat, n: nat) | Added(level: nat, meta: Meta)

  // ----- Writing

  function ItemBytes(x: Tagged): Bytes {
    match x
    case Comparator(name) => Varint(1) + Delimited(name)
    case LogNumber(n) => Varint(2) + Varint(n)
    case NextFile(n) => Varint(3) + Varint(n)
    case LastSequence(n) => Varint(4) + Varint(n)
    case Pointer(level, key) => Varint(5) + (Varint(level) + Delimited(key))
    case Deleted(level, n) => Varint(6) + (Varint(level) + Varint(n))
    case Added(level, m) =>
        Varint(7) + (Varint(level) +
            (Varint(m.number) + (Varint(m.size) + (Delimited(m.smallest) + Delimited(m.largest)))))
    case PrevLogNumber(n) => Varint(9) + Varint(n)
  }

  function ItemsBytes(xs: seq<Tagged>): Bytes {
    if xs == [] then [] else ItemBytes(xs[0]) + ItemsBytes(xs[1..])
  }

  /** A number that is set, under its tag. */
  function Scalar(n: Option<nat>, tag: nat): (r: seq<Tagged>)
    ensures |r| <= 1
  {
    if n.None? then []
    else if tag == 2 then [LogNumber(n.value)]
    else if tag == 3 then [NextFile(n.value)]
    else if tag == 4 then [LastSequence(n.value)]
    else [PrevLogNumber(n.value)]
  }

  function NameItem(e: VersionEdit): seq<Tagged> {
    if e.comparator.Some? then [Comparator(e.comparator.value)] else []
  }

  function PointerItems(e: VersionEdit): seq<Tagged> {
    seq(|e.pointers|, i requires 0 <= i < |e.pointers| => Pointer(e.pointers[i].0, e.pointers[i].1))
  }

  function DeletedItems(dead: seq<(nat, nat)>): seq<Tagged> {
    seq(|dead|, i requires 0 <= i < |dead| => Deleted(dead[i].0, dead[i].1))
  }

  function AddedItems(e: VersionEdit): seq<Tagged> {
    seq(|e.added|, i requires 0 <= i < |e.added| => Added(e.added[i].0, e.added[i].1))
  }

  /** The fields of an edit in the order they are written; `dead` lists its deleted files in set order. */
  function Items(e: VersionEdit, dead: seq<(nat, nat)>): seq<Tagged> {
    ScalarItems(e) + (PointerItems(e) + (DeletedItems(dead) + AddedItems(e)))
  }

  function ScalarItems(e: VersionEdit): seq<Tagged> {
    NameItem(e) + (Scalar(e.logNumber, 2) +
        (Scalar(e.prevLogNumber, 9) + (Scalar(e.nextFile, 3) + Scalar(e.lastSequence, 4))))
  }

  /** Fields are appended one after the other. */
  method EncodeTo(e: VersionEdit, dead: seq<(nat, nat)>) returns (dst: Bytes)
    ensures dst == ItemsBytes(Items(e, dead))
  {
    hide ItemBytes;
    var xs := Items(e, dead);
    dst := [];
    Seqs.WholeSlice(xs);
    for i := 0 to |xs|
      invariant dst + ItemsBytes(xs[i..]) == ItemsBytes(xs)
    {
      Seqs.Advance(xs, i);
      Seqs.Assoc(dst, ItemBytes(xs[i]), ItemsBytes(xs[i + 1..]));
      dst := dst + ItemBytes(xs[i]);
    }
    assert ItemsBytes(xs[|xs|..]) == [];
  }

  // ----- Reading

  function GetDelimited(b: Bytes): (r: Option<Got<Bytes>>)
    ensures r.Some? ==> |r.value.rest| < |b|
  {
    var r := GetVarint32(b);
    if r.None? || |r.value.rest| < r.value.value then None
    else Some(Got(r.value.rest[..r.value.value], r.value.rest[r.value.value..]))
  }

  function GetLevel(b: Bytes): (r: Option<Read>)
    ensures r.Some? ==> |r.value.rest| < |b|
  {
    var r := GetVarint32(b);
    if r.Some? && r.value.value < LEVELS then r else None
  }

  function Number(b: Bytes, f: nat -> Tagged): (r: Option<Got<Tagged>>)
    ensures r.Some? ==> |r.value.rest| < |b|
  {
    var r := Decode64(b);
    if r.None? then None else Some(Got(f(r.value.value), r.value.rest))
  }

  function GetMeta(b: Bytes): (r: Option<Got<Meta>>)
    ensures r.Some? ==> |r.value.rest| < |b|
  {
    var n := Decode64(b);
    if n.None? then None
    else
      var z := Decode64(n.value.rest);
      if z.None? then None
      else
        var s := GetDelimited(z.value.rest);
        if s.None? then None
        else
          var l := GetDelimited(s.value.rest);
          if l.None? then None
              else Some(Got(Meta(n.value.value, z.value.value, s.value.value, l.value.value), l.value.rest))
  }

  /** The field after its tag. */
  function GetField(tag: nat, b: Bytes): (r: Option<Got<Tagged>>)
    ensures r.Some? ==> |r.value.rest| < |b|
  {
    if tag == 1 then
      var r := GetDelimited(b);
      if r.None? then None else Some(Got(Comparator(r.value.value), r.value.rest))
    else if tag == 2 then Number(b, (n: nat) => LogNumber(n))
    else if tag == 3 then Number(b, (n: nat) => NextFile(n))
    else if tag == 4 then Number(b, (n: nat) => LastSequence(n))
    else if tag == 9 then Number(b, (n: nat) => PrevLogNumber(n))
    else if tag == 5 || tag == 6 || tag == 7 then
      var l := GetLevel(b);
      if l.None? then None
      else if tag == 5 then
        var k := GetDelimited(l.value.rest);
        if k.None? then None else Some(Got(Pointer(l.value.value, k.value.value), k.value.rest))
      else if tag == 6 then Number(l.value.rest, (n: nat) => Deleted(l.value.value, n))
      else
        var m := GetMeta(l.value.rest);
        if m.None? then None else Some(Got(Added(l.value.value, m.value.value), m.value.rest))
    else None
  }

  /** What a parsed field does to the edit. */
  function Absorb(e: VersionEdit, x: Tagged): VersionEdit {
    match x
    case Comparator(name) => e.(comparator := Some(name))
    case LogNumber(n) => e.(logNumber := Some(n))
    case PrevLogNumber(n) => e.(prevLogNumber := Some(n))
    case NextFile(n) => e.(nextFile := Some(n))
    case LastSequence(n) => e.(lastSequence := Some(n))
    case Pointer(level, key) => e.(pointers := e.pointers + [(level, key)])
    case Deleted(level, n) => e.(deleted := e.deleted + {(level, n)})
    case Added(level, m) => e.(added := e.added + [(level, m)])
  }

  function AbsorbAll(e: VersionEdit, xs: seq<Tagged>): VersionEdit
    decreases |xs|
  {
    if xs == [] then e else AbsorbAll(Absorb(e, xs[0]), xs[1..])
  }

  /** Resets an edit, all but its compaction pointers. */
  function Clear(e: VersionEdit): VersionEdit {
    VersionEdit(None, None, None, None, None, e.pointers, {}, [])
  }

  /** The parse loop; absent on corruption. A tag that cannot be read ends it, and is an error unless the
      input is used up. */
  function Parse(e: VersionEdit, b: Bytes): Option<VersionEdit>
    decreases |b|
  {
    var t := GetVarint32(b);
    if t.None? then (if b == [] then Some(e) else None)
    else
      var x := GetField(t.value.value, t.value.rest);
      if x.None? then None else Parse(Absorb(e, x.value.value), x.value.rest)
  }

  method DecodeFrom(dest: VersionEdit, src: Bytes) returns (r: Option<VersionEdit>)
    ensures r == Parse(Clear(dest), src)
  {
    hide GetField, GetVarint32;
    var e, input, failed := Clear(dest), src, false;
    var t := GetVarint32(input);
    while !failed && t.Some?
      invariant !failed ==> t == GetVarint32(input) && Parse(e, input) == Parse(Clear(dest), src)
      invariant failed ==> Parse(Clear(dest), src) == None
      decreases !failed, |input|
    {
      var x := GetField(t.value.value, t.value.rest);
      if x.None? {
        failed := true;
      } else {
        e, input := Absorb(e, x.value.value), x.value.rest;
        t := GetVarint32(input);
      }
    }
    if !failed && input != [] {
      failed := true;
    }
    r := if failed then None else Some(e);
  }

  // ----- Round trip

  ghost predicate Small(b: Bytes) {
    |b| < TWO32
  }

  ghost predicate ValidItem(x: Tagged) {
    match x
    case Comparator(name) => Small(name)
    case Pointer(level, key) => level < LEVELS && Small(key)
    case Deleted(level, n) => level < LEVELS && n < TWO64
    case Added(level, m) => level < LEVELS && m.number < TWO64 && m.size < TWO64 && Small(m.smallest)
        && Small(m.largest)
    case _ => x.n < TWO64
  }

  lemma DelimitedReads(b: Bytes, rest: Bytes)
    requires Small(b)
    ensures GetDelimited(Delimited(b) + rest) == Some(Got(b, rest))
  {
    hide GetVarint32, Varint;
    Seqs.Assoc(Varint(|b|), b, rest);
    GetVarint32Reads(|b|, b + rest);
  }

  lemma MetaReads(m: Meta, rest: Bytes)
    requires m.number < TWO64 && m.size < TWO64 && Small(m.smallest) && Small(m.largest)
    ensures GetMeta((Varint(m.number) + (Varint(m.size) + (Delimited(m.smallest) + Delimited(m.largest)))) + rest) ==
              Some(Got(m, rest))
  {
    hide Decode64, Varint, GetDelimited, Delimited;
    var keys := Delimited(m.smallest) + Delimited(m.largest);
    Seqs.Assoc(Varint(m.number), Varint(m.size) + keys, rest);
    Seqs.Assoc(Varint(m.size), keys, rest);
    Seqs.Assoc(Delimited(m.smallest), Delimited(m.largest), rest);
    Decode64Reads(m.number, Varint(m.size) + (keys + rest));
    Decode64Reads(m.size, keys + rest);
    DelimitedReads(m.smallest, Delimited(m.largest) + rest);
    DelimitedReads(m.largest, rest);
  }

  function TagOf(x: Tagged): nat {
    match x
    case Comparator(_) => 1 case LogNumber(_) => 2 case NextFile(_) => 3 case LastSequence(_) => 4
    case Pointer(_, _) => 5 case Deleted(_, _) => 6 case Added(_, _) => 7 case PrevLogNumber(_) => 9
  }

  /** The bytes of a field after its tag. */
  function BodyOf(x: Tagged): Bytes {
    match x
    case Comparator(name) => Delimited(name)
    case Pointer(level, key) => Varint(level) + Delimited(key)
    case Deleted(level, n) => Varint(level) + Varint(n)
    case Added(level, m) =>
        Varint(level) + (Varint(m.number) + (Varint(m.size) + (Delimited(m.smallest) + Delimited(m.largest))))
    case _ => Varint(x.n)
  }

  lemma BodyReads(x: Tagged, rest: Bytes)
    requires ValidItem(x)
    ensures GetField(TagOf(x), BodyOf(x) + rest) == Some(Got(x, rest))
  {
    hide Decode64, Varint, GetDelimited, Delimited, GetVarint32, GetMeta;
    match x
    case Comparator(name) => DelimitedReads(name, rest);
    case LogNumber(n) => Decode64Reads(n, rest);
    case PrevLogNumber(n) => Decode64Reads(n, rest);
    case NextFile(n) => Decode64Reads(n, rest);
    case LastSequence(n) => Decode64Reads(n, rest);
    case Pointer(level, key) =>
      Seqs.Assoc(Varint(level), Delimited(key), rest);
      GetVarint32Reads(level, Delimited(key) + rest);
      DelimitedReads(key, rest);
    case Deleted(level, n) =>
      Seqs.Assoc(Varint(level), Varint(n), rest);
      GetVarint32Reads(level, Varint(n) + rest);
      Decode64Reads(n, rest);
    case Added(level, m) =>
      var body := Varint(m.number) + (Varint(m.size) + (Delimited(m.smallest) + Delimited(m.largest)));
      Seqs.Assoc(Varint(level), body, rest);
      GetVarint32Reads(level, body + rest);
      MetaReads(m, rest);
  }

  lemma {:induction false} ItemsRead(e: VersionEdit, xs: seq<Tagged>)
    requires forall i :: 0 <= i < |xs| ==> ValidItem(xs[i])
    ensures Parse(e, ItemsBytes(xs)) == Some(AbsorbAll(e, xs))
    decreases |xs|
  {
    if xs != [] {
      var x, rest := xs[0], ItemsBytes(xs[1..]);
      ItemsRead(Absorb(e, x), xs[1..]);
      assert ItemBytes(x) == Varint(TagOf(x)) + BodyOf(x);
      hide GetField, GetVarint32, Varint, ItemBytes, BodyOf, Absorb;
      Seqs.Assoc(Varint(TagOf(x)), BodyOf(x), rest);
      GetVarint32Reads(TagOf(x), BodyOf(x) + rest);
      BodyReads(x, rest);
    }
  }

  ghost predicate ValidEdit(e: VersionEdit, dead: seq<(nat, nat)>) {
    && (forall p :: p in dead <==> p in e.deleted)
    && forall x :: x in Items(e, dead) ==> ValidItem(x)
  }

  lemma {:induction false} AbsorbConcat(e: VersionEdit, a: seq<Tagged>, b: seq<Tagged>)
    ensures AbsorbAll(e, a + b) == AbsorbAll(AbsorbAll(e, a), b)
    decreases |a|
  {
    if a == [] {
      assert a + b == b;
    } else {
      assert (a + b)[1..] == a[1..] + b;
      AbsorbConcat(Absorb(e, a[0]), a[1..], b);
    }
  }

  lemma {:induction false} AbsorbPointers(e: VersionEdit, ps: seq<(nat, Bytes)>, xs: seq<Tagged>)
    requires |xs| == |ps| && forall i :: 0 <= i < |ps| ==> xs[i] == Pointer(ps[i].0, ps[i].1)
    ensures AbsorbAll(e, xs) == e.(pointers := e.pointers + ps)
    decreases |ps|
  {
    if ps == [] {
      assert e.pointers + ps == e.pointers;
    } else {
      AbsorbPointers(Absorb(e, xs[0]), ps[1..], xs[1..]);
      assert (e.pointers + [ps[0]]) + ps[1..] == e.pointers + ps;
    }
  }

  lemma {:induction false} AbsorbDeleted(e: VersionEdit, ps: seq<(nat, nat)>, xs: seq<Tagged>)
    requires |xs| == |ps| && forall i :: 0 <= i < |ps| ==> xs[i] == Deleted(ps[i].0, ps[i].1)
    ensures AbsorbAll(e, xs) == e.(deleted := e.deleted + (set p | p in ps))
    decreases |ps|
  {
    if ps == [] {
      assert e.deleted + (set p | p in ps) == e.deleted;
    } else {
      AbsorbDeleted(Absorb(e, xs[0]), ps[1..], xs[1..]);
      assert ps == [ps[0]] + ps[1..];
      assert e.deleted + {ps[0]} + (set p | p in ps[1..]) == e.deleted + (set p | p in ps);
    }
  }

  lemma {:induction false} AbsorbAdded(e: VersionEdit, ps: seq<(nat, Meta)>, xs: seq<Tagged>)
    requires |xs| == |ps| && forall i :: 0 <= i < |ps| ==> xs[i] == Added(ps[i].0, ps[i].1)
    ensures AbsorbAll(e, xs) == e.(added := e.added + ps)
    decreases |ps|
  {
    if ps == [] {
      assert e.added + ps == e.added;
    } else {
      AbsorbAdded(Absorb(e, xs[0]), ps[1..], xs[1..]);
      assert (e.added + [ps[0]]) + ps[1..] == e.added + ps;
    }
  }

  lemma {:induction false} AbsorbOne(e: VersionEdit, x: Tagged)
    ensures AbsorbAll(e, [x]) == Absorb(e, x)
  {
    assert [x][1..] == [];
  }

  lemma {:induction false} ScalarsRebuild(e0: VersionEdit, e: VersionEdit)
    requires e0.comparator.None? && e0.logNumber.None? && e0.prevLogNumber.None? && e0.nextFile.None?
    requires e0.lastSequence.None?
    ensures AbsorbAll(e0, ScalarItems(e)) == VersionEdit(e.comparator, e.logNumber, e.prevLogNumber, e.nextFile,
              e.lastSequence, e0.pointers, e0.deleted, e0.added)
  {
    hide AbsorbAll, Scalar, NameItem;
    var e1 := e0.(comparator := e.comparator);
    var e2 := e1.(logNumber := e.logNumber);
    var e3 := e2.(prevLogNumber := e.prevLogNumber);
    var e4 := e3.(nextFile := e.nextFile);
    AbsorbConcat(e0, NameItem(e), Scalar(e.logNumber, 2) +
        (Scalar(e.prevLogNumber, 9) + (Scalar(e.nextFile, 3) + Scalar(e.lastSequence, 4))));
    NameAbsorbed(e0, e);
    AbsorbConcat(e1, Scalar(e.logNumber, 2), Scalar(e.prevLogNumber, 9) +
        (Scalar(e.nextFile, 3) + Scalar(e.lastSequence, 4)));
    ScalarAbsorbed(e1, e.logNumber, 2);
    AbsorbConcat(e2, Scalar(e.prevLogNumber, 9), Scalar(e.nextFile, 3) + Scalar(e.lastSequence, 4));
    ScalarAbsorbed(e2, e.prevLogNumber, 9);
    AbsorbConcat(e3, Scalar(e.nextFile, 3), Scalar(e.lastSequence, 4));
    ScalarAbsorbed(e3, e.nextFile, 3);
    ScalarAbsorbed(e4, e.lastSequence, 4);
  }

  lemma {:induction false} NameAbsorbed(e0: VersionEdit, e: VersionEdit)
    requires e0.comparator.None?
    ensures AbsorbAll(e0, NameItem(e)) == e0.(comparator := e.comparator)
  {
    if e.comparator.Some? {
      AbsorbOne(e0, Comparator(e.comparator.value));
    }
  }

  lemma {:induction false} ScalarAbsorbed(e0: VersionEdit, n: Option<nat>, tag: nat)
    ensures tag == 2 && e0.logNumber.None? ==> AbsorbAll(e0, Scalar(n, tag)) == e0.(logNumber := n)
    ensures tag == 9 && e0.prevLogNumber.None? ==> AbsorbAll(e0, Scalar(n, tag)) == e0.(prevLogNumber := n)
    ensures tag == 3 && e0.nextFile.None? ==> AbsorbAll(e0, Scalar(n, tag)) == e0.(nextFile := n)
    ensures tag == 4 && e0.lastSequence.None? ==> AbsorbAll(e0, Scalar(n, tag)) == e0.(lastSequence := n)
  {
    if n.Some? {
      AbsorbOne(e0, Scalar(n, tag)[0]);
      assert Scalar(n, tag) == [Scalar(n, tag)[0]];
    }
  }

  /** Absorbing all fields of an edit into a cleared one gives the edit, after whatever compaction
      pointers were already there. */
  lemma ItemsRebuild(dest: VersionEdit, e: VersionEdit, dead: seq<(nat, nat)>)
    requires forall p :: p in dead <==> p in e.deleted
    ensures AbsorbAll(Clear(dest), Items(e, dead)) == e.(pointers := dest.pointers + e.pointers)
  {
    hide AbsorbAll, ScalarItems;
    var ps, ds, xs := PointerItems(e), DeletedItems(dead), AddedItems(e);
    var e0 := Clear(dest);
    AbsorbConcat(e0, ScalarItems(e), ps + (ds + xs));
    ScalarsRebuild(e0, e);
    var e1 := e.(pointers := dest.pointers, deleted := {}, added := []);
    AbsorbConcat(e1, ps, ds + xs);
    AbsorbPointers(e1, e.pointers, ps);
    var e2 := e1.(pointers := dest.pointers + e.pointers);
    AbsorbConcat(e2, ds, xs);
    AbsorbDeleted(e2, dead, ds);
    assert {} + (set p | p in dead) == e.deleted;
    AbsorbAdded(e2.(deleted := e.deleted), e.added, xs);
    assert [] + e.added == e.added;
  }

  /** Decoding an encoded edit gives the edit back, except that compaction pointers left over in the
      destination stay in front of the decoded ones. */
  lemma EditRoundTrip(dest: VersionEdit, e: VersionEdit, dead: seq<(nat, nat)>)
    requires ValidEdit(e, dead)
    ensures Parse(Clear(dest), ItemsBytes(Items(e, dead))) == Some(e.(pointers := dest.pointers + e.pointers))
    ensures Parse(Clear(dest), ItemsBytes(Items(e, dead))) == Some(e) <==> dest.pointers == []
  {
    hide Parse, ItemsBytes, Items, AbsorbAll;
    var xs := Items(e, dead);
    forall i | 0 <= i < |xs|
      ensures ValidItem(xs[i])
    {
      assert xs[i] in xs;
    }
    ItemsRead(Clear(dest), xs);
    ItemsRebuild(dest, e, dead);
    if dest.pointers == [] {
      assert dest.pointers + e.pointers == e.pointers;
    } else {
      assert |dest.pointers + e.pointers| > |e.pointers|;
    }
  }
}
