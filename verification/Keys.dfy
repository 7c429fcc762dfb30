/** Internal keys, entries and the two reference semantics of the store.

    A user key is an `int`: the model uses nothing of a key but its place in the
    comparator's order, and a run touches finitely many keys, so its keys can be
    numbered in that order. */
module Keys {

  datatype Option<+T> = None | Some(value: T)

  /** Sequence numbers leave the low eight bits of a 64-bit tag for the value type. */
  const MAX_SEQUENCE: nat := 0xFF_FFFF_FFFF_FFFF

  datatype ValueType = Deletion | Value

  datatype InternalKey = InternalKey(user: int, sn: nat, kind: ValueType)

  datatype Entry = Entry(key: InternalKey, value: string)

  /** The packed tag: sequence number shifted over the value type. */
  function Tag(k: InternalKey): nat {
    k.sn * 256 + (if k.kind.Value? then 1 else 0)
  }

  /** Increasing user key, then decreasing tag. */
  predicate Less(a: InternalKey, b: InternalKey) {
    a.user < b.user || (a.user == b.user && Tag(a) > Tag(b))
  }

  /** Where a search for `k` at snapshot `s` starts. */
  function LookupKey(k: int, s: nat): InternalKey {
    InternalKey(k, s, Value)
  }

  predicate Sorted(es: seq<Entry>) {
    forall i, j :: 0 <= i < j < |es| ==> Less(es[i].key, es[j].key)
  }

  /** `e` is an entry for `k` that a reader at snapshot `s` may see. */
  predicate Visible(e: Entry, k: int, s: nat) {
    e.key.user == k && e.key.sn <= s
  }

  /** The packed-tag order makes the lookup key a cut: exactly the entries for smaller keys,
      and for `k` itself exactly the invisible ones, lie before it. */
  lemma LookupKeyCuts(e: Entry, k: int, s: nat)
    ensures Less(e.key, LookupKey(k, s)) <==> e.key.user < k || (e.key.user == k && !Visible(e, k, s))
  {
  }

  // ----- Reference semantics 1: the newest visible entry of a set of entries

  ghost predicate IsNewest(es: set<Entry>, k: int, s: nat, e: Entry) {
    && e in es
    && Visible(e, k, s)
    && forall x :: x in es && Visible(x, k, s) ==> x.key.sn <= e.key.sn
  }

  ghost predicate NoneVisible(es: set<Entry>, k: int, s: nat) {
    forall x :: x in es ==> !Visible(x, k, s)
  }

  /** No two entries of one user key carry the same sequence number. */
  ghost predicate Unique(es: set<Entry>) {
    forall x, y :: x in es && y in es && x.key.user == y.key.user && x.key.sn == y.key.sn ==> x == y
  }

  function ResultOf(e: Entry): Option<string> {
    if e.key.kind.Value? then Some(e.value) else None
  }

  /** What a read of `k` at snapshot `s` must return from a store holding `es`. */
  ghost function Lookup(es: set<Entry>, k: int, s: nat): Option<string> {
    if exists e :: IsNewest(es, k, s, e) then
      var e :| IsNewest(es, k, s, e);
      ResultOf(e)
    else
      None
  }

  lemma LookupFound(es: set<Entry>, k: int, s: nat, e: Entry)
    requires Unique(es) && IsNewest(es, k, s, e)
    ensures Lookup(es, k, s) == ResultOf(e)
  {
    forall x | IsNewest(es, k, s, x)
      ensures x == e
    {
      assert x in es && Visible(x, k, s);
    }
  }

  lemma LookupMissing(es: set<Entry>, k: int, s: nat)
    requires NoneVisible(es, k, s)
    ensures Lookup(es, k, s) == None
  {
  }

  lemma NewestExists(es: set<Entry>, k: int, s: nat) returns (e: Entry)
    requires !NoneVisible(es, k, s)
    ensures IsNewest(es, k, s, e)
    decreases es
  {
    e :| e in es && Visible(e, k, s);
    if !NoneVisible(es - {e}, k, s) {
      var r := NewestExists(es - {e}, k, s);
      e := if r.key.sn > e.key.sn then r else e;
    }
  }

  /** Two sets answer alike when they hold the same visible entries of `k`. */
  lemma LookupSameVisible(a: set<Entry>, b: set<Entry>, k: int, s: nat, t: nat)
    requires Unique(a) && Unique(b)
    requires forall e :: (e in a && Visible(e, k, s)) <==> (e in b && Visible(e, k, t))
    ensures Lookup(a, k, s) == Lookup(b, k, t)
  {
    if NoneVisible(a, k, s) {
      LookupMissing(a, k, s);
      LookupMissing(b, k, t);
    } else {
      var e := NewestExists(a, k, s);
      LookupFound(a, k, s, e);
      assert IsNewest(b, k, t, e);
      LookupFound(b, k, t, e);
    }
  }

  // ----- Reference semantics 2: a plain map after the first n operations

  datatype Op = Put(key: int, value: string) | Delete(key: int)

  function Apply(m: map<int, string>, op: Op): map<int, string> {
    match op
    case Put(k, v) => m[k := v]
    case Delete(k) => m - {k}
  }

  /** The plain map after the first `n` operations of `hist`. */
  function AsOf(hist: seq<Op>, n: nat): map<int, string>
    requires n <= |hist|
  {
    if n == 0 then map[] else Apply(AsOf(hist, n - 1), hist[n - 1])
  }

  function Get(m: map<int, string>, k: int): Option<string> {
    if k in m then Some(m[k]) else None
  }

  /** The entry that operation `i` of the history writes; it gets sequence number `i + 1`. */
  function EntryOf(hist: seq<Op>, i: nat): Entry
    requires i < |hist|
  {
    match hist[i]
    case Put(k, v) => Entry(InternalKey(k, i + 1, Value), v)
    case Delete(k) => Entry(InternalKey(k, i + 1, Deletion), "")
  }

  /** The entries of operations `from` to `to`, in order. */
  function Range(hist: seq<Op>, from: nat, to: nat): (r: seq<Entry>)
    requires from <= to <= |hist|
    ensures |r| == to - from
    ensures forall i :: 0 <= i < |r| ==> r[i] == EntryOf(hist, from + i)
  {
    seq(to - from, i requires 0 <= i < to - from => EntryOf(hist, from + i))
  }

  /** Every entry of `es` was written by the operation its sequence number names. */
  ghost predicate FromHistory(es: set<Entry>, hist: seq<Op>) {
    forall e :: e in es ==> 0 < e.key.sn <= |hist| && e == EntryOf(hist, e.key.sn - 1)
  }

  /** `es` answers every read at a snapshot in `floor..top` as the plain map would. */
  ghost predicate Agrees(es: set<Entry>, hist: seq<Op>, floor: nat, top: nat)
    requires top <= |hist|
  {
    forall k, s :: floor <= s <= top ==> Lookup(es, k, s) == Get(AsOf(hist, s), k)
  }

  lemma {:induction false} AsOfExtends(hist: seq<Op>, more: seq<Op>, n: nat)
    requires n <= |hist|
    ensures AsOf(hist + more, n) == AsOf(hist, n)
  {
    if n > 0 {
      AsOfExtends(hist, more, n - 1);
    }
  }

  lemma AgreesExtends(es: set<Entry>, hist: seq<Op>, more: seq<Op>, floor: nat, top: nat)
    requires top <= |hist| && Agrees(es, hist, floor, top)
    ensures Agrees(es, hist + more, floor, top)
  {
    forall k, s | floor <= s <= top
      ensures Lookup(es, k, s) == Get(AsOf(hist + more, s), k)
    {
      AsOfExtends(hist, more, s);
    }
  }

  /** Adding the next operation's entry extends the agreement by one snapshot. */
  lemma AgreesStep(es: set<Entry>, hist: seq<Op>, floor: nat, top: nat)
    requires top < |hist| && floor <= top && Agrees(es, hist, floor, top)
    requires FromHistory(es, hist) && forall e :: e in es ==> e.key.sn <= top
    ensures Agrees(es + {EntryOf(hist, top)}, hist, floor, top + 1)
  {
    var e := EntryOf(hist, top);
    var es' := es + {e};
    forall k, s | floor <= s <= top + 1
      ensures Lookup(es', k, s) == Get(AsOf(hist, s), k)
    {
      if s <= top {
        LookupSameVisible(es', es, k, s, s);
      } else if e.key.user == k {
        assert IsNewest(es', k, s, e);
        LookupFound(es', k, s, e);
      } else {
        LookupSameVisible(es', es, k, s, top);
        assert Get(AsOf(hist, s), k) == Get(AsOf(hist, top), k);
      }
    }
  }

  function Members(es: seq<Entry>): (r: set<Entry>)
    ensures forall e :: e in r <==> e in es
  {
    set e | e in es
  }

  /** The same entries as a set. */
  ghost function Span(hist: seq<Op>, from: nat, to: nat): (r: set<Entry>)
    requires from <= to <= |hist|
    ensures forall e :: e in r <==> from < e.key.sn <= to && e == EntryOf(hist, e.key.sn - 1)
  {
    set i | from <= i < to :: EntryOf(hist, i)
  }

  lemma RangeIsSpan(hist: seq<Op>, from: nat, to: nat)
    requires from <= to <= |hist|
    ensures Members(Range(hist, from, to)) == Span(hist, from, to)
  {
    var r := Range(hist, from, to);
    forall e | e in Span(hist, from, to)
      ensures e in r
    {
      assert r[e.key.sn - 1 - from] == e;
    }
  }

  /** Adding the entries of a whole range of operations extends the agreement over that range. */
  lemma {:induction false} AgreesRange(es: set<Entry>, hist: seq<Op>, floor: nat, top: nat, to: nat)
    requires floor <= top <= to <= |hist| && Agrees(es, hist, floor, top)
    requires FromHistory(es, hist) && forall e :: e in es ==> e.key.sn <= top
    ensures Agrees(es + Span(hist, top, to), hist, floor, to)
    decreases |hist| - top
  {
    if top == to {
      assert es + Span(hist, top, to) == es;
    } else {
      var e := EntryOf(hist, top);
      AgreesStep(es, hist, floor, top);
      AgreesRange(es + {e}, hist, floor, top + 1, to);
      assert es + Span(hist, top, to) == es + {e} + Span(hist, top + 1, to);
    }
  }

  /** The complete history answers every read as the plain map does. */
  lemma WholeHistoryAgrees(hist: seq<Op>)
    ensures Agrees(Span(hist, 0, |hist|), hist, 0, |hist|)
  {
    assert Agrees({}, hist, 0, 0) by {
      forall k, s: nat | 0 <= s <= 0
        ensures Lookup({}, k, s) == Get(AsOf(hist, s), k)
      {
        LookupMissing({}, k, s);
      }
    }
    AgreesRange({}, hist, 0, 0, |hist|);
    assert {} + Span(hist, 0, |hist|) == Span(hist, 0, |hist|);
  }
}
