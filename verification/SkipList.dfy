/** The memtable's skip list: its searches and insertion run alone, and its readers interleaved with an
    insertion at every pointer load and store. A node is named by its key. */
module SkipList {
  import opened Keys

  const MAX_HEIGHT: nat := 12

  datatype Ptr = Head | Node(key: int) | Nil

  /** `x` stands before key `k`. */
  predicate Precedes(x: Ptr, k: int) {
    x.Head? || (x.Node? && x.key < k)
  }

  /** `y` is the node of `s` right after `x`. */
  ghost predicate IsNext(s: set<int>, x: Ptr, y: Ptr) {
    match y
    case Head => false
    case Node(k) => k in s && Precedes(x, k) && forall j :: j in s && Precedes(x, j) ==> k <= j
    case Nil => forall j :: j in s ==> !Precedes(x, j)
  }

  /** `y` is the first node of `s` at or after `key`. */
  ghost predicate IsFirst(s: set<int>, key: int, y: Ptr) {
    match y
    case Head => false
    case Node(k) => k in s && key <= k && forall j :: j in s && key <= j ==> k <= j
    case Nil => forall j :: j in s ==> j < key
  }

  /** `x` is the last node of `s` before `key`, the head if there is none. */
  ghost predicate IsLastBefore(s: set<int>, key: int, x: Ptr) {
    match x
    case Head => forall j :: j in s ==> key <= j
    case Node(k) => k in s && k < key && forall j :: j in s && j < key ==> j <= k
    case Nil => false
  }

  ghost predicate OnList(s: set<int>, x: Ptr) {
    x.Head? || (x.Node? && x.key in s)
  }

  /** The links of one level form the sorted list of `s`. */
  ghost predicate Linked(next: map<Ptr, Ptr>, s: set<int>) {
    forall x :: OnList(s, x) ==> x in next && IsNext(s, x, next[x])
  }

  /** Every level is a sorted list, and a sublist of the level below. */
  ghost predicate Layered(links: seq<map<Ptr, Ptr>>, sets: seq<set<int>>, maxHeight: nat) {
    && |links| == |sets| == MAX_HEIGHT && 0 < maxHeight <= MAX_HEIGHT
    && (forall l :: 0 <= l < MAX_HEIGHT ==> Linked(links[l], sets[l]))
    && (forall l :: 0 < l < MAX_HEIGHT ==> sets[l] <= sets[l - 1])
    && (forall l :: maxHeight <= l < MAX_HEIGHT ==> sets[l] == {})
  }

  // ----- One level

  lemma NextIsFirst(s: set<int>, x: Ptr, y: Ptr, key: int)
    requires OnList(s, x) && Precedes(x, key) && IsNext(s, x, y) && !(y.Node? && y.key < key)
    ensures IsFirst(s, key, y) && IsLastBefore(s, key, x)
  {
  }

  /** The new node takes over its predecessor's link, then the predecessor points to it. */
  lemma NodeLinked(next: map<Ptr, Ptr>, s: set<int>, prev: Ptr, key: int, m: map<Ptr, Ptr>)
    requires Linked(next, s) && key !in s && IsLastBefore(s, key, prev)
    requires m == next[Node(key) := next[prev]][prev := Node(key)]
    ensures Linked(m, s + {key})
  {
    var s' := s + {key};
    assert IsNext(s, prev, next[prev]);
    forall x | OnList(s', x)
      ensures x in m && IsNext(s', x, m[x])
    {
      if x == prev {
      } else if x == Node(key) {
      } else {
        assert IsNext(s, x, next[x]);
      }
    }
  }

  /** A link of a node that is not on the list matters to nobody. */
  lemma PrivateLink(next: map<Ptr, Ptr>, s: set<int>, key: int, y: Ptr)
    requires Linked(next, s) && key !in s
    ensures Linked(next[Node(key) := y], s)
  {
    forall x | OnList(s, x)
      ensures x in next[Node(key) := y] && IsNext(s, x, next[Node(key) := y][x])
    {
      assert IsNext(s, x, next[x]);
    }
  }

  lemma LayersDescend(links: seq<map<Ptr, Ptr>>, sets: seq<set<int>>, maxHeight: nat, l: nat, x: Ptr)
    requires Layered(links, sets, maxHeight) && 0 < l < MAX_HEIGHT && OnList(sets[l], x)
    ensures OnList(sets[l - 1], x)
  {
    assert sets[l] <= sets[l - 1];
  }

  // ----- Alone

  class List {
    var links: seq<map<Ptr, Ptr>>
    var maxHeight: nat
    ghost var sets: seq<set<int>>

    ghost predicate Valid()
      reads this
    {
      Layered(links, sets, maxHeight)
    }

    ghost function Contents(): set<int>
      requires Valid()
      reads this
    {
      sets[0]
    }

    constructor ()
      ensures Valid() && Contents() == {}
    {
      links := seq(MAX_HEIGHT, _ => map[Head := Nil]);
      sets := seq(MAX_HEIGHT, _ => {});
      maxHeight := 1;
    }

    method FindGreaterOrEqual(key: int) returns (node: Ptr, prev: seq<Ptr>)
      requires Valid()
      ensures IsFirst(Contents(), key, node)
      ensures |prev| == MAX_HEIGHT && forall l :: 0 <= l < maxHeight ==> IsLastBefore(sets[l], key, prev[l])
    {
      var x, level := Head, maxHeight - 1;
      prev := seq(MAX_HEIGHT, _ => Nil);
      while true
        invariant 0 <= level < maxHeight && OnList(sets[level], x) && Precedes(x, key)
        invariant |prev| == MAX_HEIGHT && forall l :: level < l < maxHeight ==> IsLastBefore(sets[l], key, prev[l])
        decreases level, Ahead(sets[level], x, key)
      {
        assert Linked(links[level], sets[level]);
        node := links[level][x];
        if node.Node? && node.key < key {
          FewerAhead(sets[level], x, node, key);
          x := node;
        } else {
          NextIsFirst(sets[level], x, node, key);
          prev := prev[level := x];
          if level == 0 {
            return;
          }
          LayersDescend(links, sets, maxHeight, level, x);
          level := level - 1;
        }
      }
    }

    method FindLessThan(key: int) returns (x: Ptr)
      requires Valid()
      ensures IsLastBefore(Contents(), key, x)
    {
      var level := maxHeight - 1;
      x := Head;
      while true
        invariant 0 <= level < maxHeight && OnList(sets[level], x) && Precedes(x, key)
        decreases level, Ahead(sets[level], x, key)
      {
        assert Linked(links[level], sets[level]);
        var next := links[level][x];
        if next.Nil? || next.key >= key {
          NextIsFirst(sets[level], x, next, key);
          if level == 0 {
            return;
          }
          LayersDescend(links, sets, maxHeight, level, x);
          level := level - 1;
        } else {
          FewerAhead(sets[level], x, next, key);
          x := next;
        }
      }
    }

    method FindLast() returns (x: Ptr)
      requires Valid()
      ensures OnList(Contents(), x) && forall j :: j in Contents() ==> !Precedes(x, j)
    {
      var level := maxHeight - 1;
      x := Head;
      while true
        invariant 0 <= level < maxHeight && OnList(sets[level], x)
        decreases level, Beyond(sets[level], x)
      {
        assert Linked(links[level], sets[level]);
        var next := links[level][x];
        if next.Nil? {
          if level == 0 {
            return;
          }
          LayersDescend(links, sets, maxHeight, level, x);
          level := level - 1;
        } else {
          FewerBeyond(sets[level], x, next);
          x := next;
        }
      }
    }

    method Insert(key: int, height: nat)
      requires Valid() && key !in Contents() && 0 < height <= MAX_HEIGHT
      modifies this
      ensures Valid() && Contents() == old(Contents()) + {key}
    {
      var x, prev := FindGreaterOrEqual(key);
      AbsentAbove(links, sets, maxHeight, key);
      if height > maxHeight {
        for i := maxHeight to height
          invariant |prev| == MAX_HEIGHT
          invariant forall l :: 0 <= l < i ==> IsLastBefore(sets[l], key, prev[l])
        {
          prev := prev[i := Head];
        }
        maxHeight := height;
      }
      var top := maxHeight;
      ghost var before := sets;
      for i := 0 to height
        invariant maxHeight == top && Layered(links, sets, top) && |prev| == MAX_HEIGHT && |before| == MAX_HEIGHT
        invariant forall l :: 0 <= l < MAX_HEIGHT ==> sets[l] == if l < i then before[l] + {key} else before[l]
        invariant forall l :: 0 <= l < height ==> IsLastBefore(before[l], key, prev[l]) && key !in before[l]
      {
        assert Linked(links[i], sets[i]);
        var m := links[i][Node(key) := links[i][prev[i]]];
        m := m[prev[i] := Node(key)];
        NodeLinked(links[i], sets[i], prev[i], key, m);
        links := links[i := m];
        sets := sets[i := sets[i] + {key}];
      }
    }
  }

  ghost function Ahead(s: set<int>, x: Ptr, key: int): nat {
    |set j | j in s && Precedes(x, j) && j < key|
  }

  lemma FewerAhead(s: set<int>, x: Ptr, y: Ptr, key: int)
    requires OnList(s, x) && IsNext(s, x, y) && y.Node? && y.key < key
    ensures Ahead(s, y, key) < Ahead(s, x, key)
  {
    var a, b := set j | j in s && Precedes(x, j) && j < key, set j | j in s && Precedes(y, j) && j < key;
    assert y.key in a && y.key !in b && b <= a;
    Shrinks(b, a, y.key);
  }

  ghost function Beyond(s: set<int>, x: Ptr): nat {
    |set j | j in s && Precedes(x, j)|
  }

  lemma FewerBeyond(s: set<int>, x: Ptr, y: Ptr)
    requires OnList(s, x) && IsNext(s, x, y) && y.Node?
    ensures Beyond(s, y) < Beyond(s, x)
  {
    var a, b := set j | j in s && Precedes(x, j), set j | j in s && Precedes(y, j);
    assert y.key in a && y.key !in b && b <= a;
    Shrinks(b, a, y.key);
  }

  lemma Shrinks(b: set<int>, a: set<int>, k: int)
    requires b <= a && k in a && k !in b
    ensures |b| < |a|
  {
    assert b <= a - {k};
    Within(b, a - {k});
  }

  lemma {:induction false} Within<T>(b: set<T>, a: set<T>)
    requires b <= a
    ensures |b| <= |a|
    decreases a
  {
    if a != {} {
      var k :| k in a;
      Within(b - {k}, a - {k});
      if k in b {
        assert |b - {k}| == |b| - 1;
      } else {
        assert b - {k} == b;
      }
    }
  }

  lemma AbsentAbove(links: seq<map<Ptr, Ptr>>, sets: seq<set<int>>, maxHeight: nat, key: int)
    requires Layered(links, sets, maxHeight) && key !in sets[0]
    ensures forall l :: 0 <= l < MAX_HEIGHT ==> key !in sets[l]
  {
    AbsentUpTo(links, sets, maxHeight, key, MAX_HEIGHT - 1);
  }

  lemma {:induction false} AbsentUpTo(links: seq<map<Ptr, Ptr>>, sets: seq<set<int>>, maxHeight: nat, key: int, n: nat)
    requires Layered(links, sets, maxHeight) && key !in sets[0] && n < MAX_HEIGHT
    ensures forall l :: 0 <= l <= n ==> key !in sets[l]
  {
    if n > 0 {
      AbsentUpTo(links, sets, maxHeight, key, n - 1);
      assert sets[n] <= sets[n - 1];
    }
  }

  // ----- Readers interleaved with an insertion

  /** Where the single writer stands. */
  datatype Insertion =
    | Idle
    | Searching(key: int, x: Ptr, level: nat, prev: seq<Ptr>)
    | Found(key: int, prev: seq<Ptr>)
    | Linking(key: int, height: nat, prev: seq<Ptr>, i: nat, own: bool)

  /** Where a reader stands in its search. */
  datatype Search = Seeking(key: int, x: Ptr, level: nat) | Answered(key: int, node: Ptr)

  datatype ListState = ListState(links: seq<map<Ptr, Ptr>>, maxHeight: nat, writer: Insertion, readers: seq<Search>,
                                 sets: seq<set<int>>)

  ghost predicate PrevFrom(sets: seq<set<int>>, key: int, prev: seq<Ptr>, from: nat, to: nat) {
    && |prev| == |sets| == MAX_HEIGHT && to <= MAX_HEIGHT
    && forall l :: from <= l < to ==> IsLastBefore(sets[l], key, prev[l])
  }

  ghost predicate AbsentFrom(sets: seq<set<int>>, key: int, from: nat) {
    forall l :: from <= l < |sets| ==> key !in sets[l]
  }

  ghost predicate WriterInv(links: seq<map<Ptr, Ptr>>, sets: seq<set<int>>, maxHeight: nat, w: Insertion)
    requires |links| == |sets| == MAX_HEIGHT
  {
    match w
    case Idle => true
    case Searching(key, x, level, prev) =>
      && level < maxHeight <= MAX_HEIGHT && OnList(sets[level], x) && Precedes(x, key)
      && PrevFrom(sets, key, prev, level + 1, maxHeight) && AbsentFrom(sets, key, 0)
    case Found(key, prev) => PrevFrom(sets, key, prev, 0, maxHeight) && AbsentFrom(sets, key, 0)
    case Linking(key, height, prev, i, own) =>
      && i < height <= maxHeight && PrevFrom(sets, key, prev, i, height) && AbsentFrom(sets, key, i)
      && (forall l :: 0 <= l < i ==> key in sets[l])
      && (own ==> Node(key) in links[i] && prev[i] in links[i] && links[i][Node(key)] == links[i][prev[i]])
  }

  ghost predicate ReaderInv(sets: seq<set<int>>, maxHeight: nat, r: Search) {
    r.Seeking? ==> r.level < maxHeight <= |sets| && OnList(sets[r.level], r.x) && Precedes(r.x, r.key)
  }

  ghost predicate Inv(s: ListState) {
    && Layered(s.links, s.sets, s.maxHeight)
    && WriterInv(s.links, s.sets, s.maxHeight, s.writer)
    && forall i :: 0 <= i < |s.readers| ==> ReaderInv(s.sets, s.maxHeight, s.readers[i])
  }

  ghost predicate Init(s: ListState) {
    s == ListState(seq(MAX_HEIGHT, _ => map[Head := Nil]), 1, Idle, [], seq(MAX_HEIGHT, _ => {}))
  }

  datatype ListStep =
    | StepBegin(key: int) | StepSearch | StepRaise(height: nat) | StepOwnLink | StepPublish
    | StepSeek(key: int) | StepLoad(i: nat)

  /** Insertion begins; the caller guarantees that the key is new. */
  ghost predicate Begin(s: ListState, s': ListState, key: int) {
    && s.writer.Idle? && s.maxHeight > 0 && |s.sets| > 0 && key !in s.sets[0]
    && s' == s.(writer := Searching(key, Head, s.maxHeight - 1, seq(MAX_HEIGHT, _ => Nil)))
  }

  /** One pointer load of the writer's own search. */
  ghost predicate SearchOne(s: ListState, s': ListState) {
    && s.writer.Searching? && s.writer.level < |s.links| && s.writer.x in s.links[s.writer.level]
        && |s.writer.prev| == MAX_HEIGHT
    && var w := s.writer;
       var next := s.links[w.level][w.x];
       s' == s.(writer :=
         if next.Node? && next.key < w.key then w.(x := next)
         else if w.level == 0 then Found(w.key, w.prev[0 := w.x])
         else if w.level < MAX_HEIGHT then w.(level := w.level - 1, prev := w.prev[w.level := w.x])
         else w)
  }

  /** The node's height is drawn and the list's height raised if need be. */
  ghost predicate Raise(s: ListState, s': ListState, height: nat) {
    && s.writer.Found? && 0 < height <= MAX_HEIGHT && |s.writer.prev| == MAX_HEIGHT
    && var prev := seq(MAX_HEIGHT, l requires 0 <= l < MAX_HEIGHT => if s.maxHeight <= l < height then Head
        else s.writer.prev[l]);
       s' == s.(maxHeight := if height > s.maxHeight then height else s.maxHeight,
                writer := Linking(s.writer.key, height, prev, 0, false))
  }

  /** Store into the new node, which nobody can reach at this level yet. */
  ghost predicate OwnLink(s: ListState, s': ListState) {
    && s.writer.Linking? && !s.writer.own && s.writer.i < |s.links| && s.writer.i < |s.writer.prev|
    && var w := s.writer;
       && w.prev[w.i] in s.links[w.i]
       && s' == s.(links := s.links[w.i := s.links[w.i][Node(w.key) := s.links[w.i][w.prev[w.i]]]],
           writer := w.(own := true))
  }

  /** Store into the predecessor: the node appears at this level. */
  ghost predicate Publish(s: ListState, s': ListState) {
    && s.writer.Linking? && s.writer.own && s.writer.i < |s.links| && s.writer.i < |s.writer.prev|
        && |s.sets| == |s.links|
    && var w := s.writer;
       s' == s.(links := s.links[w.i := s.links[w.i][w.prev[w.i] := Node(w.key)]],
                sets := s.sets[w.i := s.sets[w.i] + {w.key}],
                writer := if w.i + 1 == w.height then Idle else w.(i := w.i + 1, own := false))
  }

  /** A reader begins a search with whatever height it sees. */
  ghost predicate Seek(s: ListState, s': ListState, key: int) {
    && s.maxHeight > 0
    && s' == s.(readers := s.readers + [Seeking(key, Head, s.maxHeight - 1)])
  }

  /** One pointer load of a reader. */
  ghost predicate Load(s: ListState, s': ListState, i: nat) {
    && i < |s.readers| && s.readers[i].Seeking? && s.readers[i].level < |s.links|
        && s.readers[i].x in s.links[s.readers[i].level]
    && var r := s.readers[i];
       var next := s.links[r.level][r.x];
       s' == s.(readers := s.readers[i :=
         if next.Node? && next.key < r.key then r.(x := next)
         else if r.level == 0 then Answered(r.key, next)
         else r.(level := r.level - 1)])
  }

  ghost predicate Does(s: ListState, s': ListState, step: ListStep) {
    match step
    case StepBegin(key) => Begin(s, s', key)
    case StepSearch => SearchOne(s, s')
    case StepRaise(height) => Raise(s, s', height)
    case StepOwnLink => OwnLink(s, s')
    case StepPublish => Publish(s, s')
    case StepSeek(key) => Seek(s, s', key)
    case StepLoad(i) => Load(s, s', i)
  }

  lemma BeginKeeps(s: ListState, s': ListState, key: int)
    requires Inv(s) && Begin(s, s', key)
    ensures Inv(s')
  {
    AbsentAbove(s.links, s.sets, s.maxHeight, key);
    hide Linked;
  }

  lemma SearchKeeps(s: ListState, s': ListState)
    requires Inv(s) && SearchOne(s, s')
    ensures Inv(s')
  {
    var w := s.writer;
    var next := s.links[w.level][w.x];
    assert Linked(s.links[w.level], s.sets[w.level]) && IsNext(s.sets[w.level], w.x, next);
    if !(next.Node? && next.key < w.key) {
      NextIsFirst(s.sets[w.level], w.x, next, w.key);
      if w.level > 0 {
        LayersDescend(s.links, s.sets, s.maxHeight, w.level, w.x);
      }
    }
    hide Linked, IsLastBefore;
  }

  lemma RaiseKeeps(s: ListState, s': ListState, height: nat)
    requires Inv(s) && Raise(s, s', height)
    ensures Inv(s')
  {
    hide Linked;
  }

  lemma OwnLinkKeeps(s: ListState, s': ListState)
    requires Inv(s) && OwnLink(s, s')
    ensures Inv(s')
  {
    var w := s.writer;
    assert Linked(s.links[w.i], s.sets[w.i]);
    PrivateLink(s.links[w.i], s.sets[w.i], w.key, s.links[w.i][w.prev[w.i]]);
    hide Linked, IsLastBefore;
  }

  lemma PublishKeeps(s: ListState, s': ListState)
    requires Inv(s) && Publish(s, s')
    ensures Inv(s')
  {
    var w := s.writer;
    var next := s.links[w.i];
    assert Linked(next, s.sets[w.i]) && IsLastBefore(s.sets[w.i], w.key, w.prev[w.i]);
    assert next[Node(w.key) := next[w.prev[w.i]]] == next;
    NodeLinked(next, s.sets[w.i], w.prev[w.i], w.key, s'.links[w.i]);
    hide Linked, IsLastBefore;
    assert forall i :: 0 <= i < |s.readers| ==> ReaderInv(s.sets, s.maxHeight, s.readers[i]);
  }

  lemma SeekKeeps(s: ListState, s': ListState, key: int)
    requires Inv(s) && Seek(s, s', key)
    ensures Inv(s')
  {
    hide Linked;
  }

  /** A load that ends a search returns the first node at or after its key of the bottom list as it is at
      that moment, whatever the writer is in the middle of. */
  lemma LoadKeeps(s: ListState, s': ListState, i: nat)
    requires Inv(s) && Load(s, s', i)
    ensures Inv(s')
    ensures s'.readers[i].Answered? ==> IsFirst(s'.sets[0], s.readers[i].key, s'.readers[i].node)
  {
    var r := s.readers[i];
    assert ReaderInv(s.sets, s.maxHeight, r);
    var next := s.links[r.level][r.x];
    assert Linked(s.links[r.level], s.sets[r.level]) && IsNext(s.sets[r.level], r.x, next);
    if !(next.Node? && next.key < r.key) {
      NextIsFirst(s.sets[r.level], r.x, next, r.key);
      if r.level > 0 {
        LayersDescend(s.links, s.sets, s.maxHeight, r.level, r.x);
      }
    }
    hide Linked;
  }

  lemma StepKeeps(s: ListState, s': ListState, step: ListStep)
    requires Inv(s) && Does(s, s', step)
    ensures Inv(s')
  {
    hide Inv;
    match step
    case StepBegin(key) => BeginKeeps(s, s', key);
    case StepSearch => SearchKeeps(s, s');
    case StepRaise(height) => RaiseKeeps(s, s', height);
    case StepOwnLink => OwnLinkKeeps(s, s');
    case StepPublish => PublishKeeps(s, s');
    case StepSeek(key) => SeekKeeps(s, s', key);
    case StepLoad(i) => LoadKeeps(s, s', i);
  }

  ghost predicate IsRun(run: seq<ListState>, steps: seq<ListStep>) {
    && |run| == |steps| + 1 && Init(run[0])
    && forall i :: 0 <= i < |steps| ==> Does(run[i], run[i + 1], steps[i])
  }

  /** Between any two pointer stores every level is a sorted sublist of the level below. */
  lemma {:induction false} RunLayered(run: seq<ListState>, steps: seq<ListStep>, i: nat)
    requires IsRun(run, steps) && i < |run|
    ensures Inv(run[i])
  {
    hide Does;
    if i > 0 {
      RunLayered(run, steps, i - 1);
      StepKeeps(run[i - 1], run[i], steps[i - 1]);
    }
  }

  /** In every interleaving, a finished search answers from the bottom list of that moment. */
  lemma RunAnswers(run: seq<ListState>, steps: seq<ListStep>, n: nat, i: nat)
    requires IsRun(run, steps) && n < |steps| && steps[n] == StepLoad(i)
    ensures i < |run[n].readers| && i < |run[n + 1].readers| && |run[n + 1].sets| == MAX_HEIGHT
    ensures run[n + 1].readers[i].Answered? ==>
              IsFirst(run[n + 1].sets[0], run[n].readers[i].key, run[n + 1].readers[i].node)
  {
    RunLayered(run, steps, n);
    assert Does(run[n], run[n + 1], steps[n]);
    LoadKeeps(run[n], run[n + 1], i);
  }

  /** The bottom list only grows, by the key being inserted. */
  lemma StepGrows(s: ListState, s': ListState, step: ListStep)
    requires Inv(s) && Does(s, s', step)
    ensures s'.sets[0] == s.sets[0] || (s.writer.Linking? && s'.sets[0] == s.sets[0] + {s.writer.key})
  {
  }
}
