/** The merging iterator: over children with distinct keys it is a cursor on their sorted union, under
    any mix of moves and direction switches. */
module MergingIter {
  import opened Keys
  import opened Versions

  /** Sorted children without a common key. */
  ghost predicate Distinct(children: seq<seq<Entry>>) {
    && (forall i :: 0 <= i < |children| ==> Sorted(children[i]))
    && (forall i, k, e, f :: 0 <= i < k < |children| && e in children[i] && f in children[k] ==>
          Less(e.key, f.key) || Less(f.key, e.key))
  }

  /** `merged` is the sorted union of the children. */
  ghost predicate UnionOf(children: seq<seq<Entry>>, merged: seq<Entry>) {
    && Sorted(merged)
    && (forall e :: e in merged <==> exists i :: 0 <= i < |children| && e in children[i])
  }

  /** `ranks` gives each entry of a child its index in the union. */
  ghost predicate ChildRanks(child: seq<Entry>, merged: seq<Entry>, ranks: seq<nat>) {
    && |ranks| == |child|
    && (forall j :: 0 <= j < |ranks| ==> ranks[j] < |merged| && merged[ranks[j]] == child[j])
    && (forall j, l :: 0 <= j < l < |ranks| ==> ranks[j] < ranks[l])
  }

  ghost predicate Ranks(children: seq<seq<Entry>>, merged: seq<Entry>, rank: seq<seq<nat>>) {
    && |rank| == |children|
    && (forall i :: 0 <= i < |rank| ==> ChildRanks(children[i], merged, rank[i]))
    && (forall i, j, k, l :: 0 <= i < |rank| && 0 <= k < |rank| && 0 <= j < |rank[i]| && 0 <= l < |rank[k]| ==>
          rank[i][j] == rank[k][l] ==> i == k)
    && (forall n :: 0 <= n < |merged| ==> Ranked(rank, n))
  }

  ghost predicate Ranked(rank: seq<seq<nat>>, n: nat) {
    exists i, j :: 0 <= i < |rank| && 0 <= j < |rank[i]| && rank[i][j] == n
  }

  ghost function RankIn(merged: seq<Entry>, e: Entry): (n: nat)
    requires e in merged
    ensures n < |merged| && merged[n] == e
  {
    var n :| 0 <= n < |merged| && merged[n] == e;
    n
  }

  ghost function RankAll(children: seq<seq<Entry>>, merged: seq<Entry>): seq<seq<nat>>
    requires UnionOf(children, merged)
  {
    seq(|children|, i requires 0 <= i < |children| =>
      seq(|children[i]|, j requires 0 <= j < |children[i]| => RankIn(merged, children[i][j])))
  }

  lemma RanksExist(children: seq<seq<Entry>>, merged: seq<Entry>)
    requires Distinct(children) && UnionOf(children, merged)
    ensures Ranks(children, merged, RankAll(children, merged))
  {
    var rank := RankAll(children, merged);
    forall i | 0 <= i < |rank|
      ensures ChildRanks(children[i], merged, rank[i])
    {
      assert Sorted(children[i]);
      forall j, l | 0 <= j < l < |rank[i]|
        ensures rank[i][j] < rank[i][l]
      {
        LessIsRank(merged, rank[i][j], rank[i][l]);
      }
    }
    forall n | 0 <= n < |merged|
      ensures Ranked(rank, n)
    {
      EveryRankTaken(children, merged, n);
    }
    forall i, j, k, l | 0 <= i < |rank| && 0 <= k < |rank| && 0 <= j < |rank[i]| && 0 <= l < |rank[k]|
        && rank[i][j] == rank[k][l]
      ensures i == k
    {
      assert children[i][j] in children[i] && children[k][l] in children[k];
    }
  }

  lemma EveryRankTaken(children: seq<seq<Entry>>, merged: seq<Entry>, n: nat)
    requires UnionOf(children, merged) && n < |merged|
    ensures Ranked(RankAll(children, merged), n)
  {
    var rank := RankAll(children, merged);
    assert merged[n] in merged;
    var i :| 0 <= i < |children| && merged[n] in children[i];
    var j :| 0 <= j < |children[i]| && children[i][j] == merged[n];
    LessIsRank(merged, rank[i][j], n);
    LessIsRank(merged, n, rank[i][j]);
  }

  lemma LessIsRank(merged: seq<Entry>, m: nat, n: nat)
    requires Sorted(merged) && m < |merged| && n < |merged|
    ensures Less(merged[m].key, merged[n].key) <==> m < n
  {
  }

  /** Child `i` stands at its first entry of rank `n` or more. */
  ghost predicate AtOrAfter(ranks: seq<nat>, p: nat, n: nat) {
    p <= |ranks| && (0 < p ==> ranks[p - 1] < n) && (p < |ranks| ==> n <= ranks[p])
  }

  /** Child `i` stands at its last entry of rank below `n`; at the end means there is none. */
  ghost predicate LastBefore(ranks: seq<nat>, p: nat, n: nat) {
    if p == |ranks| then 0 < |ranks| ==> n <= ranks[0]
    else p < |ranks| && ranks[p] < n && (p + 1 < |ranks| ==> n <= ranks[p + 1])
  }

  ghost predicate AllAtOrAfter(rank: seq<seq<nat>>, pos: seq<nat>, n: nat) {
    |pos| == |rank| && forall i :: 0 <= i < |rank| ==> AtOrAfter(rank[i], pos[i], n)
  }

  ghost predicate AllLastBefore(rank: seq<seq<nat>>, pos: seq<nat>, n: nat) {
    |pos| == |rank| && forall i :: 0 <= i < |rank| ==> LastBefore(rank[i], pos[i], n)
  }

  lemma {:induction false} SeekIsAtOrAfter(child: seq<Entry>, merged: seq<Entry>, ranks: seq<nat>, target: InternalKey)
    requires ChildRanks(child, merged, ranks) && Sorted(merged)
    ensures AtOrAfter(ranks, SeekIndex(child, target), SeekIndex(merged, target))
  {
    var p, n := SeekIndex(child, target), SeekIndex(merged, target);
    if 0 < p {
      SeekSplits(merged, target, ranks[p - 1]);
    }
    if p < |ranks| {
      SeekSplits(merged, target, ranks[p]);
    }
  }

  lemma {:induction false} SeekSplits(es: seq<Entry>, target: InternalKey, j: nat)
    requires Sorted(es) && j < |es|
    ensures j < SeekIndex(es, target) <==> Less(es[j].key, target)
  {
    var n := SeekIndex(es, target);
    assert n < j ==> Less(es[n].key, es[j].key);
  }

  lemma {:induction false} SeekExact(merged: seq<Entry>, n: nat)
    requires Sorted(merged) && n < |merged|
    ensures SeekIndex(merged, merged[n].key) == n
  {
    var m := SeekIndex(merged, merged[n].key);
    LessIsRank(merged, n, n);
    LessIsRank(merged, m, n);
  }

  /** Moving the child at rank `n` leaves every child at or after the next rank. */
  lemma StepForward(children: seq<seq<Entry>>, merged: seq<Entry>, rank: seq<seq<nat>>, pos: seq<nat>, c: nat, n: nat)
    requires Ranks(children, merged, rank) && AllAtOrAfter(rank, pos, n)
    requires c < |pos| && pos[c] < |rank[c]| && rank[c][pos[c]] == n
    ensures AllAtOrAfter(rank, pos[c := pos[c] + 1], n + 1)
  {
    forall i | 0 <= i < |rank|
      ensures AtOrAfter(rank[i], pos[c := pos[c] + 1][i], n + 1)
    {
      assert AtOrAfter(rank[i], pos[i], n) && ChildRanks(children[i], merged, rank[i]);
    }
  }

  lemma StepBackward(children: seq<seq<Entry>>, merged: seq<Entry>, rank: seq<seq<nat>>, pos: seq<nat>, c: nat, n: nat)
    requires Ranks(children, merged, rank) && AllLastBefore(rank, pos, n + 1)
    requires c < |pos| && pos[c] < |rank[c]| && rank[c][pos[c]] == n
    ensures AllLastBefore(rank, pos[c := if pos[c] == 0 then |rank[c]| else pos[c] - 1], n)
  {
    var pos' := pos[c := if pos[c] == 0 then |rank[c]| else pos[c] - 1];
    forall i | 0 <= i < |rank|
      ensures LastBefore(rank[i], pos'[i], n)
    {
      assert LastBefore(rank[i], pos[i], n + 1) && ChildRanks(children[i], merged, rank[i]);
    }
  }

  /** The child that holds rank `n - 1` stands at it. */
  lemma StandsAtLast(ranks: seq<nat>, p: nat, j: nat, n: nat)
    requires LastBefore(ranks, p, n) && j < |ranks| && ranks[j] + 1 == n
    requires forall a, b :: 0 <= a < b < |ranks| ==> ranks[a] < ranks[b]
    ensures p == j
  {
  }

  lemma StandsAtFirst(ranks: seq<nat>, p: nat, j: nat, n: nat)
    requires AtOrAfter(ranks, p, n) && j < |ranks| && ranks[j] == n
    requires forall a, b :: 0 <= a < b < |ranks| ==> ranks[a] < ranks[b]
    ensures p == j
  {
  }

  lemma AboveCut(ranks: seq<nat>, p: nat, n: nat)
    requires AtOrAfter(ranks, p, n)
    ensures p < |ranks| ==> n <= ranks[p]
  {
  }

  lemma AllBelowCut(ranks: seq<nat>, p: nat, n: nat)
    requires AtOrAfter(ranks, p, n) && forall j :: 0 <= j < |ranks| ==> ranks[j] < n
    ensures p == |ranks|
  {
  }

  /** A child placed by a search for rank `n`, which is not its own, steps back before it. */
  lemma StepsBack(ranks: seq<nat>, p: nat, n: nat)
    requires AtOrAfter(ranks, p, n) && n !in ranks && forall a, b :: 0 <= a < b < |ranks| ==> ranks[a] < ranks[b]
    ensures LastBefore(ranks, if p < |ranks| then (if p == 0 then |ranks| else p - 1) else if ranks == [] then 0
              else |ranks| - 1, n + 1)
  {
  }

  lemma BelowCut(ranks: seq<nat>, p: nat, n: nat)
    requires LastBefore(ranks, p, n)
    ensures p < |ranks| ==> ranks[p] < n
    ensures n == 0 ==> p == |ranks|
  {
  }

  class MergingIterator {
    const children: seq<seq<Entry>>
    /** Position of each child; at its length the child is not valid. */
    var pos: seq<nat>
    var current: Option<nat>
    var reverse: bool
    ghost const merged: seq<Entry>
    ghost const rank: seq<seq<nat>>

    ghost predicate Shape()
      reads this
    {
      && Ranks(children, merged, rank) && Sorted(merged)
      && |pos| == |children| && forall i :: 0 <= i < |pos| ==> pos[i] <= |children[i]|
    }

    ghost predicate Inv()
      reads this
    {
      && Shape()
      && (current.Some? ==>
           && current.value < |children| && pos[current.value] < |children[current.value]|
           && (!reverse ==> AllAtOrAfter(rank, pos, Here()))
           && (reverse ==> AllLastBefore(rank, pos, Here() + 1)))
    }

    ghost function Here(): nat
      requires Shape() && current.Some? && current.value < |children| && pos[current.value] < |children[current.value]|
      reads this
    {
      rank[current.value][pos[current.value]]
    }

    /** Index of the cursor in the sorted union; its length when not valid. */
    ghost function At(): nat
      requires Inv()
      reads this
    {
      if current.Some? then Here() else |merged|
    }

    constructor (children: seq<seq<Entry>>, ghost merged: seq<Entry>)
      requires Distinct(children) && UnionOf(children, merged)
      ensures Inv() && current.None? && this.merged == merged && this.children == children
    {
      RanksExist(children, merged);
      this.children := children;
      pos := seq(|children|, i requires 0 <= i < |children| => |children[i]|);
      current, reverse := None, false;
      this.merged, rank := merged, RankAll(children, merged);
    }

    /** The entry under the cursor is the union's entry at that index. */
    function Current(): (e: Entry)
      requires Inv() && current.Some?
      reads this
      ensures e == merged[At()]
    {
      children[current.value][pos[current.value]]
    }

    method FindSmallest(ghost n: nat)
      requires Shape() && AllAtOrAfter(rank, pos, n) && n <= |merged| && !reverse
      modifies this`current
      ensures Inv() && At() == n
    {
      hide AllAtOrAfter, AtOrAfter, Ranked, Sorted;
      var smallest: Option<nat> := None;
      for i := 0 to |children|
        invariant smallest.Some? ==> smallest.value < i && pos[smallest.value] < |children[smallest.value]|
        invariant forall k :: 0 <= k < i && pos[k] < |children[k]| ==>
                    smallest.Some? && rank[smallest.value][pos[smallest.value]] <= rank[k][pos[k]]
      {
        if pos[i] < |children[i]| {
          if smallest.None? {
            smallest := Some(i);
          } else {
            LessIsRank(merged, rank[i][pos[i]], rank[smallest.value][pos[smallest.value]]);
            if Less(children[i][pos[i]].key, children[smallest.value][pos[smallest.value]].key) {
              smallest := Some(i);
            }
          }
        }
      }
      current := smallest;
      HeadIsNext(n);
    }

    /** If the children stand at or after rank `n`, one of them stands at it. */
    lemma HeadIsNext(n: nat)
      requires Shape() && AllAtOrAfter(rank, pos, n) && n <= |merged|
      ensures n < |merged| ==> exists i :: 0 <= i < |children| && pos[i] < |children[i]| && rank[i][pos[i]] == n
      ensures forall i :: 0 <= i < |children| && pos[i] < |children[i]| ==> n <= rank[i][pos[i]]
      ensures n == |merged| ==> forall i :: 0 <= i < |children| ==> pos[i] == |children[i]|
    {
      hide AtOrAfter, Sorted;
      forall i | 0 <= i < |children|
        ensures pos[i] < |children[i]| ==> n <= rank[i][pos[i]]
      {
        assert ChildRanks(children[i], merged, rank[i]);
        AboveCut(rank[i], pos[i], n);
      }
      if n < |merged| {
        assert Ranked(rank, n);
        var i, j :| 0 <= i < |rank| && 0 <= j < |rank[i]| && rank[i][j] == n;
        assert ChildRanks(children[i], merged, rank[i]);
        StandsAtFirst(rank[i], pos[i], j, n);
      } else {
        forall i | 0 <= i < |children|
          ensures pos[i] == |children[i]|
        {
          assert ChildRanks(children[i], merged, rank[i]);
          AllBelowCut(rank[i], pos[i], n);
        }
      }
    }

    method FindLargest(ghost n: nat)
      requires Shape() && AllLastBefore(rank, pos, n) && n <= |merged| && reverse
      modifies this`current
      ensures Inv() && At() == if n == 0 then |merged| else n - 1
    {
      hide AllLastBefore, LastBefore, Ranked, Sorted;
      var largest: Option<nat> := None;
      for i := |children| downto 0
        invariant largest.Some? ==> i <= largest.value < |children| && pos[largest.value] < |children[largest.value]|
        invariant forall k :: i <= k < |children| && pos[k] < |children[k]| ==>
                    largest.Some? && rank[largest.value][pos[largest.value]] >= rank[k][pos[k]]
      {
        if pos[i] < |children[i]| {
          if largest.None? {
            largest := Some(i);
          } else {
            LessIsRank(merged, rank[largest.value][pos[largest.value]], rank[i][pos[i]]);
            if Less(children[largest.value][pos[largest.value]].key, children[i][pos[i]].key) {
              largest := Some(i);
            }
          }
        }
      }
      current := largest;
      HeadIsLast(n);
    }

    lemma HeadIsLast(n: nat)
      requires Shape() && AllLastBefore(rank, pos, n) && n <= |merged|
      ensures n > 0 ==> exists i :: 0 <= i < |children| && pos[i] < |children[i]| && rank[i][pos[i]] == n - 1
      ensures forall i :: 0 <= i < |children| && pos[i] < |children[i]| ==> rank[i][pos[i]] < n
      ensures n == 0 ==> forall i :: 0 <= i < |children| ==> pos[i] == |children[i]|
    {
      hide LastBefore, Sorted;
      forall i | 0 <= i < |children|
        ensures pos[i] < |children[i]| ==> rank[i][pos[i]] < n
        ensures n == 0 ==> pos[i] == |children[i]|
      {
        assert ChildRanks(children[i], merged, rank[i]);
        BelowCut(rank[i], pos[i], n);
      }
      if n > 0 {
        assert Ranked(rank, n - 1);
        var i, j :| 0 <= i < |rank| && 0 <= j < |rank[i]| && rank[i][j] == n - 1;
        assert ChildRanks(children[i], merged, rank[i]);
        StandsAtLast(rank[i], pos[i], j, n);
      }
    }

    method SeekToFirst()
      requires Inv()
      modifies this
      ensures Inv() && At() == 0
    {
      pos := seq(|children|, _ => 0);
      reverse := false;
      FindSmallest(0);
    }

    method SeekToLast()
      requires Inv()
      modifies this
      ensures Inv() && At() == if merged == [] then 0 else |merged| - 1
    {
      pos := seq(|children|, i requires 0 <= i < |children| => if children[i] == [] then 0 else |children[i]| - 1);
      reverse := true;
      FindLargest(|merged|);
    }

    method Seek(target: InternalKey)
      requires Inv()
      modifies this
      ensures Inv() && At() == SeekIndex(merged, target)
    {
      pos := seq(|children|, i requires 0 <= i < |children| => SeekIndex(children[i], target));
      forall i | 0 <= i < |rank|
        ensures AtOrAfter(rank[i], pos[i], SeekIndex(merged, target))
      {
        SeekIsAtOrAfter(children[i], merged, rank[i], target);
      }
      reverse := false;
      FindSmallest(SeekIndex(merged, target));
    }

    /** Every child but the current one is placed after the current key. */
    method TurnForward()
      requires Inv() && current.Some? && reverse
      modifies this`pos, this`reverse
      ensures Inv() && !reverse && At() == old(At())
    {
      ghost var n := At();
      var c, was := current.value, pos;
      var key := children[c][was[c]].key;
      assert key == merged[n].key;
      SeekExact(merged, n);
      var newPos: seq<nat> := was;
      for i := 0 to |children|
        invariant |newPos| == |children| && newPos[c] == was[c]
        invariant forall k :: 0 <= k < |newPos| ==> newPos[k] <= |children[k]|
        invariant forall k :: 0 <= k < i && k != c ==> AtOrAfter(rank[k], newPos[k], n)
      {
        if i != c {
          SeekIsAtOrAfter(children[i], merged, rank[i], key);
          var p := SeekIndex(children[i], key);
          if p < |children[i]| && !Less(key, children[i][p].key) {
            p := p + 1;
          }
          newPos := newPos[i := p];
        }
      }
      CurrentIsAtOrAfter(c, n, was);
      pos, reverse := newPos, false;
    }

    lemma CurrentIsAtOrAfter(c: nat, n: nat, was: seq<nat>)
      requires c < |rank| == |was| && c < |children| && ChildRanks(children[c], merged, rank[c]) && was[c] < |rank[c]|
      requires rank[c][was[c]] == n
      ensures AtOrAfter(rank[c], was[c], n)
    {
    }

    lemma CurrentIsLastBefore(c: nat, n: nat, was: seq<nat>)
      requires c < |rank| == |was| && c < |children| && ChildRanks(children[c], merged, rank[c]) && was[c] < |rank[c]|
      requires rank[c][was[c]] == n
      ensures LastBefore(rank[c], was[c], n + 1)
    {
    }

    method Next()
      requires Inv() && current.Some?
      modifies this
      ensures Inv() && At() == old(At()) + 1
    {
      hide LastBefore, AtOrAfter, Sorted, Ranked;
      ghost var n := At();
      if reverse {
        TurnForward();
      }
      var c := current.value;
      StepForward(children, merged, rank, pos, c, n);
      hide Ranks, AllAtOrAfter;
      pos := pos[c := pos[c] + 1];
      FindSmallest(n + 1);
    }

    /** Every child but the current one is placed before the current key. */
    method TurnBackward()
      requires Inv() && current.Some? && !reverse
      modifies this`pos, this`reverse
      ensures Inv() && reverse && At() == old(At())
    {
      hide AtOrAfter, LastBefore, Sorted, Ranked;
      ghost var n := At();
      var c, was := current.value, pos;
      var key := children[c][was[c]].key;
      assert key == merged[n].key;
      SeekExact(merged, n);
      var newPos: seq<nat> := was;
      for i := 0 to |children|
        invariant |newPos| == |children| && newPos[c] == was[c]
        invariant forall k :: 0 <= k < |newPos| ==> newPos[k] <= |children[k]|
        invariant forall k :: 0 <= k < i && k != c ==> LastBefore(rank[k], newPos[k], n + 1)
      {
        if i != c {
          SeekIsAtOrAfter(children[i], merged, rank[i], key);
          assert ChildRanks(children[i], merged, rank[i]);
          assert n !in rank[i];
          StepsBack(rank[i], SeekIndex(children[i], key), n);
          var p := SeekIndex(children[i], key);
          if p < |children[i]| {
            p := if p == 0 then |children[i]| else p - 1;
          } else {
            p := if children[i] == [] then 0 else |children[i]| - 1;
          }
          newPos := newPos[i := p];
        }
      }
      CurrentIsLastBefore(c, n, was);
      pos, reverse := newPos, true;
    }

    method Prev()
      requires Inv() && current.Some?
      modifies this
      ensures Inv() && At() == if old(At()) == 0 then |merged| else old(At()) - 1
    {
      hide LastBefore, AtOrAfter, Sorted, Ranked;
      ghost var n := At();
      if !reverse {
        TurnBackward();
      }
      var c := current.value;
      StepBackward(children, merged, rank, pos, c, n);
      assert |rank[c]| == |children[c]| by {
        assert ChildRanks(children[c], merged, rank[c]);
      }
      hide Ranks, AllLastBefore;
      pos := pos[c := if pos[c] == 0 then |children[c]| else pos[c] - 1];
      FindLargest(n);
    }
  }
}
