/** `lisPositions`: the rows that a reordering may leave where they are. */
module LongestIncreasing {

  // Positions that carry non-negative values, strictly increasing from left to right.
  ghost predicate Increasing(values: seq<int>, positions: set<nat>) {
    && (forall i :: i in positions ==> i < |values| && values[i] >= 0)
    && (forall i, j :: i in positions && j in positions && i < j ==> values[i] < values[j])
  }

  ghost predicate Longest(values: seq<int>, positions: set<nat>) {
    && Increasing(values, positions)
    && forall other: set<nat> :: Increasing(values, other) ==> |other| <= |positions|
  }

  // rank[i] stands for the length of the longest increasing subsequence that ends at i.
  ghost predicate Ranked(values: seq<int>, rank: seq<nat>) {
    && |rank| <= |values|
    && forall i, j {:trigger rank[i], rank[j]} :: 0 <= i < j < |rank| && 0 <= values[i] < values[j] ==>
        rank[i] < rank[j]
  }

  // tails[k] is a position of rank k + 1 ...
  ghost predicate TailRanks(rank: seq<nat>, tails: seq<nat>) {
    && (forall k :: 0 <= k < |tails| ==> tails[k] < |rank|)
    && (forall k, i {:trigger tails[k], rank[i]} :: 0 <= k < |tails| && i == tails[k] ==> rank[i] == k + 1)
  }

  // ... with a non-negative value, larger than that of the tails before it ...
  ghost predicate TailValues(values: seq<int>, tails: seq<nat>) {
    && (forall k :: 0 <= k < |tails| ==> tails[k] < |values| && values[tails[k]] >= 0)
    && (forall k, l :: 0 <= k < l < |tails| ==> values[tails[k]] < values[tails[l]])
  }

  // ... and the least value seen so far for its rank.
  ghost predicate TailsLeast(values: seq<int>, rank: seq<nat>, tails: seq<nat>)
    requires TailValues(values, tails)
  {
    && |rank| <= |values|
    && (forall i {:trigger rank[i]} :: 0 <= i < |rank| && values[i] >= 0 ==> 1 <= rank[i] <= |tails|)
    && (forall i, k {:trigger rank[i], tails[k]} ::
          0 <= i < |rank| && values[i] >= 0 && 0 <= k < |tails| && rank[i] == k + 1 ==> values[tails[k]] <= values[i])
  }

  // The predecessor link of a position leads one rank down, to the left, to a smaller value.
  ghost predicate Linked(values: seq<int>, rank: seq<nat>, predecessors: seq<int>) {
    && |rank| <= |values| == |predecessors|
    && (forall i {:trigger predecessors[i]} :: 0 <= i < |rank| && values[i] >= 0 && rank[i] == 1 ==>
        predecessors[i] == -1)
    && (forall i {:trigger predecessors[i]} :: 0 <= i < |rank| && values[i] >= 0 && rank[i] > 1 ==>
          0 <= predecessors[i] < i
          && 0 <= values[predecessors[i]] < values[i]
          && rank[predecessors[i]] == rank[i] - 1)
    && (forall i :: |rank| <= i < |values| ==> predecessors[i] == -1)
  }

  // Ranks grow along an increasing subsequence, so its last rank bounds its length.
  lemma {:induction false} RankBoundsLength(values: seq<int>, rank: seq<nat>, positions: set<nat>, last: nat)
    requires |rank| == |values| && Ranked(values, rank)
    requires forall i :: 0 <= i < |values| && values[i] >= 0 ==> 1 <= rank[i]
    requires Increasing(values, positions)
    requires last in positions && forall i :: i in positions ==> i <= last
    ensures |positions| <= rank[last]
    decreases |positions|
  {
    var rest := positions - {last};
    assert |positions| == |rest| + 1;
    if rest != {} {
      var next := Greatest(rest);
      RankBoundsLength(values, rank, rest, next);
      assert values[next] < values[last];
    }
  }

  lemma {:induction false} Greatest(s: set<nat>) returns (g: nat)
    requires s != {}
    ensures g in s && forall i :: i in s ==> i <= g
    decreases |s|
  {
    var x :| x in s;
    if s == {x} {
      g := x;
    } else {
      var rest := s - {x};
      assert |s| == |rest| + 1;
      var y := Greatest(rest);
      g := if x < y then y else x;
      forall i | i in s ensures i <= g {
        assert i == x || i in rest;
      }
    }
  }

  lemma NoneLonger(values: seq<int>, rank: seq<nat>, tails: seq<nat>)
    requires |rank| == |values| && Ranked(values, rank)
    requires TailValues(values, tails) && TailsLeast(values, rank, tails)
    ensures forall other: set<nat> :: Increasing(values, other) ==> |other| <= |tails|
  {
    forall other: set<nat> | Increasing(values, other) ensures |other| <= |tails| {
      if other != {} {
        var last := Greatest(other);
        RankBoundsLength(values, rank, other, last);
      }
    }
  }

  // What the main loop knows after the first |rank| positions.
  ghost predicate Scanned(values: seq<int>, rank: seq<nat>, tails: seq<nat>, predecessors: seq<int>) {
    && Ranked(values, rank)
    && TailRanks(rank, tails)
    && TailValues(values, tails)
    && TailsLeast(values, rank, tails)
    && Linked(values, rank, predecessors)
  }

  function Extended(tails: seq<nat>, low: nat, index: nat): seq<nat>
    requires low <= |tails|
  {
    if low < |tails| then tails[low := index] else tails + [index]
  }

  ghost predicate IsLowerBound(values: seq<int>, tails: seq<nat>, value: int, low: nat)
    requires TailValues(values, tails)
  {
    && low <= |tails|
    && (forall k :: 0 <= k < low ==> values[tails[k]] < value)
    && (forall k :: low <= k < |tails| ==> value <= values[tails[k]])
  }

  // The next position gets a rank above every earlier position with a smaller value.
  lemma ExtendRanked(values: seq<int>, rank: seq<nat>, tails: seq<nat>, low: nat)
    requires |rank| < |values| && values[|rank|] >= 0
    requires TailValues(values, tails) && TailsLeast(values, rank, tails) && Ranked(values, rank)
    requires IsLowerBound(values, tails, values[|rank|], low)
    ensures Ranked(values, rank + [low + 1])
  {
    forall i | 0 <= i < |rank| && 0 <= values[i] < values[|rank|] ensures rank[i] < low + 1 {
      var r := rank[i] - 1;
      assert values[tails[r]] <= values[i];
    }
  }

  // Putting that position at tails[low] keeps the tails increasing ...
  lemma ExtendTailValues(values: seq<int>, tails: seq<nat>, low: nat, index: nat)
    requires index < |values| && values[index] >= 0
    requires TailValues(values, tails) && IsLowerBound(values, tails, values[index], low)
    requires low < |tails| ==> forall k :: low < k < |tails| ==> values[tails[low]] < values[tails[k]]
    ensures TailValues(values, Extended(tails, low, index))
  {
    var tails' := Extended(tails, low, index);
    assert forall k :: 0 <= k < |tails'| && k != low ==> k < |tails| && tails'[k] == tails[k];
    assert tails'[low] == index;
  }

  // ... and least for their rank.
  lemma ExtendTailsLeast(values: seq<int>, rank: seq<nat>, tails: seq<nat>, low: nat)
    requires |rank| < |values| && values[|rank|] >= 0
    requires TailValues(values, tails) && TailsLeast(values, rank, tails)
    requires IsLowerBound(values, tails, values[|rank|], low)
    requires TailValues(values, Extended(tails, low, |rank|))
    ensures TailsLeast(values, rank + [low + 1], Extended(tails, low, |rank|))
  {
    var rank', tails' := rank + [low + 1], Extended(tails, low, |rank|);
    assert forall k :: 0 <= k < |tails'| ==> tails'[k] == if k == low then |rank| else tails[k];
  }

  // The inner binary search: the first tail whose value is not below the given one.
  method LowerBound(values: seq<int>, tails: seq<nat>, value: int) returns (low: nat)
    requires TailValues(values, tails)
    ensures IsLowerBound(values, tails, value, low)
  {
    low := 0;
    var high := |tails|;
    while low < high
      invariant 0 <= low <= high <= |tails|
      invariant forall k :: 0 <= k < low ==> values[tails[k]] < value
      invariant forall k :: high <= k < |tails| ==> value <= values[tails[k]]
    {
      var mid := (low + high) / 2;
      if values[tails[mid]] < value {
        low := mid + 1;
      } else {
        high := mid;
      }
    }
  }

  lemma SkipNegative(values: seq<int>, rank: seq<nat>, tails: seq<nat>, predecessors: seq<int>)
    requires Scanned(values, rank, tails, predecessors) && |rank| < |values| && values[|rank|] < 0
    ensures Scanned(values, rank + [0], tails, predecessors)
  {
  }

  lemma ExtendScan(values: seq<int>, rank: seq<nat>, tails: seq<nat>, predecessors: seq<int>, low: nat)
    requires Scanned(values, rank, tails, predecessors) && |rank| < |values| && values[|rank|] >= 0
    requires IsLowerBound(values, tails, values[|rank|], low)
    ensures Scanned(values, rank + [low + 1], Extended(tails, low, |rank|),
                    if low > 0 then predecessors[|rank| := tails[low - 1]] else predecessors)
  {
    ExtendRanked(values, rank, tails, low);
    ExtendTailValues(values, tails, low, |rank|);
    ExtendTailsLeast(values, rank, tails, low);
    ExtendTailRanks(rank, tails, low);
    assert low > 0 ==> tails[low - 1] < |rank| && rank[tails[low - 1]] == low;
    ExtendLinked(values, rank, tails, low, predecessors);
  }

  // The predecessor of the new position is the tail one rank below it.
  lemma ExtendLinked(values: seq<int>, rank: seq<nat>, tails: seq<nat>, low: nat, predecessors: seq<int>)
    requires |rank| < |values| && values[|rank|] >= 0 && low <= |tails|
    requires Linked(values, rank, predecessors)
    requires low > 0 ==> tails[low - 1] < |rank| && rank[tails[low - 1]] == low
    requires low > 0 ==> 0 <= values[tails[low - 1]] < values[|rank|]
    ensures Linked(values, rank + [low + 1],
                   if low > 0 then predecessors[|rank| := tails[low - 1]] else predecessors)
  {
    var n, rank' := |rank|, rank + [low + 1];
    var links := if low > 0 then predecessors[n := tails[low - 1]] else predecessors;
    assert forall i :: 0 <= i < n ==> rank'[i] == rank[i] && links[i] == predecessors[i];
    assert rank'[n] == low + 1 && links[n] == if low > 0 then tails[low - 1] else -1;
  }

  lemma ExtendTailRanks(rank: seq<nat>, tails: seq<nat>, low: nat)
    requires TailRanks(rank, tails) && low <= |tails|
    ensures TailRanks(rank + [low + 1], Extended(tails, low, |rank|))
  {
    var rank', tails' := rank + [low + 1], Extended(tails, low, |rank|);
    forall k | 0 <= k < |tails'| ensures tails'[k] < |rank'| && rank'[tails'[k]] == k + 1 {
      assert tails'[k] == if k == low then |rank| else tails[k];
    }
  }

  // The closing loop: walk the links back from the last tail.
  method FollowLinks(values: seq<int>, ghost rank: seq<nat>, tails: seq<nat>, predecessors: seq<int>)
    returns (positions: set<nat>)
    requires |rank| == |values|
    requires TailValues(values, tails) && TailRanks(rank, tails)
    requires Linked(values, rank, predecessors)
    requires forall i :: 0 <= i < |rank| && values[i] >= 0 ==> 1 <= rank[i]
    ensures Increasing(values, positions) && |positions| == |tails|
  {
    positions := {};
    var at: int := if |tails| == 0 then -1 else tails[|tails| - 1];
    while at >= 0
      invariant -1 <= at < |values|
      invariant Increasing(values, positions)
      invariant at >= 0 ==> values[at] >= 0 && forall p :: p in positions ==> at < p && values[at] < values[p]
      invariant |positions| + (if at >= 0 then rank[at] else 0) == |tails|
    {
      positions := positions + {at};
      at := predecessors[at];
    }
  }

  method LisPositions(values: seq<int>) returns (positions: set<nat>)
    ensures Longest(values, positions)
  {
    var predecessors := new int[|values|](_ => -1);
    var tails: seq<nat> := [];
    ghost var rank: seq<nat> := [];
    for index := 0 to |values|
      invariant |rank| == index
      invariant Scanned(values, rank, tails, predecessors[..])
    {
      var value := values[index];
      if value < 0 {
        SkipNegative(values, rank, tails, predecessors[..]);
        rank := rank + [0];
      } else {
        var low := LowerBound(values, tails, value);
        ExtendScan(values, rank, tails, predecessors[..], low);
        if low > 0 {
          predecessors[index] := tails[low - 1];
        }
        tails := Extended(tails, low, index);
        rank := rank + [low + 1];
      }
    }
    positions := FollowLinks(values, rank, tails, predecessors[..]);
    NoneLonger(values, rank, tails);
  }
}
