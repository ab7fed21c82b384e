/** The `ol` element of the finder page and `reorderRows`, which permutes its children. */
module ListReorder {
  import opened Wrappers
  import opened Sequences
  import opened LongestIncreasing

  // One `insertBefore(node, anchor)`; no anchor means the end of the list.
  datatype Move<T> = Move(node: T, anchor: Option<T>)

  function Without<T(==)>(s: seq<T>, x: T): seq<T> {
    Restrict(s, SetOf(s) - {x})
  }

  function Moved<T(==)>(s: seq<T>, move: Move<T>): seq<T> {
    var rest := Without(s, move.node);
    match move.anchor
    case None => rest + [move.node]
    case Some(a) =>
      InsertAt(rest, IndexOf(rest, a), move.node)
  }

  function InsertAt<T>(s: seq<T>, k: nat, x: T): seq<T>
    requires k <= |s|
  {
    s[..k] + ([x] + s[k..])
  }

  function Apply<T(==)>(s: seq<T>, moves: seq<Move<T>>): seq<T>
    decreases moves
  {
    if moves == [] then s else Apply(Moved(s, moves[0]), moves[1..])
  }

  class ListElement<T(==)> {
    var children: seq<T>
    // Every insertBefore so far.
    ghost var moves: seq<Move<T>>

    constructor (rows: seq<T>)
      ensures children == rows && moves == []
    {
      children, moves := rows, [];
    }

    // The document raises an error for an anchor that is not a child.
    method InsertBefore(node: T, anchor: Option<T>)
      requires anchor.Some? ==> anchor.value in children && anchor.value != node
      modifies this
      ensures children == Moved(old(children), Move(node, anchor))
      ensures moves == old(moves) + [Move(node, anchor)]
    {
      children := Moved(children, Move(node, anchor));
      moves := moves + [Move(node, anchor)];
    }

    method ReplaceChildren(rows: seq<T>)
      modifies this`children
      ensures children == rows
    {
      children := rows;
    }

    method Append(rows: seq<T>)
      modifies this`children
      ensures children == old(children) + rows
    {
      children := children + rows;
    }
  }

  // ---- What a move does to the order of the nodes it leaves alone

  lemma {:induction false} RestrictTwice<T>(s: seq<T>, d: set<T>, e: set<T>)
    requires e <= d
    ensures Restrict(Restrict(s, d), e) == Restrict(s, e)
  {
    if s != [] {
      RestrictTwice(s[1..], d, e);
      var rest := Restrict(s[1..], d);
      assert ([s[0]] + rest)[1..] == rest;
    }
  }

  lemma {:induction false} RestrictDistinct<T>(s: seq<T>, d: set<T>)
    requires Distinct(s)
    ensures Distinct(Restrict(s, d))
  {
    if s != [] {
      RestrictDistinct(s[1..], d);
      RestrictMembers(s[1..], d);
      assert s[0] !in s[1..];
    }
  }

  lemma WithoutElsewhere<T>(s: seq<T>, x: T, d: set<T>)
    requires x !in d
    ensures Restrict(Without(s, x), d) == Restrict(s, d)
  {
    var there := d * SetOf(s);
    RestrictTwice(s, SetOf(s) - {x}, there);
    RestrictMembers(s, SetOf(s) - {x});
    RestrictCongruence(Without(s, x), d, there);
    RestrictCongruence(s, d, there);
  }

  lemma RestrictInsert<T>(s: seq<T>, k: nat, x: T, d: set<T>)
    requires k <= |s|
    ensures x in d ==> Restrict(InsertAt(s, k, x), d) == Restrict(s[..k], d) + ([x] + Restrict(s[k..], d))
    ensures x !in d ==> Restrict(InsertAt(s, k, x), d) == Restrict(s[..k], d) + Restrict(s[k..], d)
    ensures Restrict(s, d) == Restrict(s[..k], d) + Restrict(s[k..], d)
  {
    var right := [x] + s[k..];
    RestrictConcat(s[..k], right, d);
    RestrictConcat(s[..k], s[k..], d);
    assert s == s[..k] + s[k..];
    assert right[0] == x && right[1..] == s[k..];
  }

  lemma RestrictAround<T>(s: seq<T>, p: nat, d: set<T>)
    requires Distinct(s) && p < |s| && s[p] !in d
    ensures Restrict(s, d) == Restrict(s[..p], d) + Restrict(s[p + 1..], d)
    ensures Restrict(s, d + {s[p]}) == Restrict(s[..p], d) + ([s[p]] + Restrict(s[p + 1..], d))
  {
    var x, left, right := s[p], s[..p], s[p + 1..];
    var others := left + right;
    assert others[..p] == left && others[p..] == right;
    assert s == InsertAt(others, p, x);
    RestrictInsert(others, p, x, d);
    RestrictInsert(others, p, x, d + {x});
    assert x !in left && x !in right;
    RestrictCongruence(left, d, d + {x});
    RestrictCongruence(right, d, d + {x});
  }

  lemma InsertDistinct<T>(s: seq<T>, k: nat, x: T)
    requires k <= |s| && Distinct(s) && x !in s
    ensures Distinct(InsertAt(s, k, x))
    ensures SetOf(InsertAt(s, k, x)) == SetOf(s) + {x}
  {
    var t := InsertAt(s, k, x);
    assert forall i :: 0 <= i < |t| ==> t[i] == if i < k then s[i] else if i == k then x else s[i - 1];
    forall y | y in s ensures y in t {
      var i :| 0 <= i < |s| && s[i] == y;
      assert t[if i < k then i else i + 1] == y;
    }
    assert t[k] == x;
  }

  lemma MovedElsewhere<T>(s: seq<T>, move: Move<T>, d: set<T>)
    requires move.node !in d
    ensures Restrict(Moved(s, move), d) == Restrict(s, d)
  {
    var rest := Without(s, move.node);
    WithoutElsewhere(s, move.node, d);
    match move.anchor
    case None => RestrictConcat(rest, [move.node], d);
    case Some(a) => RestrictInsert(rest, IndexOf(rest, a), move.node, d);
  }

  lemma MovedMembers<T>(s: seq<T>, move: Move<T>)
    requires Distinct(s)
    ensures Distinct(Moved(s, move))
    ensures SetOf(Moved(s, move)) == SetOf(s) + {move.node}
  {
    var rest := Without(s, move.node);
    RestrictMembers(s, SetOf(s) - {move.node});
    RestrictDistinct(s, SetOf(s) - {move.node});
    assert SetOf(rest) == SetOf(s) - {move.node};
    var k := if move.anchor.Some? then IndexOf(rest, move.anchor.value) else |rest|;
    InsertDistinct(rest, k, move.node);
    assert Moved(s, move) == InsertAt(rest, k, move.node);
  }

  // Among the nodes of d, a node moved before a comes to stand right before a.
  lemma MovedBefore<T>(s: seq<T>, node: T, a: T, d: set<T>, left: seq<T>, right: seq<T>)
    requires node !in d && a in d && a in s
    requires Restrict(s, d) == left + right && right != [] && right[0] == a && a !in left
    ensures Restrict(Moved(s, Move(node, Some(a))), d + {node}) == left + ([node] + right)
  {
    var rest := Without(s, node);
    RestrictMembers(s, SetOf(s) - {node});
    WithoutElsewhere(s, node, d);
    var k := IndexOf(rest, a);
    var before, after := rest[..k], rest[k..];
    RestrictInsert(rest, k, node, d);
    RestrictMembers(before, d);
    SamePrefix(Restrict(before, d), Restrict(after, d), left, right, a);
    assert Restrict(after, d) == (left + right)[|left|..] == right;
    RestrictInsert(rest, k, node, d + {node});
    RestrictCongruence(before, d, d + {node});
    RestrictCongruence(after, d, d + {node});
  }

  lemma MovedLast<T>(s: seq<T>, node: T, d: set<T>)
    requires node !in d
    ensures Restrict(Moved(s, Move(node, None)), d + {node}) == Restrict(s, d) + [node]
  {
    var rest := Without(s, node);
    RestrictMembers(s, SetOf(s) - {node});
    WithoutElsewhere(s, node, d);
    RestrictCongruence(rest, d, d + {node});
    RestrictConcat(rest, [node], d + {node});
  }

  // ---- No shorter sequence of moves exists

  lemma {:induction false} ApplyElsewhere<T>(s: seq<T>, moves: seq<Move<T>>, d: set<T>)
    requires forall m :: m in moves ==> m.node !in d
    ensures Restrict(Apply(s, moves), d) == Restrict(s, d)
    decreases moves
  {
    if moves != [] {
      MovedElsewhere(s, moves[0], d);
      ApplyElsewhere(Moved(s, moves[0]), moves[1..], d);
    }
  }

  lemma {:induction false} RestrictOrder<T>(s: seq<T>, d: set<T>, i: nat, j: nat)
    requires Distinct(s) && i < j < |s| && s[i] in d && s[j] in d
    ensures IndexOf(Restrict(s, d), s[i]) < IndexOf(Restrict(s, d), s[j])
  {
    RestrictMembers(s[1..], d);
    var rest := Restrict(s[1..], d);
    assert ([s[0]] + rest)[1..] == rest;
    if i > 0 {
      RestrictOrder(s[1..], d, i - 1, j - 1);
      assert s[i] == s[1..][i - 1] && s[j] == s[1..][j - 1];
    } else {
      assert Restrict(s, d)[0] == s[0] != s[j];
    }
  }

  // The row that stood at each place before, as `nextIndexes` computes it (-1 for a new row).
  function PreviousIndexes<T(==)>(rows: seq<T>): map<T, nat> {
    if rows == [] then map[] else
      var n := |rows| - 1;
      PreviousIndexes(rows[..n])[rows[n] := n]
  }

  function NextIndex<T(==)>(indexes: map<T, nat>, row: T): int {
    if row in indexes then indexes[row] else -1
  }

  function NextIndexes<T(==)>(previous: seq<T>, next: seq<T>): seq<int> {
    var indexes := PreviousIndexes(previous);
    seq(|next|, i requires 0 <= i < |next| => NextIndex(indexes, next[i]))
  }

  lemma {:induction false} PreviousIndexesAre<T>(rows: seq<T>)
    requires Distinct(rows)
    ensures PreviousIndexes(rows).Keys == SetOf(rows)
    ensures forall i :: 0 <= i < |rows| ==> PreviousIndexes(rows)[rows[i]] == i
  {
    if rows != [] {
      var n := |rows| - 1;
      PreviousIndexesAre(rows[..n]);
      assert forall i :: 0 <= i < n ==> rows[i] == rows[..n][i];
      assert SetOf(rows) == SetOf(rows[..n]) + {rows[n]};
    }
  }

  // The places of t whose nodes are outside a set.
  ghost function Untouched<T>(t: seq<T>, moved: set<T>): set<nat> {
    set i: nat | i < |t| && t[i] !in moved
  }

  lemma {:induction false} UntouchedCount<T>(t: seq<T>, moved: set<T>)
    requires Distinct(t)
    ensures |t| <= |Untouched(t, moved)| + |moved|
  {
    if t != [] {
      var n := |t| - 1;
      var x, t' := t[n], t[..n];
      UntouchedCount(t', moved - {x});
      var less := Untouched(t', moved - {x});
      if x in moved {
        assert less <= Untouched(t, moved);
        SubsetSize(less, Untouched(t, moved));
      } else {
        assert moved - {x} == moved;
        assert less + {n} <= Untouched(t, moved);
        SubsetSize(less + {n}, Untouched(t, moved));
      }
    }
  }

  function NodesOf<T(==)>(moves: seq<Move<T>>): set<T> {
    set m | m in moves :: m.node
  }

  lemma {:induction false} NodesOfCount<T>(moves: seq<Move<T>>)
    ensures |NodesOf(moves)| <= |moves|
  {
    if moves != [] {
      NodesOfCount(moves[1..]);
      assert NodesOf(moves) == {moves[0].node} + NodesOf(moves[1..]);
    }
  }

  // Sequences that agree on d put any two nodes of d in the same order.
  lemma SameOrder<T>(s: seq<T>, t: seq<T>, d: set<T>, i: nat, j: nat)
    requires Distinct(s) && Distinct(t) && Restrict(s, d) == Restrict(t, d)
    requires i < j < |t| && t[i] in d && t[j] in d && t[i] in s && t[j] in s
    ensures IndexOf(s, t[i]) < IndexOf(s, t[j])
  {
    RestrictOrder(t, d, i, j);
    var k, l := IndexOf(s, t[i]), IndexOf(s, t[j]);
    if l < k {
      RestrictOrder(s, d, l, k);
    }
  }

  lemma NextIndexIs<T>(previous: seq<T>, next: seq<T>, i: nat)
    requires Distinct(previous) && i < |next|
    ensures next[i] in previous ==> NextIndexes(previous, next)[i] == IndexOf(previous, next[i])
    ensures next[i] !in previous ==> NextIndexes(previous, next)[i] == -1
  {
    PreviousIndexesAre(previous);
  }

  // The nodes that no move touches keep their order: their old places increase.
  lemma UntouchedIncrease<T>(s: seq<T>, moves: seq<Move<T>>, t: seq<T>)
    requires Distinct(s) && Distinct(t) && SetOf(s) == SetOf(t)
    requires Apply(s, moves) == t
    ensures Increasing(NextIndexes(s, t), Untouched(t, NodesOf(moves)))
  {
    var d := SetOf(s) - NodesOf(moves);
    ApplyElsewhere(s, moves, d);
    var u := Untouched(t, NodesOf(moves));
    forall i | i in u ensures i < |t| && t[i] in d && NextIndexes(s, t)[i] == IndexOf(s, t[i]) {
      assert t[i] in SetOf(t);
      NextIndexIs(s, t, i);
    }
    forall i, j | i in u && j in u && i < j ensures NextIndexes(s, t)[i] < NextIndexes(s, t)[j] {
      SameOrder(s, t, d, i, j);
    }
  }

  lemma MovesNeeded<T>(s: seq<T>, moves: seq<Move<T>>, t: seq<T>, keep: set<nat>)
    requires Distinct(s) && Distinct(t) && SetOf(s) == SetOf(t)
    requires Longest(NextIndexes(s, t), keep)
    requires Apply(s, moves) == t
    ensures |moves| >= |t| - |keep|
  {
    UntouchedIncrease(s, moves, t);
    UntouchedCount(t, NodesOf(moves));
    NodesOfCount(moves);
  }

  lemma NoFewerMoves<T>(s: seq<T>, t: seq<T>, keep: set<nat>)
    requires Distinct(s) && Distinct(t) && SetOf(s) == SetOf(t)
    requires Longest(NextIndexes(s, t), keep)
    ensures forall moves :: Apply(s, moves) == t ==> |t| - |keep| <= |moves|
  {
    forall moves | Apply(s, moves) == t ensures |t| - |keep| <= |moves| {
      MovesNeeded(s, moves, t, keep);
    }
  }

  // ---- reorderRows

  lemma {:induction false} ApplyConcat<T>(s: seq<T>, moves: seq<Move<T>>, more: seq<Move<T>>)
    ensures Apply(s, moves + more) == Apply(Apply(s, moves), more)
    decreases moves
  {
    if moves == [] {
      assert moves + more == more;
    } else {
      assert (moves + more)[1..] == moves[1..] + more;
      ApplyConcat(Moved(s, moves[0]), moves[1..], more);
    }
  }

  // The nodes already in their final relative order: those kept, and those from a place on.
  ghost function Placed<T>(next: seq<T>, keep: set<nat>, from: nat): set<T> {
    set i: nat | i < |next| && (i in keep || from <= i) :: next[i]
  }

  lemma PlacedStep<T>(next: seq<T>, keep: set<nat>, from: nat)
    requires Distinct(next) && from < |next| && from !in keep
    ensures next[from] !in Placed(next, keep, from + 1)
    ensures Placed(next, keep, from) == Placed(next, keep, from + 1) + {next[from]}
  {
  }

  // The row of the current place joins, in its final position, those already placed.
  lemma RestrictPlaced<T>(next: seq<T>, keep: set<nat>, from: nat)
    requires Distinct(next) && from < |next| && from !in keep
    ensures var d := Placed(next, keep, from + 1);
            && Restrict(next, d) == Restrict(next[..from], d) + next[from + 1..]
            && Restrict(next, d + {next[from]}) == Restrict(next[..from], d) + ([next[from]] + next[from + 1..])
  {
    var d := Placed(next, keep, from + 1);
    PlacedStep(next, keep, from);
    RestrictAround(next, from, d);
    forall y | y in next[from + 1..] ensures y in d {
      var i :| 0 <= i < |next[from + 1..]| && next[from + 1..][i] == y;
      assert next[from + 1 + i] == y;
    }
    RestrictAll(next[from + 1..], d);
  }

  // The kept rows already stand in their final order.
  lemma {:induction false} RestrictKept<T>(previous: seq<T>, next: seq<T>, keep: set<nat>)
    requires Distinct(previous) && Distinct(next)
    requires forall i :: i in keep ==> i < |next| && next[i] in previous
    requires forall i, j :: i in keep && j in keep && i < j ==> IndexOf(previous, next[i]) < IndexOf(previous, next[j])
    ensures Restrict(previous, Placed(next, keep, |next|)) == Restrict(next, Placed(next, keep, |next|))
    decreases |next|
  {
    var d := Placed(next, keep, |next|);
    if next == [] {
      RestrictNone(previous, d);
    } else {
      var n := |next| - 1;
      var x, next', keep' := next[n], next[..n], keep - {n};
      var d' := Placed(next', keep', n);
      RestrictKept(previous, next', keep');
      RestrictAround(next, n, d');
      assert next[n + 1..] == [];
      assert x !in d';
      if n in keep {
        assert d == d' + {x};
        NothingAfter(previous, d', x);
      } else {
        assert d == d';
      }
    }
  }

  // When all nodes of d come before x, adding x to d adds it at the end.
  lemma NothingAfter<T>(s: seq<T>, d: set<T>, x: T)
    requires Distinct(s) && x in s && x !in d
    requires forall y :: y in d ==> y in s && IndexOf(s, y) < IndexOf(s, x)
    ensures Restrict(s, d + {x}) == Restrict(s, d) + [x]
  {
    var p := IndexOf(s, x);
    RestrictAround(s, p, d);
    forall y | y in s[p + 1..] ensures y !in d {
      var i :| 0 <= i < |s[p + 1..]| && s[p + 1..][i] == y;
      IndexIs(s, p + 1 + i);
    }
    RestrictNone(s[p + 1..], d);
  }

  // Moving the row of place `from` before its right neighbour puts one more place in order.
  lemma PlaceNext<T>(children: seq<T>, next: seq<T>, keep: set<nat>, from: nat, anchor: Option<T>)
    requires Distinct(next) && SetOf(children) == SetOf(next)
    requires from < |next| && from !in keep
    requires anchor == if from + 1 == |next| then None else Some(next[from + 1])
    requires Restrict(children, Placed(next, keep, from + 1)) == Restrict(next, Placed(next, keep, from + 1))
    ensures Restrict(Moved(children, Move(next[from], anchor)), Placed(next, keep, from))
            == Restrict(next, Placed(next, keep, from))
  {
    var d := Placed(next, keep, from + 1);
    PlacedStep(next, keep, from);
    RestrictPlaced(next, keep, from);
    var left, right := Restrict(next[..from], d), next[from + 1..];
    if right == [] {
      MovedLast(children, next[from], d);
    } else {
      var a := next[from + 1];
      RestrictMembers(next[..from], d);
      assert a !in next[..from];
      assert a in SetOf(next);
      MovedBefore(children, next[from], a, d, left, right);
    }
  }

  // The loop's progress: kept rows and all rows from a place on stand in their final order.
  ghost predicate OrderedFrom<T>(children: seq<T>, next: seq<T>, keep: set<nat>, from: nat) {
    && Distinct(children) && Distinct(next) && SetOf(children) == SetOf(next)
    && Restrict(children, Placed(next, keep, from)) == Restrict(next, Placed(next, keep, from))
  }

  lemma OrderedPlace<T>(children: seq<T>, next: seq<T>, keep: set<nat>, from: nat, anchor: Option<T>)
    requires from < |next| && from !in keep
    requires OrderedFrom(children, next, keep, from + 1)
    requires anchor == if from + 1 == |next| then None else Some(next[from + 1])
    ensures anchor.Some? ==> anchor.value in children && anchor.value != next[from]
    ensures OrderedFrom(Moved(children, Move(next[from], anchor)), next, keep, from)
  {
    PlaceNext(children, next, keep, from, anchor);
    MovedMembers(children, Move(next[from], anchor));
    assert next[from] in SetOf(next);
    assert anchor.Some? ==> anchor.value in SetOf(next);
  }

  lemma OrderedAll<T>(children: seq<T>, next: seq<T>, keep: set<nat>)
    requires OrderedFrom(children, next, keep, 0)
    ensures children == next
  {
    var d := Placed(next, keep, 0);
    forall x | x in SetOf(next) ensures x in d {
      assert next[IndexOf(next, x)] == x;
    }
    assert forall x :: x in children ==> x in SetOf(children);
    assert forall x :: x in next ==> x in SetOf(next);
    RestrictAll(children, d);
    RestrictAll(next, d);
  }

  lemma KeptInOrder<T>(previous: seq<T>, next: seq<T>, keep: set<nat>)
    requires Distinct(previous) && Distinct(next) && SetOf(previous) == SetOf(next)
    requires Increasing(NextIndexes(previous, next), keep)
    ensures OrderedFrom(previous, next, keep, |next|)
  {
    forall i | i in keep ensures NextIndexes(previous, next)[i] == IndexOf(previous, next[i]) && next[i] in previous {
      NextIndexIs(previous, next, i);
    }
    RestrictKept(previous, next, keep);
  }

  ghost function KeptFrom(keep: set<nat>, from: nat): set<nat> {
    set i | i in keep && from <= i
  }

  lemma KeptFromStep(keep: set<nat>, from: nat)
    ensures |KeptFrom(keep, from)| == |KeptFrom(keep, from + 1)| + if from in keep then 1 else 0
  {
    if from in keep {
      assert KeptFrom(keep, from) == KeptFrom(keep, from + 1) + {from};
    } else {
      assert KeptFrom(keep, from) == KeptFrom(keep, from + 1);
    }
  }

  // The branch test `n - keep > n / 4`, cleared of the fraction.
  predicate TooManyMoves(n: nat, kept: nat) {
    4 * (n - kept) > n
  }

  lemma QuarterIs(n: nat, kept: nat)
    ensures TooManyMoves(n, kept) <==> (n - kept) as real > n as real / 4.0
  {
    assert TooManyMoves(n, kept) <==> 4.0 * (n - kept) as real > n as real;
  }

  method ReorderRows<T(==)>(list: ListElement<T>, visibleRows: seq<T>, nextRows: seq<T>)
    returns (ghost keep: set<nat>)
    requires list.children == visibleRows
    requires Distinct(visibleRows) && Distinct(nextRows) && SetOf(visibleRows) == SetOf(nextRows)
    modifies list
    ensures list.children == nextRows
    ensures Longest(NextIndexes(visibleRows, nextRows), keep)
    // more than a quarter of the rows to move: no move is made
    ensures (|nextRows| - |keep|) as real > |nextRows| as real / 4.0 ==> list.moves == old(list.moves)
    ensures (|nextRows| - |keep|) as real <= |nextRows| as real / 4.0 ==>
              && old(list.moves) <= list.moves
              && Apply(visibleRows, list.moves[|old(list.moves)|..]) == nextRows
              && |list.moves| - |old(list.moves)| == |nextRows| - |keep|
              // and no other moves from the old order to the new are fewer
              && forall other :: Apply(visibleRows, other) == nextRows ==>
                   |list.moves| - |old(list.moves)| <= |other|
  {
    var nextIndexes := NextIndexes(visibleRows, nextRows);
    var kept := LisPositions(nextIndexes);
    keep := kept;
    QuarterIs(|nextRows|, |kept|);
    if TooManyMoves(|nextRows|, |kept|) {
      list.ReplaceChildren(nextRows);
      return;
    }
    KeptInOrder(visibleRows, nextRows, keep);
    ghost var done: seq<Move<T>> := [];
    var anchor: Option<T> := None;
    assert KeptFrom(keep, |nextRows|) == {};
    for index := |nextRows| downto 0
      invariant anchor == if index == |nextRows| then None else Some(nextRows[index])
      invariant OrderedFrom(list.children, nextRows, keep, index)
      invariant list.moves == old(list.moves) + done && Apply(visibleRows, done) == list.children
      invariant |done| == |nextRows| - index - |KeptFrom(keep, index)|
    {
      var row := nextRows[index];
      KeptFromStep(keep, index);
      if index in kept {
        assert Placed(nextRows, keep, index) == Placed(nextRows, keep, index + 1);
        anchor := Some(row);
      } else {
        OrderedPlace(list.children, nextRows, keep, index, anchor);
        ApplyConcat(visibleRows, done, [Move(row, anchor)]);
        list.InsertBefore(row, anchor);
        done := done + [Move(row, anchor)];
        anchor := Some(row);
      }
    }
    assert KeptFrom(keep, 0) == keep;
    OrderedAll(list.children, nextRows, keep);
    assert list.moves[|old(list.moves)|..] == done;
    NoFewerMoves(visibleRows, nextRows, keep);
  }
}
