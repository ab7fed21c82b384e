/** Vocabulary for sequences: selection, restriction to a set, and position. */
module Sequences {

  ghost predicate Distinct<T>(s: seq<T>) {
    forall i, j :: 0 <= i < j < |s| ==> s[i] != s[j]
  }

  function SetOf<T>(s: seq<T>): set<T> {
    set x | x in s
  }

  // The elements of s that satisfy p, in order (Array.prototype.filter).
  function Select<T>(s: seq<T>, p: T -> bool): seq<T> {
    if s == [] then [] else
      var rest := Select(s[1..], p);
      if p(s[0]) then [s[0]] + rest else rest
  }

  // The elements of s that lie in d, in order.
  function Restrict<T(==)>(s: seq<T>, d: set<T>): seq<T> {
    if s == [] then [] else
      var rest := Restrict(s[1..], d);
      if s[0] in d then [s[0]] + rest else rest
  }

  // The position of the first occurrence of x, or |s| when there is none.
  function IndexOf<T(==)>(s: seq<T>, x: T): (k: nat)
    ensures k <= |s|
    ensures x in s ==> k < |s| && s[k] == x
    ensures x !in s[..k]
  {
    if s == [] || s[0] == x then 0 else
      var k := IndexOf(s[1..], x);
      assert s[..k + 1] == [s[0]] + s[1..][..k];
      k + 1
  }

  lemma {:induction false} SelectConcat<T>(s: seq<T>, t: seq<T>, p: T -> bool)
    ensures Select(s + t, p) == Select(s, p) + Select(t, p)
  {
    if s == [] {
      assert s + t == t;
    } else {
      SelectConcat(s[1..], t, p);
      var u := s + t;
      assert u[0] == s[0] && u[1..] == s[1..] + t;
      var a, b := Select(s[1..], p), Select(t, p);
      assert [s[0]] + (a + b) == ([s[0]] + a) + b;
    }
  }

  lemma {:induction false} SelectMembers<T>(s: seq<T>, p: T -> bool)
    ensures forall x :: x in Select(s, p) ==> x in s && p(x)
    ensures forall x :: x in s && p(x) ==> x in Select(s, p)
    ensures |Select(s, p)| <= |s|
    ensures |Select(s, p)| == |s| ==> Select(s, p) == s
  {
    if s != [] {
      SelectMembers(s[1..], p);
      assert s == [s[0]] + s[1..];
    }
  }

  lemma {:induction false} SelectDistinct<T>(s: seq<T>, p: T -> bool)
    requires Distinct(s)
    ensures Distinct(Select(s, p))
  {
    if s != [] {
      SelectDistinct(s[1..], p);
      SelectMembers(s[1..], p);
      assert s[0] !in s[1..];
    }
  }

  // An element of the tail, and that the tail is without repetition too.
  lemma IndexInTail<T>(s: seq<T>, x: T)
    requires Distinct(s) && s != [] && x in s[1..]
    ensures IndexOf(s, x) == 1 + IndexOf(s[1..], x)
    ensures Distinct(s[1..])
  {
    assert s[0] !in s[1..];
  }

  lemma SelectAt<T>(s: seq<T>, p: T -> bool, i: nat)
    requires s != [] && i < |Select(s, p)| && (p(s[0]) ==> i > 0)
    ensures var rest, k := Select(s[1..], p), if p(s[0]) then i - 1 else i;
            k < |rest| && Select(s, p)[i] == rest[k] && rest[k] in s[1..]
  {
    SelectMembers(s[1..], p);
    var rest, k := Select(s[1..], p), if p(s[0]) then i - 1 else i;
    assert rest[k] in rest;
  }

  // Selected elements keep their order.
  lemma {:induction false} SelectOrder<T>(s: seq<T>, p: T -> bool, i: nat, j: nat)
    requires Distinct(s) && i < j < |Select(s, p)|
    ensures IndexOf(s, Select(s, p)[i]) < IndexOf(s, Select(s, p)[j])
  {
    SelectAt(s, p, j);
    IndexInTail(s, Select(s, p)[j]);
    if !p(s[0]) || i > 0 {
      SelectAt(s, p, i);
      IndexInTail(s, Select(s, p)[i]);
      SelectOrder(s[1..], p, if p(s[0]) then i - 1 else i, if p(s[0]) then j - 1 else j);
    }
  }

  lemma {:induction false} RestrictConcat<T>(s: seq<T>, t: seq<T>, d: set<T>)
    ensures Restrict(s + t, d) == Restrict(s, d) + Restrict(t, d)
  {
    if s == [] {
      assert s + t == t;
    } else {
      RestrictConcat(s[1..], t, d);
      var u := s + t;
      assert u[0] == s[0] && u[1..] == s[1..] + t;
      var a, b := Restrict(s[1..], d), Restrict(t, d);
      assert [s[0]] + (a + b) == ([s[0]] + a) + b;
    }
  }

  lemma {:induction false} RestrictMembers<T>(s: seq<T>, d: set<T>)
    ensures forall x :: x in Restrict(s, d) ==> x in s && x in d
    ensures forall x :: x in s && x in d ==> x in Restrict(s, d)
    ensures |Restrict(s, d)| <= |s|
  {
    if s != [] {
      RestrictMembers(s[1..], d);
      assert s == [s[0]] + s[1..];
    }
  }

  // Restriction depends only on which elements of s lie in the set.
  lemma {:induction false} RestrictCongruence<T>(s: seq<T>, d: set<T>, e: set<T>)
    requires forall x :: x in s ==> (x in d <==> x in e)
    ensures Restrict(s, d) == Restrict(s, e)
  {
    if s != [] {
      RestrictCongruence(s[1..], d, e);
    }
  }

  lemma {:induction false} RestrictAll<T>(s: seq<T>, d: set<T>)
    requires forall x :: x in s ==> x in d
    ensures Restrict(s, d) == s
  {
    if s != [] {
      RestrictAll(s[1..], d);
    }
  }

  lemma {:induction false} RestrictNone<T>(s: seq<T>, d: set<T>)
    requires forall x :: x in s ==> x !in d
    ensures Restrict(s, d) == []
  {
    if s != [] {
      RestrictNone(s[1..], d);
    }
  }

  lemma IndexIs<T>(s: seq<T>, i: nat)
    requires Distinct(s) && i < |s|
    ensures IndexOf(s, s[i]) == i
  {
    assert s[IndexOf(s, s[i])] == s[i];
  }

  // In a sequence without repetition, equal split points cut equal prefixes.
  lemma SamePrefix<T>(p: seq<T>, q: seq<T>, p': seq<T>, q': seq<T>, a: T)
    requires p + q == p' + q'
    requires q != [] && q' != [] && q[0] == a && q'[0] == a
    requires a !in p && a !in p'
    ensures p == p'
  {
    assert (p + q)[|p|] == a && (p' + q')[|p'|] == a;
    assert forall i :: 0 <= i < |p| ==> (p + q)[i] != a;
    assert forall i :: 0 <= i < |p'| ==> (p' + q')[i] != a;
    assert p == (p + q)[..|p|] == (p' + q')[..|p|] == p';
  }

  lemma DistinctSize<T>(s: seq<T>)
    requires Distinct(s)
    ensures |SetOf(s)| == |s|
  {
    if s != [] {
      DistinctSize(s[1..]);
      assert SetOf(s) == {s[0]} + SetOf(s[1..]);
      assert s[0] !in s[1..];
    }
  }

  lemma {:induction false} SizeDistinct<T>(s: seq<T>)
    ensures |SetOf(s)| <= |s|
    ensures |SetOf(s)| == |s| ==> Distinct(s)
  {
    if s != [] {
      SizeDistinct(s[1..]);
      assert SetOf(s) == {s[0]} + SetOf(s[1..]);
      if s[0] in s[1..] {
        assert SetOf(s) == SetOf(s[1..]);
      } else {
        assert forall i :: 0 < i < |s| ==> s[i] == s[1..][i - 1];
      }
    }
  }

  // Two duplicate-free sequences of equal length, one inside the other, have the same elements.
  lemma SameMembers<T>(s: seq<T>, t: seq<T>)
    requires Distinct(s) && Distinct(t) && |s| == |t|
    requires forall x :: x in s ==> x in t
    ensures forall x :: x in t ==> x in s
  {
    DistinctSize(s);
    DistinctSize(t);
    SubsetOfEqualSize(SetOf(s), SetOf(t));
    forall x | x in t ensures x in s {
      assert x in SetOf(t);
    }
  }

  lemma SubsetOfEqualSize<T>(a: set<T>, b: set<T>)
    requires a <= b && |a| == |b|
    ensures a == b
  {
    assert b == a + (b - a);
  }

  lemma DistinctPrefix<T>(s: seq<T>, t: seq<T>)
    requires Distinct(s + t)
    ensures Distinct(s)
  {
    assert forall i :: 0 <= i < |s| ==> s[i] == (s + t)[i];
  }

  lemma Associative<T>(a: seq<T>, b: seq<T>, c: seq<T>)
    ensures a + (b + c) == (a + b) + c
  {
  }

  lemma ConcatMembers<T>(a: seq<T>, b: seq<T>)
    ensures forall x :: x in a + b ==> x in a || x in b
    ensures forall x :: x in a ==> x in a + b
    ensures forall x :: x in b ==> x in a + b
  {
  }

  lemma SubsetSize<T>(a: set<T>, b: set<T>)
    requires a <= b
    ensures |a| <= |b|
  {
    assert b == a + (b - a);
  }
}
