/** Stable sorting by a comparison, and the fact that its result is unique. */
module StableSort {
  import opened Sequences

  // A comparison that is total and transitive on the elements of s.
  ghost predicate TotalPreorderOn<T>(s: seq<T>, leq: (T, T) -> bool) {
    && (forall x, y :: x in s && y in s ==> leq(x, y) || leq(y, x))
    && (forall x, y, z :: x in s && y in s && z in s && leq(x, y) && leq(y, z) ==> leq(x, z))
  }

  ghost predicate Sorted<T>(s: seq<T>, leq: (T, T) -> bool) {
    forall i, j :: 0 <= i < j < |s| ==> leq(s[i], s[j])
  }

  // The elements of s that compare equal to x, in order.
  function Class<T>(s: seq<T>, x: T, leq: (T, T) -> bool): seq<T> {
    if s == [] then [] else
      var rest := Class(s[1..], x, leq);
      if leq(x, s[0]) && leq(s[0], x) then [s[0]] + rest else rest
  }

  // r holds the elements of s in order, ties in the order of s.
  ghost predicate StableSortOf<T>(s: seq<T>, r: seq<T>, leq: (T, T) -> bool) {
    && multiset(r) == multiset(s)
    && Sorted(r, leq)
    && forall x :: x in s ==> Class(r, x, leq) == Class(s, x, leq)
  }

  lemma {:induction false} ClassMembers<T>(s: seq<T>, x: T, leq: (T, T) -> bool)
    ensures forall y :: y in Class(s, x, leq) <==> y in s && leq(x, y) && leq(y, x)
  {
    if s != [] {
      ClassMembers(s[1..], x, leq);
      assert s == [s[0]] + s[1..];
    }
  }

  function Insert<T>(x: T, s: seq<T>, leq: (T, T) -> bool): seq<T> {
    if s == [] || leq(x, s[0]) then [x] + s else [s[0]] + Insert(x, s[1..], leq)
  }

  function Sort<T>(s: seq<T>, leq: (T, T) -> bool): seq<T> {
    if s == [] then [] else Insert(s[0], Sort(s[1..], leq), leq)
  }

  lemma {:induction false} InsertElements<T>(x: T, s: seq<T>, leq: (T, T) -> bool)
    ensures multiset(Insert(x, s, leq)) == multiset{x} + multiset(s)
  {
    if s != [] && !leq(x, s[0]) {
      InsertElements(x, s[1..], leq);
      assert s == [s[0]] + s[1..];
    }
  }

  lemma {:induction false} SortElements<T>(s: seq<T>, leq: (T, T) -> bool)
    ensures multiset(Sort(s, leq)) == multiset(s)
  {
    if s != [] {
      SortElements(s[1..], leq);
      InsertElements(s[0], Sort(s[1..], leq), leq);
      assert s == [s[0]] + s[1..];
    }
  }

  lemma SameElements<T>(s: seq<T>, r: seq<T>)
    requires multiset(s) == multiset(r)
    ensures forall x :: x in s ==> x in r
    ensures forall x :: x in r ==> x in s
    ensures |s| == |r|
  {
    forall x | x in s ensures x in r {
      assert x in multiset(r);
    }
    forall x | x in r ensures x in s {
      assert x in multiset(s);
    }
    assert |multiset(s)| == |multiset(r)|;
  }

  // A rearrangement of a sequence without repetition has none either.
  lemma PermutationDistinct<T>(s: seq<T>, r: seq<T>)
    requires Distinct(s) && multiset(s) == multiset(r)
    ensures Distinct(r) && SetOf(r) == SetOf(s)
  {
    SameElements(s, r);
    DistinctSize(s);
    assert SetOf(r) == SetOf(s);
    SizeDistinct(r);
  }

  ghost predicate Within<T>(s: seq<T>, domain: seq<T>) {
    forall x :: x in s ==> x in domain
  }

  lemma WithinTail<T>(s: seq<T>, domain: seq<T>)
    requires s != [] && Within(s, domain)
    ensures Within(s[1..], domain)
  {
    forall x | x in s[1..] ensures x in s { }
  }

  // Inserting x into a sorted sequence keeps it sorted.
  lemma {:induction false} InsertSorted<T>(x: T, s: seq<T>, domain: seq<T>, leq: (T, T) -> bool)
    requires TotalPreorderOn(domain, leq) && x in domain && Within(s, domain)
    requires Sorted(s, leq)
    ensures Sorted(Insert(x, s, leq), leq)
  {
    if s == [] {
    } else if leq(x, s[0]) {
      forall j | 0 <= j < |s| ensures leq(x, s[j]) {
        assert s[j] in domain;
      }
    } else {
      var rest := Insert(x, s[1..], leq);
      WithinTail(s, domain);
      InsertSorted(x, s[1..], domain, leq);
      InsertElements(x, s[1..], leq);
      forall y | y in rest ensures leq(s[0], y) {
        assert y in multiset(rest);
        assert y in multiset{x} || y in multiset(s[1..]);
        assert s[0] in domain;
      }
    }
  }

  lemma SortWithin<T>(s: seq<T>, domain: seq<T>, leq: (T, T) -> bool)
    requires Within(s, domain)
    ensures Within(Sort(s, leq), domain)
  {
    SortElements(s, leq);
    var r := Sort(s, leq);
    SameElements(r, s);
    assert forall x :: x in r ==> x in s;
  }

  lemma {:induction false} SortSorted<T>(s: seq<T>, domain: seq<T>, leq: (T, T) -> bool)
    requires TotalPreorderOn(domain, leq) && Within(s, domain)
    ensures Sorted(Sort(s, leq), leq)
  {
    if s != [] {
      assert s[0] in s;
      WithinTail(s, domain);
      SortSorted(s[1..], domain, leq);
      SortWithin(s[1..], domain, leq);
      InsertSorted(s[0], Sort(s[1..], leq), domain, leq);
    }
  }

  // Insertion puts a new element before all that compare equal to it.
  lemma {:induction false} InsertClass<T>(x: T, s: seq<T>, z: T, domain: seq<T>, leq: (T, T) -> bool)
    requires TotalPreorderOn(domain, leq) && x in domain && z in domain && Within(s, domain)
    ensures Class(Insert(x, s, leq), z, leq) == Class([x] + s, z, leq)
  {
    assert ([x] + s)[1..] == s;
    if s != [] && !leq(x, s[0]) {
      var h, t := s[0], s[1..];
      assert h in domain;
      WithinTail(s, domain);
      InsertClass(x, t, z, domain, leq);
      var rest := Insert(x, t, leq);
      assert ([h] + rest)[1..] == rest && ([x] + t)[1..] == t;
    }
  }

  lemma {:induction false} SortClass<T>(s: seq<T>, z: T, domain: seq<T>, leq: (T, T) -> bool)
    requires TotalPreorderOn(domain, leq) && z in domain && Within(s, domain)
    ensures Class(Sort(s, leq), z, leq) == Class(s, z, leq)
  {
    if s != [] {
      var rest := Sort(s[1..], leq);
      assert s[0] in s;
      WithinTail(s, domain);
      SortClass(s[1..], z, domain, leq);
      SortWithin(s[1..], domain, leq);
      InsertClass(s[0], rest, z, domain, leq);
      assert ([s[0]] + rest)[1..] == rest;
    }
  }

  lemma SortIsStable<T>(s: seq<T>, leq: (T, T) -> bool)
    requires TotalPreorderOn(s, leq)
    ensures StableSortOf(s, Sort(s, leq), leq)
  {
    SortElements(s, leq);
    SortSorted(s, s, leq);
    forall z | z in s ensures Class(Sort(s, leq), z, leq) == Class(s, z, leq) {
      SortClass(s, z, s, leq);
    }
  }

  // Sorted sequences with the same ties in the same order are the same sequence.
  lemma {:induction false} ClassesDetermine<T>(a: seq<T>, b: seq<T>, domain: seq<T>, leq: (T, T) -> bool)
    requires TotalPreorderOn(domain, leq) && Within(a, domain) && Within(b, domain)
    requires Sorted(a, leq) && Sorted(b, leq)
    requires forall z :: z in domain ==> Class(a, z, leq) == Class(b, z, leq)
    ensures a == b
  {
    if a == [] {
      if b != [] {
        HeadsAgree(b, a, domain, leq);
      }
    } else {
      WithinTail(a, domain);
      HeadsAgree(a, b, domain, leq);
      WithinTail(b, domain);
      forall z | z in domain ensures Class(a[1..], z, leq) == Class(b[1..], z, leq) {
        assert Class(a, z, leq) == Class(b, z, leq);
        if leq(z, a[0]) && leq(a[0], z) {
          assert Class(a[1..], z, leq) == Class(a, z, leq)[1..];
          assert Class(b[1..], z, leq) == Class(b, z, leq)[1..];
        }
      }
      ClassesDetermine(a[1..], b[1..], domain, leq);
      assert a == [a[0]] + a[1..] && b == [b[0]] + b[1..];
    }
  }

  lemma HeadsAgree<T>(a: seq<T>, b: seq<T>, domain: seq<T>, leq: (T, T) -> bool)
    requires TotalPreorderOn(domain, leq) && Within(a, domain) && Within(b, domain)
    requires Sorted(a, leq) && Sorted(b, leq) && a != []
    requires forall z :: z in domain ==> Class(a, z, leq) == Class(b, z, leq)
    ensures b != [] && a[0] == b[0]
  {
    var x := a[0];
    assert leq(x, x);
    assert Class(a, x, leq)[0] == x;
    ClassMembers(b, x, leq);
    assert x in Class(b, x, leq);
    var y := b[0];
    assert y in domain && leq(y, y);
    assert Class(b, y, leq)[0] == y;
    ClassMembers(a, y, leq);
    assert y in Class(a, y, leq);
    // Both heads are least, so they tie, and then each heads the same class.
    assert leq(x, y) && leq(y, x);
    assert Class(b, x, leq)[0] == y;
  }

  // Whatever algorithm produces it, the stable sort of s is Sort(s).
  lemma StableSortUnique<T>(s: seq<T>, r: seq<T>, leq: (T, T) -> bool)
    requires TotalPreorderOn(s, leq) && StableSortOf(s, r, leq)
    ensures r == Sort(s, leq)
  {
    SortIsStable(s, leq);
    SameElements(r, s);
    SortWithin(s, s, leq);
    assert Within(r, s) && Within(Sort(s, leq), s);
    ClassesDetermine(r, Sort(s, leq), s, leq);
  }
}
