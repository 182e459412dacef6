// Stable sorting by a comparison, and the uniqueness facts that make the
// program's outputs independent of the order in which its inputs arrive.
module Sorting {

  ghost predicate TotalOrder<T(!new)>(leq: (T, T) -> bool) {
    && (forall x, y {:trigger leq(x, y)} :: leq(x, y) || leq(y, x))
    && (forall x, y {:trigger leq(x, y), leq(y, x)} :: leq(x, y) && leq(y, x) ==> x == y)
    && (forall x, y, z {:trigger leq(x, y), leq(y, z)} :: leq(x, y) && leq(y, z) ==> leq(x, z))
  }

  ghost predicate TotalPreorder<T(!new)>(leq: (T, T) -> bool) {
    && (forall x, y {:trigger leq(x, y)} :: leq(x, y) || leq(y, x))
    && (forall x, y, z {:trigger leq(x, y), leq(y, z)} :: leq(x, y) && leq(y, z) ==> leq(x, z))
  }

  // Comparing by a key.
  lemma PulledBack<T(!new), U(!new)>(leq: (U, U) -> bool, key: T -> U, order: (T, T) -> bool)
    requires TotalOrder(leq) && forall a, b :: order(a, b) <==> leq(key(a), key(b))
    ensures TotalPreorder(order)
  {
  }

  ghost predicate SortedBy<T>(s: seq<T>, leq: (T, T) -> bool) {
    forall i, j :: 0 <= i < j < |s| ==> leq(s[i], s[j])
  }

  // Elements that compare equal in both directions are the same element.
  ghost predicate AntisymmetricOn<T>(s: seq<T>, leq: (T, T) -> bool) {
    forall x, y :: x in s && y in s && leq(x, y) && leq(y, x) ==> x == y
  }

  function Insert<T>(x: T, s: seq<T>, leq: (T, T) -> bool): (r: seq<T>)
    ensures multiset(r) == multiset{x} + multiset(s)
    ensures |r| == |s| + 1
  {
    if s == [] || leq(x, s[0]) then
      [x] + s
    else
      assert s == [s[0]] + s[1..];
      [s[0]] + Insert(x, s[1..], leq)
  }

  // The sort of the JavaScript library: a stable sort.
  function Sort<T>(s: seq<T>, leq: (T, T) -> bool): (r: seq<T>)
    ensures multiset(r) == multiset(s)
    ensures |r| == |s|
  {
    if s == [] then
      []
    else
      assert s == [s[0]] + s[1..];
      Insert(s[0], Sort(s[1..], leq), leq)
  }

  lemma {:induction false} InsertKeepsSorted<T(!new)>(x: T, s: seq<T>, leq: (T, T) -> bool)
    requires TotalPreorder(leq) && SortedBy(s, leq)
    ensures SortedBy(Insert(x, s, leq), leq)
  {
    if s == [] {
    } else if leq(x, s[0]) {
      assert forall j :: 0 <= j < |s| ==> leq(s[0], s[j]);
    } else {
      InsertKeepsSorted(x, s[1..], leq);
      var rest := Insert(x, s[1..], leq);
      forall y | y in rest ensures leq(s[0], y) {
        assert y in multiset(rest);
        assert y == x || y in s[1..];
      }
    }
  }

  lemma {:induction false} SortSorts<T(!new)>(s: seq<T>, leq: (T, T) -> bool)
    requires TotalPreorder(leq)
    ensures SortedBy(Sort(s, leq), leq)
  {
    if s == [] {
    } else {
      SortSorts(s[1..], leq);
      InsertKeepsSorted(s[0], Sort(s[1..], leq), leq);
    }
  }

  // Sorted by a key means that the keys come out in order.
  lemma SortsByKey<T(!new), U(!new)>(s: seq<T>, leq: (U, U) -> bool, key: T -> U, order: (T, T) -> bool)
    requires TotalPreorder(leq) && forall a, b :: order(a, b) <==> leq(key(a), key(b))
    ensures var r := Sort(s, order); forall i, j :: 0 <= i < j < |r| ==> leq(key(r[i]), key(r[j]))
  {
    hide Sort;
    SortSorts(s, order);
  }

  lemma SameElements<T>(a: seq<T>, b: seq<T>)
    requires multiset(a) == multiset(b)
    ensures |a| == |b| && forall x :: x in a <==> x in b
  {
    assert |multiset(a)| == |multiset(b)|;
    forall x ensures x in a <==> x in b {
      assert x in a <==> x in multiset(a);
      assert x in b <==> x in multiset(b);
    }
  }

  lemma LeastIsFirst<T(!new)>(a: seq<T>, x: T, leq: (T, T) -> bool)
    requires TotalPreorder(leq) && SortedBy(a, leq) && x in a
    ensures leq(a[0], x)
  {
    var i :| 0 <= i < |a| && a[i] == x;
    assert leq(a[0], a[0]);
    assert i == 0 || leq(a[0], a[i]);
  }

  // A sorted arrangement of given elements is unique when ties are identical.
  lemma {:induction false} SortedUnique<T(!new)>(a: seq<T>, b: seq<T>, leq: (T, T) -> bool)
    requires TotalPreorder(leq) && AntisymmetricOn(a, leq)
    requires SortedBy(a, leq) && SortedBy(b, leq) && multiset(a) == multiset(b)
    ensures a == b
  {
    SameElements(a, b);
    if a != [] {
      LeastIsFirst(a, b[0], leq);
      LeastIsFirst(b, a[0], leq);
      assert a[0] == b[0];
      DropFirst(a, b);
      SortedUnique(a[1..], b[1..], leq);
      assert a == [a[0]] + a[1..] && b == [b[0]] + b[1..];
    }
  }

  lemma DropFirst<T>(a: seq<T>, b: seq<T>)
    requires multiset(a) == multiset(b) && a != [] && b != [] && a[0] == b[0]
    ensures multiset(a[1..]) == multiset(b[1..])
  {
    assert a == [a[0]] + a[1..] && b == [b[0]] + b[1..];
    assert multiset(a[1..]) == multiset(a) - multiset{a[0]};
    assert multiset(b[1..]) == multiset(b) - multiset{b[0]};
  }

  lemma SortIgnoresOrder<T(!new)>(a: seq<T>, b: seq<T>, leq: (T, T) -> bool)
    requires TotalPreorder(leq) && AntisymmetricOn(a, leq) && multiset(a) == multiset(b)
    ensures Sort(a, leq) == Sort(b, leq)
  {
    SortSorts(a, leq);
    SortSorts(b, leq);
    SameElements(Sort(a, leq), a);
    SortedUnique(Sort(a, leq), Sort(b, leq), leq);
  }

  function Keep<T(!new)>(s: seq<T>, p: T -> bool): (r: seq<T>)
    ensures forall x :: x in r <==> x in s && p(x)
  {
    if s == [] then [] else (if p(s[0]) then [s[0]] else []) + Keep(s[1..], p)
  }

  // `tie` selects the elements that compare equal to `y` in both directions.
  ghost predicate TiesOf<T(!new)>(leq: (T, T) -> bool, y: T, tie: T -> bool) {
    forall z :: tie(z) <==> leq(y, z) && leq(z, y)
  }

  lemma NoTieAcross<T(!new)>(leq: (T, T) -> bool, y: T, tie: T -> bool, x: T, first: T)
    requires TotalPreorder(leq) && TiesOf(leq, y, tie) && !leq(x, first)
    ensures !(tie(x) && tie(first))
  {
  }

  lemma {:induction false} InsertAmongTies<T(!new)>(x: T, s: seq<T>, leq: (T, T) -> bool, y: T, tie: T -> bool)
    requires TotalPreorder(leq) && TiesOf(leq, y, tie)
    ensures Keep(Insert(x, s, leq), tie) == (if tie(x) then [x] else []) + Keep(s, tie)
  {
    hide TotalPreorder, TiesOf, Keep;
    if s == [] || leq(x, s[0]) {
      KeepOfCons(x, s, tie);
    } else {
      var rest := Insert(x, s[1..], leq);
      InsertAmongTies(x, s[1..], leq, y, tie);
      NoTieAcross(leq, y, tie, x, s[0]);
      assert s == [s[0]] + s[1..];
      KeepOfCons(s[0], s[1..], tie);
      KeepOfCons(s[0], rest, tie);
    }
  }

  // Elements that tie keep the order in which they were supplied.
  lemma {:induction false} SortIsStable<T(!new)>(s: seq<T>, leq: (T, T) -> bool, y: T, tie: T -> bool)
    requires TotalPreorder(leq) && TiesOf(leq, y, tie)
    ensures Keep(Sort(s, leq), tie) == Keep(s, tie)
  {
    if s != [] {
      hide TotalPreorder, TiesOf, Keep;
      SortIsStable(s[1..], leq, y, tie);
      InsertAmongTies(s[0], Sort(s[1..], leq), leq, y, tie);
      KeepOfCons(s[0], s[1..], tie);
      assert s == [s[0]] + s[1..];
    }
  }

  predicate NoDuplicates<T(==)>(s: seq<T>) {
    forall i, j :: 0 <= i < j < |s| ==> s[i] != s[j]
  }

  lemma {:induction false} CountWithoutDuplicates<T(!new)>(s: seq<T>, x: T)
    requires NoDuplicates(s)
    ensures multiset(s)[x] == if x in s then 1 else 0
  {
    if s != [] {
      assert s == [s[0]] + s[1..];
      CountWithoutDuplicates(s[1..], x);
      assert s[0] !in s[1..];
    }
  }

  lemma CountedTwice<T(!new)>(s: seq<T>, i: nat, j: nat)
    requires i < j < |s| && s[i] == s[j]
    ensures multiset(s)[s[i]] >= 2
  {
    assert s == s[..i] + [s[i]] + s[i + 1..j] + [s[j]] + s[j + 1..];
  }

  lemma RearrangedWithoutDuplicates<T(!new)>(a: seq<T>, b: seq<T>)
    requires NoDuplicates(a) && multiset(a) == multiset(b)
    ensures NoDuplicates(b)
  {
    forall i, j | 0 <= i < j < |b| ensures b[i] != b[j] {
      CountWithoutDuplicates(a, b[i]);
      if b[i] == b[j] {
        CountedTwice(b, i, j);
      }
    }
  }

  // Two listings of the same elements are rearrangements of one another.
  lemma ListingsAgree<T(!new)>(a: seq<T>, b: seq<T>)
    requires NoDuplicates(a) && NoDuplicates(b) && (forall x :: x in a <==> x in b)
    ensures multiset(a) == multiset(b)
  {
    forall x ensures multiset(a)[x] == multiset(b)[x] {
      CountWithoutDuplicates(a, x);
      CountWithoutDuplicates(b, x);
    }
  }

  function Map<T, U>(f: T -> U, s: seq<T>): (r: seq<U>)
    ensures |r| == |s| && forall i :: 0 <= i < |s| ==> r[i] == f(s[i])
  {
    if s == [] then [] else [f(s[0])] + Map(f, s[1..])
  }

  lemma MapAppend<T, U>(f: T -> U, s: seq<T>, x: T)
    ensures Map(f, s + [x]) == Map(f, s) + [f(x)]
  {
  }

  ghost predicate KeepsOrder<T(!new), U>(f: T -> U, leqT: (T, T) -> bool, leqU: (U, U) -> bool) {
    forall x, y {:trigger leqT(x, y)} {:trigger leqU(f(x), f(y))} :: leqT(x, y) <==> leqU(f(x), f(y))
  }

  lemma {:induction false} InsertCommutes<T(!new), U>(f: T -> U, x: T, s: seq<T>, leqT: (T, T) -> bool,
      leqU: (U, U) -> bool)
    requires KeepsOrder(f, leqT, leqU)
    ensures Map(f, Insert(x, s, leqT)) == Insert(f(x), Map(f, s), leqU)
  {
    if s == [] || leqT(x, s[0]) {
      assert ([x] + s)[1..] == s;
    } else {
      InsertCommutes(f, x, s[1..], leqT, leqU);
      var rest := Insert(x, s[1..], leqT);
      assert ([s[0]] + rest)[1..] == rest;
      assert Map(f, s)[1..] == Map(f, s[1..]);
    }
  }

  // Sorting by a key and rewriting what the key does not see commute.
  lemma {:induction false} SortCommutes<T(!new), U>(f: T -> U, s: seq<T>, leqT: (T, T) -> bool, leqU: (U, U) -> bool)
    requires KeepsOrder(f, leqT, leqU)
    ensures Map(f, Sort(s, leqT)) == Sort(Map(f, s), leqU)
  {
    if s != [] {
      SortCommutes(f, s[1..], leqT, leqU);
      InsertCommutes(f, s[0], Sort(s[1..], leqT), leqT, leqU);
      assert Map(f, s)[1..] == Map(f, s[1..]);
    }
  }

  lemma {:induction false} SortOfSorted<T(!new)>(s: seq<T>, leq: (T, T) -> bool)
    requires SortedBy(s, leq)
    ensures Sort(s, leq) == s
  {
    if s != [] {
      SortOfSorted(s[1..], leq);
      assert s == [s[0]] + s[1..];
    }
  }

  lemma BelowFirst<T(!new)>(x: T, s: seq<T>, y: T, leq: (T, T) -> bool)
    requires TotalPreorder(leq) && SortedBy(s, leq) && y in s && leq(x, s[0])
    ensures leq(x, y)
  {
    LeastIsFirst(s, y, leq);
  }

  lemma KeepOfFront<T(!new)>(x: T, s: seq<T>, leq: (T, T) -> bool, p: T -> bool)
    requires TotalPreorder(leq) && SortedBy(s, leq) && s != [] && leq(x, s[0])
    ensures Keep([x] + s, p) == if p(x) then Insert(x, Keep(s, p), leq) else Keep(s, p)
  {
    hide TotalPreorder;
    var kept := Keep(s, p);
    assert ([x] + s)[1..] == s;
    if kept != [] {
      BelowFirst(x, s, kept[0], leq);
    }
  }

  lemma KeepOfCons<T(!new)>(x: T, s: seq<T>, p: T -> bool)
    ensures Keep([x] + s, p) == (if p(x) then [x] else []) + Keep(s, p)
  {
    assert ([x] + s)[1..] == s;
  }

  lemma {:induction false} KeepOfInsert<T(!new)>(x: T, s: seq<T>, leq: (T, T) -> bool, p: T -> bool)
    requires TotalPreorder(leq) && SortedBy(s, leq)
    ensures Keep(Insert(x, s, leq), p) == if p(x) then Insert(x, Keep(s, p), leq) else Keep(s, p)
  {
    if s == [] {
    } else if leq(x, s[0]) {
      KeepOfFront(x, s, leq, p);
    } else {
      hide TotalPreorder, Keep;
      KeepOfInsert(x, s[1..], leq, p);
      KeepOfCons(s[0], s[1..], p);
      KeepOfCons(s[0], Insert(x, s[1..], leq), p);
      assert s == [s[0]] + s[1..];
      var rest := Keep(s[1..], p);
      if p(s[0]) {
        assert ([s[0]] + rest)[1..] == rest;
      } else {
        assert [] + rest == rest;
      }
    }
  }

  // Sorting and then selecting is selecting and then sorting.
  lemma {:induction false} KeepOfSort<T(!new)>(s: seq<T>, leq: (T, T) -> bool, p: T -> bool)
    requires TotalPreorder(leq)
    ensures Keep(Sort(s, leq), p) == Sort(Keep(s, p), leq)
  {
    hide TotalPreorder;
    if s != [] {
      var first, rest := s[0], s[1..];
      KeepOfSort(rest, leq, p);
      SortSorts(rest, leq);
      KeepOfInsert(first, Sort(rest, leq), leq, p);
      if p(first) {
        assert Keep(s, p) == [first] + Keep(rest, p) && Keep(s, p)[1..] == Keep(rest, p);
      } else {
        assert Keep(s, p) == Keep(rest, p);
      }
    }
  }

  lemma {:induction false} KeepConcat<T(!new)>(a: seq<T>, b: seq<T>, p: T -> bool)
    ensures Keep(a + b, p) == Keep(a, p) + Keep(b, p)
  {
    hide Keep;
    if a == [] {
      KeepOfNothing(p);
      assert [] + b == b && [] + Keep(b, p) == Keep(b, p);
    } else {
      var head, first := if p(a[0]) then [a[0]] else [], a[0];
      KeepConcat(a[1..], b, p);
      KeepOfCons(first, a[1..], p);
      KeepOfCons(first, a[1..] + b, p);
      assert a == [first] + a[1..] && a + b == [first] + (a[1..] + b);
      assert head + (Keep(a[1..], p) + Keep(b, p)) == (head + Keep(a[1..], p)) + Keep(b, p);
    }
  }

  lemma KeepOfNothing<T(!new)>(p: T -> bool)
    ensures Keep([], p) == []
  {
  }
}
