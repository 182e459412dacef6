// The default string order of the JavaScript library: compare unit by unit.
module TextOrder {
  import opened Sorting
  import opened Utf16

  predicate UnitsLeq(a: Text, b: Text) {
    a == [] || (b != [] && (a[0] < b[0] || (a[0] == b[0] && UnitsLeq(a[1..], b[1..]))))
  }

  predicate TextLeq(a: string, b: string) {
    UnitsLeq(TextOf(a), TextOf(b))
  }

  lemma {:induction false} UnitsTotal(a: Text, b: Text)
    ensures UnitsLeq(a, b) || UnitsLeq(b, a)
  {
    if a != [] && b != [] && a[0] == b[0] {
      UnitsTotal(a[1..], b[1..]);
    }
  }

  lemma {:induction false} UnitsAntisymmetric(a: Text, b: Text)
    requires UnitsLeq(a, b) && UnitsLeq(b, a)
    ensures a == b
  {
    if a != [] && b != [] {
      UnitsAntisymmetric(a[1..], b[1..]);
      assert a == [a[0]] + a[1..] && b == [b[0]] + b[1..];
    }
  }

  lemma {:induction false} UnitsTransitive(a: Text, b: Text, c: Text)
    requires UnitsLeq(a, b) && UnitsLeq(b, c)
    ensures UnitsLeq(a, c)
  {
    if a != [] && b != [] && a[0] == b[0] == c[0] {
      UnitsTransitive(a[1..], b[1..], c[1..]);
    }
  }

  lemma TextAntisymmetric(a: string, b: string)
    requires TextLeq(a, b) && TextLeq(b, a)
    ensures a == b
  {
    UnitsAntisymmetric(TextOf(a), TextOf(b));
    TextOfInjective(a, b);
  }

  lemma TextIsTotalOrder()
    ensures TotalOrder(TextLeq) && TotalPreorder(TextLeq)
  {
    forall a, b ensures TextLeq(a, b) || TextLeq(b, a) {
      UnitsTotal(TextOf(a), TextOf(b));
    }
    forall a, b | TextLeq(a, b) && TextLeq(b, a) ensures a == b {
      TextAntisymmetric(a, b);
    }
    forall a, b, c | TextLeq(a, b) && TextLeq(b, c) ensures TextLeq(a, c) {
      UnitsTransitive(TextOf(a), TextOf(b), TextOf(c));
    }
  }

  // What `new Set` keeps: the first occurrence of every value.
  function Distinct<T(==,!new)>(s: seq<T>): (r: seq<T>)
    ensures forall i, j :: 0 <= i < j < |r| ==> r[i] != r[j]
    ensures forall x :: x in r <==> x in s
  {
    if s == [] then []
    else
      var front, last := Distinct(s[..|s| - 1]), s[|s| - 1];
      assert s == s[..|s| - 1] + [last];
      if last in front then front else front + [last]
  }
}
