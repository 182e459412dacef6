// Sums over lists of reservations.
module Sums {

  function Sum(s: seq<int>): int {
    if s == [] then 0 else s[0] + Sum(s[1..])
  }

  function Without<T>(s: seq<T>, i: nat): (r: seq<T>)
    requires i < |s|
    ensures |r| == |s| - 1 && forall x :: x in r ==> x in s
  {
    s[..i] + s[i + 1..]
  }

  lemma {:induction false} SumAppend(s: seq<int>, x: int)
    ensures Sum(s + [x]) == Sum(s) + x
  {
    if s == [] {
      assert s + [x] == [x];
    } else {
      assert (s + [x])[1..] == s[1..] + [x];
      SumAppend(s[1..], x);
    }
  }

  lemma {:induction false} SumWithout(s: seq<int>, i: nat)
    requires i < |s|
    ensures Sum(s) == s[i] + Sum(Without(s, i))
  {
    if i == 0 {
      assert Without(s, 0) == s[1..];
    } else {
      assert Without(s, i)[1..] == Without(s[1..], i - 1);
      SumWithout(s[1..], i - 1);
    }
  }

  lemma {:induction false} SumOfCounts(s: seq<int>)
    requires forall x :: x in s ==> x >= 0
    ensures Sum(s) >= 0
  {
    if s != [] {
      assert s[0] in s && forall x :: x in s[1..] ==> x in s;
      SumOfCounts(s[1..]);
    }
  }
}
