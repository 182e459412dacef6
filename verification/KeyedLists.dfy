// `new Map(list.map(value => [key(value), value]))`: later values win.
module KeyedLists {

  function ByKey<T>(s: seq<T>, key: T -> string): (m: map<string, T>)
    ensures forall k :: k in m ==> m[k] in s && key(m[k]) == k
    ensures forall x :: x in s ==> key(x) in m
  {
    if s == [] then map[]
    else
      assert s == s[..|s| - 1] + [s[|s| - 1]];
      ByKey(s[..|s| - 1], key)[key(s[|s| - 1]) := s[|s| - 1]]
  }

  lemma ByKeyAppend<T>(s: seq<T>, x: T, key: T -> string)
    ensures ByKey(s + [x], key) == ByKey(s, key)[key(x) := x]
  {
    assert (s + [x])[..|s|] == s;
  }

  lemma EmptyByKey<T>(key: T -> string)
    ensures ByKey<T>([], key) == map[]
  {
  }

  // The value under a key is the last one in the list that carries it.
  lemma {:induction false} LastWins<T>(s: seq<T>, key: T -> string, k: string) returns (i: nat)
    requires k in ByKey(s, key)
    ensures i < |s| && s[i] == ByKey(s, key)[k] && key(s[i]) == k
    ensures forall j :: i < j < |s| ==> key(s[j]) != k
  {
    hide ByKey;
    if s == [] {
      EmptyByKey(key);
      assert false;
    } else {
      var front, last := s[..|s| - 1], s[|s| - 1];
      assert s == front + [last];
      ByKeyAppend(front, last, key);
      if key(last) == k {
        i := |s| - 1;
      } else {
        i := LastWins(front, key, k);
      }
    }
  }

  method IndexByKey<T>(s: seq<T>, key: T -> string) returns (m: map<string, T>)
    ensures m == ByKey(s, key)
  {
    m := map[];
    for i := 0 to |s|
      invariant m == ByKey(s[..i], key)
    {
      assert s[..i + 1] == s[..i] + [s[i]];
      ByKeyAppend(s[..i], s[i], key);
      m := m[key(s[i]) := s[i]];
    }
    assert s[..|s|] == s;
  }
}
