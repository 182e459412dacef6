// Maps keyed by strings that were glued together from several parts, and the
// maps with structured keys that they stand for.
module StringKeys {

  const NUL: string := "\0"

  predicate NulFree(s: string) {
    '\0' !in s
  }

  // Gluing with NUL is unambiguous, even when only a prefix is compared.
  lemma GluedPrefix(a: string, x: string, b: string, y: string)
    requires NulFree(a) && NulFree(b)
    requires a + NUL + x <= b + NUL + y
    ensures a == b && x <= y
  {
    var left, right := a + NUL + x, b + NUL + y;
    assert left[|a|] == '\0' && right[|b|] == '\0';
    assert forall i :: 0 <= i < |a| ==> left[i] == a[i];
    assert forall i :: 0 <= i < |b| ==> right[i] == b[i];
    assert a == left[..|a|] == right[..|a|] == b;
    assert left[|a| + 1..] == x && right[|a| + 1..] == y;
  }

  // Every entry of `m` is the entry of `t` its own value points at, and conversely.
  ghost predicate Represents<K(!new), V>(m: map<string, V>, t: map<K, V>, key: K -> string, owner: V -> K) {
    && (forall k :: k in t ==> key(k) in m && m[key(k)] == t[k] && owner(t[k]) == k)
    && (forall s :: s in m ==> owner(m[s]) in t && key(owner(m[s])) == s)
  }

  ghost predicate Distinguishes<K(!new)>(keys: set<K>, key: K -> string) {
    forall j, k :: j in keys && k in keys && key(j) == key(k) ==> j == k
  }

  lemma RepresentsPut<K(!new), V>(m: map<string, V>, t: map<K, V>, key: K -> string, owner: V -> K, k: K, v: V)
    requires Represents(m, t, key, owner) && Distinguishes(t.Keys + {k}, key) && owner(v) == k
    ensures Represents(m[key(k) := v], t[k := v], key, owner)
  {
    var m', t' := m[key(k) := v], t[k := v];
    forall j | j in t' ensures key(j) in m' && m'[key(j)] == t'[j] && owner(t'[j]) == j {
      assert j in t.Keys + {k} && k in t.Keys + {k};
    }
  }

  lemma RepresentsDelete<K(!new), V>(m: map<string, V>, t: map<K, V>, key: K -> string, owner: V -> K, k: K)
    requires Represents(m, t, key, owner) && Distinguishes(t.Keys + {k}, key)
    ensures Represents(m - {key(k)}, t - {k}, key, owner)
    ensures key(k) in m <==> k in t
  {
    var m', t' := m - {key(k)}, t - {k};
    forall j | j in t' ensures key(j) in m' {
      assert j in t.Keys + {k} && k in t.Keys + {k};
    }
    if key(k) in m {
      assert owner(m[key(k)]) in t.Keys + {k};
    }
    forall s | s in m' ensures owner(m'[s]) in t' {
      assert key(owner(m[s])) == s;
    }
  }

  // Either side determines the other.
  lemma RepresentationUnique<K(!new), V>(
      m1: map<string, V>, t1: map<K, V>, m2: map<string, V>, t2: map<K, V>, key: K -> string, owner: V -> K)
    requires Represents(m1, t1, key, owner) && Represents(m2, t2, key, owner)
    ensures m1 == m2 <==> t1 == t2
  {
    if t1 == t2 {
      assert m1.Keys == m2.Keys by {
        forall s ensures s in m1 <==> s in m2 {
          if s in m1 { assert owner(m1[s]) in t2; }
          if s in m2 { assert owner(m2[s]) in t1; }
        }
      }
      forall s | s in m1 ensures m1[s] == m2[s] {
        assert key(owner(m1[s])) == s;
      }
    }
    if m1 == m2 {
      assert t1.Keys == t2.Keys by {
        forall k ensures k in t1 <==> k in t2 {
          if k in t1 { assert owner(m2[key(k)]) == k; }
          if k in t2 { assert owner(m1[key(k)]) == k; }
        }
      }
    }
  }
}
