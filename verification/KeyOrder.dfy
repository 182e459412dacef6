// The order in which an object lists its own keys: array indices as numbers,
// then every other key as it was inserted, here in the order of texts.
module KeyOrder {
  import opened Sorting
  import opened Utf16
  import opened TextOrder

  predicate Digits(s: string) {
    forall i :: 0 <= i < |s| ==> '0' <= s[i] <= '9'
  }

  function Digit(c: char): nat
    requires '0' <= c <= '9'
  {
    c as int - '0' as int
  }

  function PowerOfTen(n: nat): (p: nat)
    ensures p > 0
  {
    if n == 0 then 1 else 10 * PowerOfTen(n - 1)
  }

  function NumberOf(s: string): nat
    requires Digits(s)
  {
    if s == "" then 0 else Digit(s[0]) * PowerOfTen(|s| - 1) + NumberOf(s[1..])
  }

  const LAST_INDEX := 0xFFFF_FFFE

  // A number in its shortest form, at most the last array index (section 6.1.7
  // of the ECMAScript specification).
  predicate ArrayIndex(s: string) {
    s != "" && Digits(s) && (s[0] != '0' || s == "0") && NumberOf(s) <= LAST_INDEX
  }

  predicate KeyLeq(a: string, b: string) {
    if ArrayIndex(a) != ArrayIndex(b) then ArrayIndex(a)
    else if ArrayIndex(a) then NumberOf(a) <= NumberOf(b)
    else TextLeq(a, b)
  }

  lemma {:induction false} NumberIsShort(s: string)
    requires Digits(s)
    ensures NumberOf(s) < PowerOfTen(|s|)
  {
    if s != "" {
      NumberIsShort(s[1..]);
      AtMostNine(Digit(s[0]), PowerOfTen(|s| - 1));
    }
  }

  lemma AtMostNine(d: nat, p: nat)
    requires d <= 9
    ensures d * p <= 9 * p
  {
  }

  lemma {:induction false} LongerIsMore(a: nat, b: nat)
    requires a <= b
    ensures PowerOfTen(a) <= PowerOfTen(b)
  {
    if a < b {
      LongerIsMore(a, b - 1);
    }
  }

  // The first digit of a number in its shortest form.
  lemma LeadingDigit(s: string)
    requires s != "" && Digits(s) && (s[0] != '0' || s == "0")
    ensures s != "0" ==> NumberOf(s) >= PowerOfTen(|s| - 1)
    ensures s == "0" ==> NumberOf(s) == 0
  {
    if s != "0" {
      AtLeastOnce(Digit(s[0]), PowerOfTen(|s| - 1));
    } else {
      assert Digit(s[0]) == 0 && s[1..] == "";
    }
  }

  lemma AtLeastOnce(d: nat, p: nat)
    requires d >= 1
    ensures d * p >= p
  {
  }

  lemma NextMultiple(x: nat, y: nat, p: nat)
    requires x < y
    ensures x * p + p <= y * p
  {
    assert y * p == x * p + (y - x) * p;
    AtLeastOnce(y - x, p);
  }

  lemma DigitsDecide(x: nat, y: nat, p: nat, a: nat, b: nat)
    requires a < p && b < p && x * p + a == y * p + b
    ensures x == y && a == b
  {
    if x < y {
      NextMultiple(x, y, p);
    } else if y < x {
      NextMultiple(y, x, p);
    }
  }

  lemma {:induction false} SameLengthSameNumber(a: string, b: string)
    requires Digits(a) && Digits(b) && |a| == |b| && NumberOf(a) == NumberOf(b)
    ensures a == b
  {
    if a != "" {
      NumberIsShort(a[1..]);
      NumberIsShort(b[1..]);
      DigitsDecide(Digit(a[0]), Digit(b[0]), PowerOfTen(|a| - 1), NumberOf(a[1..]), NumberOf(b[1..]));
      SameLengthSameNumber(a[1..], b[1..]);
      assert a == [a[0]] + a[1..] && b == [b[0]] + b[1..];
    }
  }

  // Numbers in their shortest form differ as texts only if they differ.
  lemma ShorterIsLess(a: string, b: string)
    requires ArrayIndex(a) && ArrayIndex(b) && |a| < |b|
    ensures NumberOf(a) < NumberOf(b)
  {
    NumberIsShort(a);
    LongerIsMore(|a|, |b| - 1);
    LeadingDigit(b);
  }

  lemma IndicesDiffer(a: string, b: string)
    requires ArrayIndex(a) && ArrayIndex(b) && NumberOf(a) == NumberOf(b)
    ensures a == b
  {
    hide NumberOf;
    if |a| < |b| {
      ShorterIsLess(a, b);
    } else if |b| < |a| {
      ShorterIsLess(b, a);
    } else {
      SameLengthSameNumber(a, b);
    }
  }

  lemma KeysAreTotallyOrdered()
    ensures TotalOrder(KeyLeq) && TotalPreorder(KeyLeq)
  {
    hide ArrayIndex, NumberOf, TextLeq;
    TextIsTotalOrder();
    forall a, b ensures KeyLeq(a, b) || KeyLeq(b, a) {
      assert TextLeq(a, b) || TextLeq(b, a);
    }
    forall a, b | KeyLeq(a, b) && KeyLeq(b, a) ensures a == b {
      KeyAntisymmetric(a, b);
    }
    forall a, b, c | KeyLeq(a, b) && KeyLeq(b, c) ensures KeyLeq(a, c) {
      assert TextLeq(a, b) && TextLeq(b, c) ==> TextLeq(a, c);
    }
  }

  lemma KeyAntisymmetric(a: string, b: string)
    requires KeyLeq(a, b) && KeyLeq(b, a)
    ensures a == b
  {
    hide NumberOf, TextLeq;
    if ArrayIndex(a) {
      IndicesDiffer(a, b);
    } else {
      TextAntisymmetric(a, b);
    }
  }
}
