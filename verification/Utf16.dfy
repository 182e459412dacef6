// Text as the program sees it: UTF-16 code units (section 3.9 of the Unicode
// Standard), and the texts that come from sequences of scalar values.
module Utf16 {
  import opened Outcomes

  type Unit = u: int | 0 <= u < 0x10000
  type Text = seq<Unit>
  type Scalar = c: int | 0 <= c < 0xD800 || 0xE000 <= c < 0x110000

  predicate High(u: Unit) {
    0xD800 <= u < 0xDC00
  }

  predicate Low(u: Unit) {
    0xDC00 <= u < 0xE000
  }

  function Paired(high: int, low: int): Scalar
    requires 0xD800 <= high < 0xDC00 <= low < 0xE000
  {
    0x10000 + (high - 0xD800) * 0x400 + (low - 0xDC00)
  }

  // A surrogate without its partner is refused.
  function Scalars(t: Text): Option<seq<Scalar>> {
    if t == [] then Some([])
    else if !High(t[0]) && !Low(t[0]) then
      (match Scalars(t[1..]) case None => None case Some(rest) => Some([t[0]] + rest))
    else if High(t[0]) && |t| > 1 && Low(t[1]) then
      (match Scalars(t[2..])
       case None => None
       case Some(rest) => Some([Paired(t[0], t[1])] + rest))
    else None
  }

  function UnitsOf(c: Scalar): Text {
    if c < 0x10000 then [c] else [0xD800 + (c - 0x10000) / 0x400, 0xDC00 + (c - 0x10000) % 0x400]
  }

  function Units(cs: seq<Scalar>): Text {
    if cs == [] then [] else UnitsOf(cs[0]) + Units(cs[1..])
  }

  lemma PairedUnits(high: Unit, low: Unit)
    requires High(high) && Low(low)
    ensures UnitsOf(Paired(high, low)) == [high, low]
  {
    var offset := (high - 0xD800) * 0x400 + (low - 0xDC00);
    assert offset / 0x400 == high - 0xD800 && offset % 0x400 == low - 0xDC00;
  }

  lemma SingleUnit(u: Unit)
    requires !High(u) && !Low(u)
    ensures UnitsOf(u) == [u]
  {
  }

  lemma {:induction false} ScalarsInverted(t: Text)
    requires Scalars(t).Some?
    ensures Units(Scalars(t).value) == t
  {
    hide UnitsOf, Paired;
    if t != [] {
      var c := Scalars(t).value[0];
      var rest := if High(t[0]) then t[2..] else t[1..];
      ScalarsInverted(rest);
      assert Scalars(t).value[1..] == Scalars(rest).value;
      if High(t[0]) {
        PairedUnits(t[0], t[1]);
      } else {
        SingleUnit(t[0]);
      }
      assert t == UnitsOf(c) + rest;
    }
  }

  // --- strings -----------------------------------------------------------------

  function ScalarOf(c: char): Scalar {
    c as int
  }

  // The code units of a string of scalar values.
  function TextOf(s: string): Text {
    if s == "" then [] else UnitsOf(ScalarOf(s[0])) + TextOf(s[1..])
  }

  // The `length` of a string.
  function Length(s: string): nat {
    |TextOf(s)|
  }

  lemma {:induction false} LengthBounds(s: string)
    ensures |s| <= Length(s) <= 2 * |s|
  {
    if s != "" {
      LengthBounds(s[1..]);
    }
  }

  lemma UnitsOfDiffer(c: Scalar, rest: Text, d: Scalar, other: Text)
    requires UnitsOf(c) + rest == UnitsOf(d) + other
    ensures c == d && rest == other
  {
    var left, right := UnitsOf(c) + rest, UnitsOf(d) + other;
    assert left[0] == UnitsOf(c)[0] && right[0] == UnitsOf(d)[0];
    assert |UnitsOf(c)| == |UnitsOf(d)|;
    assert |UnitsOf(c)| == 2 ==> left[1] == UnitsOf(c)[1] && right[1] == UnitsOf(d)[1];
    assert left[|UnitsOf(c)|..] == rest && right[|UnitsOf(d)|..] == other;
  }

  // Different strings have different units.
  lemma {:induction false} TextOfInjective(a: string, b: string)
    requires TextOf(a) == TextOf(b)
    ensures a == b
  {
    hide UnitsOf;
    if a == "" || b == "" {
      LengthBounds(a);
      LengthBounds(b);
    } else {
      UnitsOfDiffer(ScalarOf(a[0]), TextOf(a[1..]), ScalarOf(b[0]), TextOf(b[1..]));
      TextOfInjective(a[1..], b[1..]);
      assert a == [a[0]] + a[1..] && b == [b[0]] + b[1..];
    }
  }
}
