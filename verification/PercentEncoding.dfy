// `encodeURIComponent`: UTF-16 text to scalar values (section 3.9 of the
// Unicode Standard), UTF-8 octets (section 3 of RFC 3629), and percent-encoding
// of everything outside a fixed set of characters (section 2.1 of RFC 3986).
module PercentEncoding {
  import opened Outcomes
  import opened Utf16

  type Octet = b: int | 0 <= b < 0x100

  // --- UTF-8 -----------------------------------------------------------------

  function OctetsOf(c: Scalar): seq<Octet> {
    if c < 0x80 then [c]
    else if c < 0x800 then [0xC0 + c / 0x40, 0x80 + c % 0x40]
    else if c < 0x10000 then [0xE0 + c / 0x40 / 0x40, 0x80 + c / 0x40 % 0x40, 0x80 + c % 0x40]
    else [0xF0 + c / 0x40 / 0x40 / 0x40, 0x80 + c / 0x40 / 0x40 % 0x40, 0x80 + c / 0x40 % 0x40, 0x80 + c % 0x40]
  }

  function Octets(cs: seq<Scalar>): seq<Octet> {
    if cs == [] then [] else OctetsOf(cs[0]) + Octets(cs[1..])
  }

  // How many octets the leading one announces, and the value they carry.
  function Width(b: Octet): nat {
    if b < 0x80 then 1 else if b < 0xE0 then 2 else if b < 0xF0 then 3 else 4
  }

  function ValueOf(bs: seq<Octet>): int
    requires |bs| > 0 && |bs| == Width(bs[0])
  {
    var first: int := bs[0];
    if |bs| == 1 then first
    else if |bs| == 2 then Continued(first - 0xC0, bs[1])
    else if |bs| == 3 then Continued(Continued(first - 0xE0, bs[1]), bs[2])
    else Continued(Continued(Continued(first - 0xF0, bs[1]), bs[2]), bs[3])
  }

  function Continued(value: int, b: int): int {
    value * 0x40 + (b - 0x80)
  }

  function Decoded(bs: seq<Octet>): Option<seq<Scalar>> {
    if bs == [] then Some([])
    else if Width(bs[0]) > |bs| then None
    else
      var w := Width(bs[0]);
      var c := ValueOf(bs[..w]);
      if !(0 <= c < 0xD800 || 0xE000 <= c < 0x110000) then None
      else match Decoded(bs[w..]) case None => None case Some(rest) => Some([c] + rest)
  }

  lemma OctetsOfScalar(c: Scalar)
    ensures |OctetsOf(c)| > 0 && |OctetsOf(c)| == Width(OctetsOf(c)[0]) && ValueOf(OctetsOf(c)) == c
  {
  }

  lemma {:induction false} OctetsInverted(cs: seq<Scalar>)
    ensures Decoded(Octets(cs)) == Some(cs)
  {
    hide ValueOf, OctetsOf, Width;
    if cs == [] {
    } else {
      OctetsInverted(cs[1..]);
      OctetsOfScalar(cs[0]);
      var first, rest := OctetsOf(cs[0]), Octets(cs[1..]);

      assert (first + rest)[..|first|] == first && (first + rest)[|first|..] == rest;
      assert (first + rest)[0] == first[0];
      assert cs == [cs[0]] + cs[1..];
    }
  }

  // --- percent-encoding --------------------------------------------------------

  // Letters, digits and - _ . ! ~ * ' ( )
  predicate Unreserved(b: int) {
    || 65 <= b <= 90 || 97 <= b <= 122 || 48 <= b <= 57
    || b == 45 || b == 95 || b == 46 || b == 33 || b == 126 || 39 <= b <= 42
  }

  function HexDigit(n: int): Unit
    requires 0 <= n < 16
  {
    if n < 10 then 48 + n else 55 + n
  }

  function HexValue(u: Unit): Option<int> {
    if 48 <= u <= 57 then Some(u - 48) else if 65 <= u <= 70 then Some(u - 55) else None
  }

  const PERCENT: Unit := 37

  function PercentOf(b: Octet): Text {
    if Unreserved(b) then [b] else [PERCENT, HexDigit(b / 16), HexDigit(b % 16)]
  }

  function Percent(bs: seq<Octet>): Text {
    if bs == [] then [] else PercentOf(bs[0]) + Percent(bs[1..])
  }

  function Unpercent(t: Text): Option<seq<Octet>> {
    if t == [] then Some([])
    else if Unreserved(t[0]) then
      (match Unpercent(t[1..]) case None => None case Some(rest) => Some([t[0]] + rest))
    else if t[0] == PERCENT && |t| > 2 && HexValue(t[1]).Some? && HexValue(t[2]).Some? then
      (match Unpercent(t[3..])
       case None => None
       case Some(rest) => Some([HexValue(t[1]).value * 16 + HexValue(t[2]).value] + rest))
    else None
  }

  lemma {:induction false} PercentInverted(bs: seq<Octet>)
    ensures Unpercent(Percent(bs)) == Some(bs)
  {
    if bs != [] {
      PercentInverted(bs[1..]);
      var first, rest := PercentOf(bs[0]), Percent(bs[1..]);
      assert (first + rest)[|first|..] == rest;
      assert bs == [bs[0]] + bs[1..];
    }
  }

  // Only unreserved characters and `%` are written, so neither `:` nor `#` is.
  predicate Plain(u: Unit) {
    Unreserved(u) || u == PERCENT
  }

  lemma {:induction false} PercentIsPlain(bs: seq<Octet>)
    ensures forall i :: 0 <= i < |Percent(bs)| ==> Plain(Percent(bs)[i])
    ensures |bs| <= |Percent(bs)|
  {
    if bs != [] {
      PercentIsPlain(bs[1..]);
    }
  }

  // --- the whole encoding --------------------------------------------------------

  // Nothing for text that is not well-formed UTF-16.
  function Encode(t: Text): Option<Text> {
    match Scalars(t)
    case None => None
    case Some(cs) => Some(Percent(Octets(cs)))
  }

  function Decode(t: Text): Option<Text> {
    match Unpercent(t)
    case None => None
    case Some(bs) => match Decoded(bs) case None => None case Some(cs) => Some(Units(cs))
  }

  lemma EncodingIsDecodable(t: Text)
    requires Encode(t).Some?
    ensures Decode(Encode(t).value) == Some(t)
    ensures forall i :: 0 <= i < |Encode(t).value| ==> Plain(Encode(t).value[i])
    ensures t != [] ==> Encode(t).value != []
  {
    hide Octets, Percent, Unpercent, Decoded, Units;
    var cs := Scalars(t).value;
    ScalarsInverted(t);
    OctetsInverted(cs);
    PercentInverted(Octets(cs));
    PercentIsPlain(Octets(cs));
    if Encode(t).value == [] {
      assert Octets(cs) == [];
      assert Decoded([]) == Some([]) by { NothingDecoded(); }
    }
  }

  lemma NothingDecoded()
    ensures Decoded([]) == Some([]) && Units([]) == []
  {
  }

  // Encoding never shortens, and every ASCII text can be encoded.
  lemma {:induction false} OctetsPerUnit(t: Text)
    requires Scalars(t).Some?
    ensures |t| <= |Octets(Scalars(t).value)|
  {
    if t != [] {
      var rest := if High(t[0]) then t[2..] else t[1..];
      OctetsPerUnit(rest);
      assert Scalars(t).value[1..] == Scalars(rest).value;
    }
  }

  lemma EncodingIsNoShorter(t: Text)
    requires Encode(t).Some?
    ensures |t| <= |Encode(t).value|
  {
    hide Octets, Percent, Scalars;
    OctetsPerUnit(t);
    PercentIsPlain(Octets(Scalars(t).value));
  }

  lemma {:induction false} AsciiIsEncodable(t: Text)
    requires forall i :: 0 <= i < |t| ==> t[i] < 0x80
    ensures Encode(t).Some?
  {
    if t != [] {
      AsciiIsEncodable(t[1..]);
    }
  }

  // A single ASCII character is kept when it is a letter, a digit or one of nine
  // marks, and is otherwise written as two upper-case hexadecimal digits.
  lemma AsciiIsEncoded(u: Unit)
    requires u < 0x80
    ensures var c := u as char;
            Encode([u]) ==
            Some(if 'A' <= c <= 'Z' || 'a' <= c <= 'z' || '0' <= c <= '9' || c in "-_.!~*'()" then [u]
                 else ['%' as int, "0123456789ABCDEF"[u / 16] as int, "0123456789ABCDEF"[u % 16] as int])
  {
    hide PercentOf;
    OneScalar(u);
    assert Percent([u]) == PercentOf(u) by { assert Percent([u][1..]) == []; }
    AsciiOctet(u);
  }

  lemma OneScalar(u: Unit)
    requires u < 0x80
    ensures Encode([u]) == Some(Percent([u]))
  {
    hide Percent;
    var cs: seq<Scalar> := [u];
    assert Scalars([u][1..]) == Some([]);
    var scalars := Scalars([u]).value;
    assert |scalars| == 1 && scalars[0] == u;
    assert scalars == cs;
    assert Octets(cs[1..]) == [];
    assert Octets(cs) == [u];
  }

  lemma AsciiOctet(u: Unit)
    requires u < 0x80
    ensures var c := u as char;
            PercentOf(u) ==
            if 'A' <= c <= 'Z' || 'a' <= c <= 'z' || '0' <= c <= '9' || c in "-_.!~*'()" then [u]
            else ['%' as int, "0123456789ABCDEF"[u / 16] as int, "0123456789ABCDEF"[u % 16] as int]
  {
    var marks := "-_.!~*'()";
    assert marks[0] == '-' && marks[1] == '_' && marks[2] == '.' && marks[3] == '!' && marks[4] == '~';
    assert marks[5] == '*' && marks[6] == '\'' && marks[7] == '(' && marks[8] == ')';
    DigitIs(u / 16);
    DigitIs(u % 16);
  }

  lemma DigitIs(n: int)
    requires 0 <= n < 16
    ensures "0123456789ABCDEF"[n] as int == HexDigit(n)
  {
  }
}
