// Trimming and the bounded, non-blank texts that the program accepts.
module BoundedTexts {
  import opened Outcomes
  import opened Utf16

  // The white space and line terminators of the ECMAScript specification
  // (sections 12.2 and 12.3), which `trim` removes.
  predicate Blank(c: char) {
    var u := c as int;
    || 9 <= u <= 13 || u == 0x20 || u == 0xA0 || u == 0x1680 || 0x2000 <= u <= 0x200A
    || u == 0x2028 || u == 0x2029 || u == 0x202F || u == 0x205F || u == 0x3000 || u == 0xFEFF
  }

  predicate HasText(s: string) {
    exists i :: 0 <= i < |s| && !Blank(s[i])
  }

  function Trim(s: string): (r: string)
    ensures r != "" <==> HasText(s)
    ensures r != "" ==> HasText(r)
    ensures forall c :: c in r ==> c in s
    ensures forall c :: c in s && !Blank(c) ==> c in r
  {
    if s == "" then ""
    else if Blank(s[0]) then
      assert s == [s[0]] + s[1..];
      Trim(s[1..])
    else if Blank(s[|s| - 1]) then
      assert s == s[..|s| - 1] + [s[|s| - 1]];
      Trim(s[..|s| - 1])
    else s
  }

  // What is checked of a text that was stored.
  predicate AcceptedText(s: string, maximum: nat) {
    HasText(s) && Length(s) <= maximum && '\0' !in s
  }

  // What is kept of a text that is read: normalised, trimmed and bounded.
  function BoundedText(nfc: string -> string, s: string, maximum: nat): (r: Result<string>)
    ensures r.Ok? ==> AcceptedText(r.value, maximum)
  {
    var t := Trim(nfc(s));
    if t == "" || Length(t) > maximum || '\0' in t then Throws else Ok(t)
  }

  // Unicode normalisation neither makes text out of blanks nor removes a NUL.
  ghost predicate Normalises(nfc: string -> string) {
    forall s :: (HasText(nfc(s)) ==> HasText(s)) && ('\0' in s ==> '\0' in nfc(s))
  }

  lemma {:induction false} NulInText(s: string)
    ensures '\0' in s <==> 0 in TextOf(s)
  {
    if s != "" {
      NulInText(s[1..]);
      assert s == [s[0]] + s[1..];
      assert 0 in UnitsOf(ScalarOf(s[0])) <==> s[0] == '\0';
    }
  }

  // What a text must be when its normal form is accepted as an identity.
  lemma AcceptedNormalForm(nfc: string -> string, s: string)
    requires Normalises(nfc)
    requires var t := Trim(nfc(s)); t != "" && 0 !in TextOf(t)
    ensures HasText(s) && '\0' !in s
  {
    NulInText(Trim(nfc(s)));
    assert !Blank('\0');
  }
}
