// Lists and scripts as they are meant: built from plain characters, quoted texts
// and groups in parentheses. The scanners take them apart again.
module ScannerGrammar {
  import opened Scanners

  // A doubled mark inside a quoted text is two quoted texts side by side.
  datatype Piece = Plain(c: char) | Quoted(mark: char, body: string) | Group(pieces: seq<Piece>)

  predicate Written(pieces: seq<Piece>) {
    forall p :: p in pieces ==> WrittenPiece(p)
  }

  predicate WrittenPiece(p: Piece) {
    match p
    case Plain(c) => c !in {'\'', '"', '(', ')'}
    case Quoted(mark, body) => mark in {'\'', '"'} && mark !in body
    case Group(inner) => Written(inner)
  }

  function Text(pieces: seq<Piece>): string {
    if pieces == [] then "" else TextOf(pieces[0]) + Text(pieces[1..])
  }

  function TextOf(p: Piece): string {
    match p
    case Plain(c) => [c]
    case Quoted(mark, body) => [mark] + body + [mark]
    case Group(inner) => "(" + Text(inner) + ")"
  }

  // --- scanning from a given state -----------------------------------------------

  function After(s: Scan, text: string): Scan
    decreases text
  {
    if text == "" then s else After(ScanStep(s, text[0]), text[1..])
  }

  lemma {:induction false} AfterConcat(s: Scan, a: string, b: string)
    ensures After(s, a + b) == After(After(s, a), b)
    decreases a
  {
    hide ScanStep;
    if a == "" {
      assert a + b == b;
    } else {
      assert (a + b)[1..] == a[1..] + b;
      AfterConcat(ScanStep(s, a[0]), a[1..], b);
    }
  }

  lemma {:induction false} ScanIsAfter(text: string, i: nat)
    requires i <= |text|
    ensures ScanTo(text, i) == After(Scan(Outside, 0), text[..i])
  {
    hide ScanStep;
    if i == 0 {
      assert text[..0] == "";
    } else {
      ScanIsAfter(text, i - 1);
      assert text[..i] == text[..i - 1] + [text[i - 1]];
      AfterConcat(Scan(Outside, 0), text[..i - 1], [text[i - 1]]);
      OneStep(After(Scan(Outside, 0), text[..i - 1]), text[i - 1]);
    }
  }

  lemma OneStep(s: Scan, c: char)
    ensures After(s, [c]) == ScanStep(s, c)
  {
    assert [c][1..] == "";
  }

  lemma {:induction false} InsideQuotes(s: Scan, body: string)
    requires s.quote.Inside? && s.quote.mark !in body
    ensures After(s, body) == s
  {
    if body != "" {
      InsideQuotes(s, body[1..]);
    }
  }

  // Outside of quotes, whatever is written leaves the scanner as it was.
  lemma {:induction false} WrittenIsBalanced(s: Scan, pieces: seq<Piece>)
    requires Written(pieces) && s.quote == Outside
    ensures After(s, Text(pieces)) == s
    decreases pieces
  {
    hide After, ScanStep, TextOf;
    if pieces == [] {
      NothingScanned(s);
    } else {
      WrittenRest(pieces);
      AfterConcat(s, TextOf(pieces[0]), Text(pieces[1..]));
      PieceIsBalanced(s, pieces[0]);
      WrittenIsBalanced(s, pieces[1..]);
    }
  }

  lemma NothingScanned(s: Scan)
    ensures After(s, "") == s
  {
  }

  lemma WrittenRest(pieces: seq<Piece>)
    requires Written(pieces) && pieces != []
    ensures WrittenPiece(pieces[0]) && Written(pieces[1..])
  {
  }

  lemma {:induction false} PieceIsBalanced(s: Scan, p: Piece)
    requires WrittenPiece(p) && s.quote == Outside
    ensures After(s, TextOf(p)) == s
    decreases p
  {
    hide After;
    match p
    case Plain(c) =>
      OneStep(s, c);
    case Quoted(mark, body) =>
      AfterConcat(s, [mark] + body, [mark]);
      AfterConcat(s, [mark], body);
      OneStep(s, mark);
      InsideQuotes(s.(quote := Inside(mark)), body);
      OneStep(s.(quote := Inside(mark)), mark);
    case Group(inner) =>
      var deeper := s.(depth := s.depth + 1);
      AfterConcat(s, "(" + Text(inner), ")");
      AfterConcat(s, "(", Text(inner));
      OneStep(s, '(');
      WrittenIsBalanced(deeper, inner);
      OneStep(deeper, ')');
  }

  // --- no cut inside what is written -----------------------------------------------

  // No comma of the text is met outside quotes and parentheses.
  ghost predicate Uncut(s: Scan, text: string) {
    forall i :: 0 <= i < |text| && text[i] == ',' ==> After(s, text[..i]) != Scan(Outside, 0)
  }

  // No semicolon of the text is met outside quotes.
  ghost predicate Unended(s: Scan, text: string) {
    forall i :: 0 <= i < |text| && text[i] == ';' ==> After(s, text[..i]).quote != Outside
  }

  lemma UncutConcat(s: Scan, a: string, b: string)
    ensures Uncut(s, a + b) <==> Uncut(s, a) && Uncut(After(s, a), b)
    ensures Unended(s, a + b) <==> Unended(s, a) && Unended(After(s, a), b)
  {
    hide After;
    forall i | 0 <= i < |a| ensures (a + b)[..i] == a[..i] {}
    forall i | 0 <= i < |b|
      ensures After(s, (a + b)[..|a| + i]) == After(After(s, a), b[..i]) && (a + b)[|a| + i] == b[i]
    {
      assert (a + b)[..|a| + i] == a + b[..i];
      AfterConcat(s, a, b[..i]);
    }
    if Uncut(s, a + b) {
      forall i | 0 <= i < |a| && a[i] == ',' ensures After(s, a[..i]) != Scan(Outside, 0) {
        assert (a + b)[i] == a[i];
      }
      forall i | 0 <= i < |b| && b[i] == ',' ensures After(After(s, a), b[..i]) != Scan(Outside, 0) {
        assert (a + b)[|a| + i] == b[i];
      }
    }
    if Unended(s, a + b) {
      forall i | 0 <= i < |a| && a[i] == ';' ensures After(s, a[..i]).quote != Outside {
        assert (a + b)[i] == a[i];
      }
      forall i | 0 <= i < |b| && b[i] == ';' ensures After(After(s, a), b[..i]).quote != Outside {
        assert (a + b)[|a| + i] == b[i];
      }
    }
    forall i | |a| <= i < |a + b| ensures (a + b)[i] == b[i - |a|] {}
  }

  lemma OneCharacter(s: Scan, c: char)
    ensures Uncut(s, [c]) <==> c != ',' || s != Scan(Outside, 0)
    ensures Unended(s, [c]) <==> c != ';' || s.quote != Outside
  {
    assert [c][..0] == "";
    assert [c][0] == c;
  }

  lemma {:induction false} NothingCutInQuotes(s: Scan, body: string)
    requires s.quote.Inside? && s.quote.mark !in body
    ensures Uncut(s, body) && Unended(s, body)
  {
    hide After;
    forall i | 0 <= i < |body| ensures After(s, body[..i]) == s {
      InsideQuotes(s, body[..i]);
    }
  }

  // In the top level of a list the pieces hold no comma of their own.
  predicate NoComma(pieces: seq<Piece>) {
    Plain(',') !in pieces
  }

  // Anywhere but in quotes, the pieces hold no semicolon.
  predicate NoSemicolon(pieces: seq<Piece>) {
    forall p :: p in pieces ==> Silent(p)
  }

  predicate Silent(p: Piece) {
    match p
    case Plain(c) => c != ';'
    case Quoted(_, _) => true
    case Group(inner) => NoSemicolon(inner)
  }

  lemma {:induction false} WrittenIsUncut(s: Scan, pieces: seq<Piece>)
    requires Written(pieces) && s.quote == Outside
    ensures s.depth > 0 || NoComma(pieces) ==> Uncut(s, Text(pieces))
    ensures NoSemicolon(pieces) ==> Unended(s, Text(pieces))
    decreases pieces
  {
    hide After, Uncut, Unended, TextOf;
    if pieces == [] {
      NothingIsCut(s);
    } else {
      WrittenRest(pieces);
      if NoComma(pieces) {
        CommaRest(pieces);
      }
      UncutConcat(s, TextOf(pieces[0]), Text(pieces[1..]));
      PieceIsBalanced(s, pieces[0]);
      PieceIsUncut(s, pieces[0]);
      WrittenIsUncut(s, pieces[1..]);
    }
  }

  lemma CommaRest(pieces: seq<Piece>)
    requires pieces != [] && NoComma(pieces)
    ensures pieces[0] != Plain(',') && NoComma(pieces[1..])
  {
  }

  lemma NothingIsCut(s: Scan)
    ensures Uncut(s, "") && Unended(s, "")
  {
  }

  lemma {:induction false} PieceIsUncut(s: Scan, p: Piece)
    requires WrittenPiece(p) && s.quote == Outside
    ensures s.depth > 0 || p != Plain(',') ==> Uncut(s, TextOf(p))
    ensures Silent(p) ==> Unended(s, TextOf(p))
    decreases p
  {
    hide After, Uncut, Unended;
    match p
    case Plain(c) =>
      OneCharacter(s, c);
    case Quoted(mark, body) =>
      var inside := s.(quote := Inside(mark));
      UncutConcat(s, [mark] + body, [mark]);
      UncutConcat(s, [mark], body);
      AfterConcat(s, [mark], body);
      OneStep(s, mark);
      InsideQuotes(inside, body);
      NothingCutInQuotes(inside, body);
      OneCharacter(s, mark);
      OneCharacter(inside, mark);
    case Group(inner) =>
      var deeper := s.(depth := s.depth + 1);
      UncutConcat(s, "(" + Text(inner), ")");
      UncutConcat(s, "(", Text(inner));
      AfterConcat(s, "(", Text(inner));
      OneStep(s, '(');
      WrittenIsBalanced(deeper, inner);
      WrittenIsUncut(deeper, inner);
      OneCharacter(s, '(');
      OneCharacter(deeper, ')');
  }

  // --- lists -------------------------------------------------------------------------

  // What `SplitTopLevel` returns.
  function Split(text: string): seq<string> {
    ClosedPieces(text, |text|) + [text[OpenPiece(text, |text|)..]]
  }

  function ListText(items: seq<seq<Piece>>): string
    requires items != []
  {
    if |items| == 1 then Text(items[0])
    else ListText(items[..|items| - 1]) + "," + Text(items[|items| - 1])
  }

  function Texts(items: seq<seq<Piece>>): seq<string> {
    seq(|items|, i requires 0 <= i < |items| => Text(items[i]))
  }

  ghost predicate IsList(items: seq<seq<Piece>>) {
    items != [] && forall item :: item in items ==> Written(item) && NoComma(item)
  }

  lemma {:induction false} CutsOfPrefix(text: string, n: nat, i: nat)
    requires i <= n <= |text|
    ensures ClosedPieces(text, i) == ClosedPieces(text[..n], i)
    ensures OpenPiece(text, i) == OpenPiece(text[..n], i)
  {
    hide ScanTo;
    if i > 0 {
      CutsOfPrefix(text, n, i - 1);
      ScanOfPrefix(text, n, i - 1);
      assert text[..n][OpenPiece(text, i - 1)..i - 1] == text[OpenPiece(text, i - 1)..i - 1];
    }
  }

  lemma ScanOfPrefix(text: string, n: nat, i: nat)
    requires i < n <= |text|
    ensures ScanTo(text, i) == ScanTo(text[..n], i) && text[..n][i] == text[i]
  {
    ScanIsAfter(text, i);
    ScanIsAfter(text[..n], i);
    assert text[..n][..i] == text[..i];
  }

  // No cut between two positions.
  lemma {:induction false} NoCutBetween(text: string, from: nat, to: nat)
    requires from <= to <= |text| && forall p :: from <= p < to ==> !TopComma(text, p)
    ensures ClosedPieces(text, to) == ClosedPieces(text, from) && OpenPiece(text, to) == OpenPiece(text, from)
  {
    hide ScanTo, TopComma;
    if from < to {
      NoCutBetween(text, from, to - 1);
      PiecesStep(text, to - 1);
    }
  }

  lemma UncutPart(text: string, from: nat)
    requires from <= |text| && ScanTo(text, from) == Scan(Outside, 0) && Uncut(Scan(Outside, 0), text[from..])
    ensures forall p :: from <= p < |text| ==> !TopComma(text, p)
  {
    hide After;
    var s := Scan(Outside, 0);
    forall p | from <= p < |text| ensures !TopComma(text, p) {
      ScanIsAfter(text, from);
      ScanIsAfter(text, p);
      assert text[..p] == text[..from] + text[from..][..p - from];
      AfterConcat(s, text[..from], text[from..][..p - from]);
      assert text[p] == text[from..][p - from];
    }
  }

  lemma {:induction false} ListIsBalanced(items: seq<seq<Piece>>)
    requires IsList(items)
    ensures After(Scan(Outside, 0), ListText(items)) == Scan(Outside, 0)
  {
    hide After, Text, Written, NoComma;
    var s, n := Scan(Outside, 0), |items| - 1;
    assert items[n] in items;
    WrittenIsBalanced(s, items[n]);
    if n > 0 {
      ListIsBalanced(items[..n]);
      var front := ListText(items[..n]);
      AfterConcat(s, front + ",", Text(items[n]));
      AfterConcat(s, front, ",");
      OneStep(s, ',');
    }
  }

  // A list is split into the texts of its items, whatever commas their quoted
  // texts and groups hold.
  lemma {:induction false} SplitTellsItems(items: seq<seq<Piece>>)
    requires IsList(items)
    ensures Split(ListText(items)) == Texts(items)
  {
    hide After, Text, Written, NoComma, ScanTo, TopComma, Uncut;
    var s, n := Scan(Outside, 0), |items| - 1;
    var last := Text(items[n]);
    assert items[n] in items;
    WrittenIsUncut(s, items[n]);
    if n == 0 {
      StartIsOutside(last);
      UncutPart(last, 0);
      NoCutBetween(last, 0, |last|);
      assert Texts(items) == [last];
    } else {
      var front := ListText(items[..n]);
      SplitTellsItems(items[..n]);
      ListIsBalanced(items[..n]);
      OneMoreItem(front, last);
      assert Texts(items) == Texts(items[..n]) + [last];
    }
  }

  lemma StartIsOutside(text: string)
    ensures ScanTo(text, 0) == Scan(Outside, 0) && text[0..] == text
  {
  }

  lemma OneMoreItem(front: string, last: string)
    requires After(Scan(Outside, 0), front) == Scan(Outside, 0) && Uncut(Scan(Outside, 0), last)
    ensures Split(front + "," + last) == Split(front) + [last]
  {
    hide After, Uncut;
    var text, k := front + "," + last, |front|;
    assert text[..k] == front && text[k + 1..] == last && text[k] == ',';
    ScanIsAfter(text, k);
    assert TopComma(text, k);
    PiecesStep(text, k);
    hide ScanTo, TopComma;
    CommaKeepsState(text, k);
    UncutPart(text, k + 1);
    NoCutBetween(text, k + 1, |text|);
    CutsOfPrefix(text, k, k);
    assert text[OpenPiece(text, k)..k] == front[OpenPiece(front, k)..];
  }

  lemma CommaKeepsState(text: string, k: nat)
    requires k < |text| && TopComma(text, k)
    ensures ScanTo(text, k + 1) == Scan(Outside, 0)
  {
  }

  // --- scripts -------------------------------------------------------------------------

  // The semicolon after a written statement ends it, and none inside it does:
  // neither one in a quoted text nor, there being none, one elsewhere.
  lemma SemicolonsEndStatements(before: string, statement: seq<Piece>, rest: string)
    requires After(Scan(Outside, 0), before).quote == Outside && Written(statement) && NoSemicolon(statement)
    ensures var text, start, end := before + Text(statement) + ";" + rest, |before|, |before| + |Text(statement)|;
            && (forall p :: start <= p < end ==> !BareSemicolon(text, p)) && BareSemicolon(text, end)
            && After(Scan(Outside, 0), text[..end + 1]).quote == Outside
  {
    hide After, Text, Written, NoSemicolon, Unended;
    var s, body := Scan(Outside, 0), Text(statement);
    var text, start, end := before + body + ";" + rest, |before|, |before| + |body|;
    var there := After(s, before);
    WrittenIsBalanced(there, statement);
    WrittenIsUncut(there, statement);
    forall p | start <= p < end ensures !BareSemicolon(text, p) {
      ScanIsAfter(text, p);
      assert text[..p] == before + body[..p - start] && text[p] == body[p - start];
      AfterConcat(s, before, body[..p - start]);
      NotEnded(there, body, p - start);
    }
    ScanIsAfter(text, end);
    assert text[..end] == before + body && text[end] == ';';
    AfterConcat(s, before, body);
    assert text[..end + 1] == (before + body) + ";";
    AfterConcat(s, before + body, ";");
    OneStep(there, ';');
  }

  lemma NotEnded(s: Scan, text: string, i: nat)
    requires i < |text| && Unended(s, text)
    ensures text[i] != ';' || After(s, text[..i]).quote != Outside
  {
  }
}
