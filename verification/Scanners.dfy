// The SQL text scanners of the database adapter: splitting a list at its
// top-level commas, cutting a script into statements, and turning character
// offsets into line and column ranges.
module Scanners {

  datatype Quote = Outside | Inside(mark: char)
  datatype Scan = Scan(quote: Quote, depth: nat)

  // The reference scanner reads one character at a time; every quote mark
  // toggles, so it needs no rule for a doubled mark.
  function ScanStep(state: Scan, c: char): Scan {
    match state.quote
    case Inside(mark) => if c == mark then state.(quote := Outside) else state
    case Outside =>
      if c == '\'' || c == '"' then state.(quote := Inside(c))
      else if c == '(' then state.(depth := state.depth + 1)
      else if c == ')' then state.(depth := if state.depth == 0 then 0 else state.depth - 1)
      else state
  }

  // The scanner's state just before position i.
  function ScanTo(text: string, i: nat): Scan
    requires i <= |text|
  {
    if i == 0 then Scan(Outside, 0) else ScanStep(ScanTo(text, i - 1), text[i - 1])
  }

  lemma {:induction false} MarksAreQuotes(text: string, i: nat)
    requires i <= |text|
    ensures var q := ScanTo(text, i).quote; q == Outside || q.mark == '\'' || q.mark == '"'
  {
    if i > 0 {
      MarksAreQuotes(text, i - 1);
    }
  }

  // Skipping a doubled quote mark leaves the scanner where toggling twice does.
  lemma DoubledMark(text: string, i: nat)
    requires i + 1 < |text| && ScanTo(text, i).quote.Inside?
    requires text[i] == text[i + 1] == ScanTo(text, i).quote.mark
    ensures ScanTo(text, i + 2) == ScanTo(text, i)
  {
    MarksAreQuotes(text, i);
    assert ScanTo(text, i + 1) == ScanTo(text, i).(quote := Outside);
  }

  lemma ScanOne(text: string, i: nat)
    requires i < |text|
    ensures ScanTo(text, i + 1) == ScanStep(ScanTo(text, i), text[i])
  {
  }

  predicate TopComma(text: string, i: nat)
    requires i < |text|
  {
    text[i] == ',' && ScanTo(text, i) == Scan(Outside, 0)
  }

  predicate BareSemicolon(text: string, i: nat)
    requires i < |text|
  {
    text[i] == ';' && ScanTo(text, i).quote == Outside
  }

  // Where the piece that is still open before position i begins.
  function OpenPiece(text: string, i: nat): (start: nat)
    requires i <= |text|
    ensures start <= i
  {
    if i == 0 then 0 else if TopComma(text, i - 1) then i else OpenPiece(text, i - 1)
  }

  // An open piece begins after a top-level comma, or at the start, and holds none.
  lemma {:induction false} OpenPieceHasNoComma(text: string, i: nat)
    requires i <= |text|
    ensures var start := OpenPiece(text, i);
            && (start == 0 || TopComma(text, start - 1))
            && forall p :: start <= p < i ==> !TopComma(text, p)
  {
    if i > 0 {
      OpenPieceHasNoComma(text, i - 1);
    }
  }

  // The pieces that top-level commas have closed before position i.
  function ClosedPieces(text: string, i: nat): (parts: seq<string>)
    requires i <= |text|
  {
    if i == 0 then []
    else if TopComma(text, i - 1) then
      ClosedPieces(text, i - 1) + [text[OpenPiece(text, i - 1)..i - 1]]
    else ClosedPieces(text, i - 1)
  }

  lemma PiecesStep(text: string, i: nat)
    requires i < |text|
    ensures ScanTo(text, i + 1) == ScanStep(ScanTo(text, i), text[i])
    ensures TopComma(text, i) <==> text[i] == ',' && ScanTo(text, i) == Scan(Outside, 0)
    ensures OpenPiece(text, i + 1) == if TopComma(text, i) then i + 1 else OpenPiece(text, i)
    ensures ClosedPieces(text, i + 1)
            == if TopComma(text, i) then ClosedPieces(text, i) + [text[OpenPiece(text, i)..i]]
               else ClosedPieces(text, i)
  {
  }

  function JoinWithCommas(parts: seq<string>): string
    requires parts != []
  {
    if |parts| == 1 then parts[0] else JoinWithCommas(parts[..|parts| - 1]) + "," + parts[|parts| - 1]
  }

  // splitTopLevel: cuts exactly at the commas the reference scanner sees
  // outside quotes and parentheses, and loses no character.
  method SplitTopLevel(value: string) returns (parts: seq<string>)
    ensures parts == ClosedPieces(value, |value|) + [value[OpenPiece(value, |value|)..]]
    ensures JoinWithCommas(parts) == value
  {
    parts := [];
    var start, depth: nat, quote, index := 0, 0, Outside, 0;
    assert OpenPiece(value, 0) == 0 && ClosedPieces(value, 0) == [] && ScanTo(value, 0) == Scan(Outside, 0);
    hide OpenPiece, ClosedPieces, TopComma, ScanTo, JoinWithCommas;
    while index < |value|
      invariant 0 <= index <= |value| && start == OpenPiece(value, index)
      invariant ScanTo(value, index) == Scan(quote, depth)
      invariant parts == ClosedPieces(value, index)
    {
      var character := value[index];
      PiecesStep(value, index);
      if quote != Outside {
        if character == quote.mark {
          if index + 1 < |value| && value[index + 1] == quote.mark {
            MarksAreQuotes(value, index);
            DoubledMark(value, index);
            PiecesStep(value, index + 1);
            index := index + 1;
          } else {
            quote := Outside;
          }
        }
        index := index + 1;
        continue;
      }
      if character == '\'' || character == '"' {
        quote := Inside(character);
      } else if character == '(' {
        depth := depth + 1;
      } else if character == ')' {
        depth := if depth == 0 then 0 else depth - 1;
      } else if character == ',' && depth == 0 {
        parts := parts + [value[start..index]];
        start := index + 1;
      }
      index := index + 1;
    }
    JoinRestores(value, |value|);
    parts := parts + [value[start..]];
  }

  lemma {:induction false} JoinRestores(text: string, i: nat)
    requires i <= |text|
    ensures JoinWithCommas(ClosedPieces(text, i) + [text[OpenPiece(text, i)..i]]) == text[..i]
  {
    var parts := ClosedPieces(text, i);
    if i == 0 {
      assert parts + [text[..0]] == [text[..0]];
    } else {
      JoinRestores(text, i - 1);
      var tail := text[OpenPiece(text, i)..i];
      assert text[..i] == text[..i - 1] + [text[i - 1]];
      if TopComma(text, i - 1) {
        assert (parts + [tail])[..|parts|] == parts;
      } else {
        var shorter := text[OpenPiece(text, i)..i - 1];
        assert tail == shorter + [text[i - 1]];
        JoinExtendsLast(parts, shorter, [text[i - 1]]);
      }
    }
  }

  lemma JoinExtendsLast(parts: seq<string>, last: string, more: string)
    ensures JoinWithCommas(parts + [last + more]) == JoinWithCommas(parts + [last]) + more
  {
    assert (parts + [last])[..|parts|] == parts == (parts + [last + more])[..|parts|];
  }

  // --- statements -------------------------------------------------------

  datatype Fact = Fact(offset: nat, length: nat)

  ghost predicate Visible(text: string, blank: char -> bool, p: nat) {
    p < |text| && !blank(text[p])
  }

  // A non-empty range of the text that starts and ends at a non-blank.
  ghost predicate Trimmed(text: string, blank: char -> bool, f: Fact) {
    && 0 < f.length && f.offset + f.length <= |text|
    && !blank(text[f.offset]) && !blank(text[f.offset + f.length - 1])
  }

  ghost predicate Covers(f: Fact, p: nat) {
    f.offset <= p < f.offset + f.length
  }

  ghost predicate InOrder(facts: seq<Fact>) {
    forall j, k :: 0 <= j < k < |facts| ==> facts[j].offset + facts[j].length <= facts[k].offset
  }

  // An unquoted semicolon inside a range is its last character.
  ghost predicate ClosedBySemicolon(text: string, f: Fact)
    requires f.offset + f.length <= |text|
  {
    forall p :: Covers(f, p) && BareSemicolon(text, p) ==> p == f.offset + f.length - 1
  }

  method Trim(text: string, blank: char -> bool, from: nat, to: nat) returns (r: seq<Fact>)
    requires from <= to <= |text|
    ensures |r| <= 1
    ensures r != [] ==> Trimmed(text, blank, r[0]) && from <= r[0].offset && r[0].offset + r[0].length <= to
    ensures forall p :: from <= p < to && Visible(text, blank, p) ==> r != [] && Covers(r[0], p)
  {
    var leading := from;
    while leading < to && blank(text[leading])
      invariant from <= leading <= to
      invariant forall p :: from <= p < leading ==> blank(text[p])
    {
      leading := leading + 1;
    }
    if leading == to {
      return [];
    }
    var end := to;
    while leading < end && blank(text[end - 1])
      invariant leading < end <= to
      invariant forall p :: end <= p < to ==> blank(text[p])
    {
      end := end - 1;
    }
    return [Fact(leading, end - leading)];
  }

  ghost predicate EndsAtSemicolon(text: string, f: Fact) {
    f.length > 0 && f.offset + f.length <= |text| && BareSemicolon(text, f.offset + f.length - 1)
  }

  // A trimmed range before `start` with an unquoted semicolon at most at its end.
  ghost predicate Statement(text: string, blank: char -> bool, f: Fact, start: nat) {
    && Trimmed(text, blank, f) && f.offset + f.length <= start <= |text|
    && ClosedBySemicolon(text, f)
  }

  // The ranges recorded once everything before `start` has been cut.
  ghost predicate CutUpTo(text: string, blank: char -> bool, result: seq<Fact>, start: nat)
    requires start <= |text|
  {
    && (forall k :: 0 <= k < |result| ==> Statement(text, blank, result[k], start))
    && InOrder(result)
    && (forall p :: 0 <= p < start && Visible(text, blank, p) ==>
          exists k :: 0 <= k < |result| && Covers(result[k], p))
  }

  lemma CutFurther(text: string, blank: char -> bool, result: seq<Fact>, start: nat, added: seq<Fact>, to: nat)
    requires start <= to <= |text| && CutUpTo(text, blank, result, start)
    requires |added| <= 1
    requires added != [] ==>
               Trimmed(text, blank, added[0]) && start <= added[0].offset && added[0].offset + added[0].length <= to
    requires forall p :: start <= p < to && Visible(text, blank, p) ==> added != [] && Covers(added[0], p)
    requires forall p :: start <= p < to - 1 ==> !BareSemicolon(text, p)
    ensures CutUpTo(text, blank, result + added, to)
  {
    var all := result + added;
    assert forall k :: 0 <= k < |all| ==> all[k] == if k < |result| then result[k] else added[0];
    if added != [] {
      assert Statement(text, blank, added[0], to);
    }
    assert InOrder(all);
    forall p | 0 <= p < to && Visible(text, blank, p)
      ensures exists k :: 0 <= k < |all| && Covers(all[k], p)
    {
      if p < start {
        var k :| 0 <= k < |result| && Covers(result[k], p);
        assert Covers(all[k], p);
      } else {
        assert Covers(all[|result|], p);
      }
    }
  }

  // statements: the ranges are trimmed, in order, disjoint, cover every
  // non-blank character, and are separated exactly at unquoted semicolons.
  method Statements(text: string, blank: char -> bool) returns (result: seq<Fact>)
    requires !blank(';')
    ensures CutUpTo(text, blank, result, |text|)
    ensures forall k :: 0 <= k < |result| - 1 ==> EndsAtSemicolon(text, result[k])
  {
    result := [];
    var start: nat, quote, index: nat := 0, Outside, 0;
    assert ScanTo(text, 0).quote == Outside;
    hide ScanTo;
    while index < |text|
      invariant start <= index <= |text| && ScanTo(text, index).quote == quote
      invariant forall p :: start <= p < index ==> !BareSemicolon(text, p)
      invariant CutUpTo(text, blank, result, start)
      invariant forall k :: 0 <= k < |result| ==> EndsAtSemicolon(text, result[k])
    {
      var character := text[index];
      ScanOne(text, index);
      if quote != Outside {
        if character == quote.mark {
          if index + 1 < |text| && text[index + 1] == quote.mark {
            DoubledMark(text, index);
            ScanOne(text, index + 1);
            assert ScanTo(text, index + 1).quote == Outside && text[index + 1] != ';' by {
              MarksAreQuotes(text, index);
            }
            index := index + 1;
          } else {
            quote := Outside;
          }
        }
        index := index + 1;
        continue;
      }
      if character == '\'' || character == '"' {
        quote := Inside(character);
      } else if character == ';' {
        assert Visible(text, blank, index);
        var added := Trim(text, blank, start, index + 1);
        CutFurther(text, blank, result, start, added, index + 1);
        result := result + added;
        start := index + 1;
      }
      index := index + 1;
    }
    var added := Trim(text, blank, start, |text|);
    CutFurther(text, blank, result, start, added, |text|);
    result := result + added;
  }
}
