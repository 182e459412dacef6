// Character offsets as line and column positions.
module SourceRanges {

  datatype Position = Position(line: nat, column: int)
  datatype SourceRange = SourceRange(startLine: nat, startColumn: int, endLine: nat, endColumn: int)

  // The offsets at which lines begin: 0 and every offset after a newline.
  function LineStarts(text: string): (starts: seq<nat>)
    ensures LineTable(starts)
    ensures starts[|starts| - 1] <= |text|
  {
    if text == "" then [0]
    else
      var n := |text| - 1;
      LineStarts(text[..n]) + (if text[n] == '\n' then [n + 1] else [])
  }

  predicate LineTable(starts: seq<nat>) {
    && starts != [] && starts[0] == 0
    && forall i, j :: 0 <= i < j < |starts| ==> starts[i] < starts[j]
  }

  // The last line that begins at or before the offset, searched from `line`.
  function LineFrom(starts: seq<nat>, offset: nat, line: nat): (r: nat)
    requires line < |starts|
    ensures line <= r < |starts|
    decreases |starts| - line
  {
    if line + 1 < |starts| && starts[line + 1] <= offset then LineFrom(starts, offset, line + 1) else line
  }

  function PositionOf(starts: seq<nat>, offset: nat): Position
    requires starts != []
  {
    var line := LineFrom(starts, offset, 0);
    Position(line + 1, offset - starts[line] + 1)
  }

  function RangeOf(starts: seq<nat>, offset: nat, length: nat): SourceRange
    requires starts != []
  {
    var start, end := PositionOf(starts, offset), PositionOf(starts, offset + length);
    SourceRange(start.line, start.column, end.line, end.column)
  }

  // The range check applied to every definition and reference.
  predicate AcceptedRange(r: SourceRange) {
    && r.startLine > 0 && r.startColumn > 0 && r.endLine > 0 && r.endColumn > 0
    && (r.endLine > r.startLine || (r.endLine == r.startLine && r.endColumn >= r.startColumn))
  }

  method FindPosition(starts: seq<nat>, offset: nat) returns (p: Position)
    requires starts != []
    ensures p == PositionOf(starts, offset)
  {
    var line: nat := 0;
    while line + 1 < |starts| && starts[line + 1] <= offset
      invariant line < |starts|
      invariant LineFrom(starts, offset, 0) == LineFrom(starts, offset, line)
    {
      line := line + 1;
    }
    p := Position(line + 1, offset - starts[line] + 1);
  }

  method ApproximateRange(starts: seq<nat>, offset: nat, length: nat) returns (r: SourceRange)
    requires starts != []
    ensures r == RangeOf(starts, offset, length)
    ensures LineTable(starts) ==> AcceptedRange(r)
  {
    var start := FindPosition(starts, offset);
    var end := FindPosition(starts, offset + length);
    r := SourceRange(start.line, start.column, end.line, end.column);
    if LineTable(starts) {
      PositionsIncrease(starts, offset, offset + length);
      PositionInverts(starts, offset);
      PositionInverts(starts, offset + length);
    }
  }

  lemma {:induction false} LineFromBrackets(starts: seq<nat>, offset: nat, line: nat)
    requires LineTable(starts) && line < |starts| && starts[line] <= offset
    ensures var r := LineFrom(starts, offset, line);
            starts[r] <= offset && (r + 1 < |starts| ==> offset < starts[r + 1])
    decreases |starts| - line
  {
    if line + 1 < |starts| && starts[line + 1] <= offset {
      LineFromBrackets(starts, offset, line + 1);
    }
  }

  // The offset can be recovered from its position.
  lemma PositionInverts(starts: seq<nat>, offset: nat)
    requires LineTable(starts)
    ensures var p := PositionOf(starts, offset);
            0 < p.line <= |starts| && 0 < p.column && starts[p.line - 1] + p.column - 1 == offset
  {
    LineFromBrackets(starts, offset, 0);
  }

  lemma PositionsIncrease(starts: seq<nat>, first: nat, second: nat)
    requires LineTable(starts) && first <= second
    ensures var p, q := PositionOf(starts, first), PositionOf(starts, second);
            p.line < q.line || (p.line == q.line && q.column - p.column == second - first)
  {
    LineFromBrackets(starts, first, 0);
    LineFromBrackets(starts, second, 0);
  }

  function Newlines(text: string): nat {
    if text == "" then 0
    else Newlines(text[..|text| - 1]) + if text[|text| - 1] == '\n' then 1 else 0
  }

  function LastLineLength(text: string): nat {
    if text == "" || text[|text| - 1] == '\n' then 0 else 1 + LastLineLength(text[..|text| - 1])
  }

  lemma {:induction false} StartsOfPrefix(text: string, n: nat)
    requires n <= |text|
    ensures LineStarts(text[..n]) <= LineStarts(text)
    ensures forall i :: |LineStarts(text[..n])| <= i < |LineStarts(text)| ==> n < LineStarts(text)[i]
  {
    if n == |text| {
      assert text[..n] == text;
    } else {
      var shorter := text[..|text| - 1];
      assert shorter[..n] == text[..n];
      StartsOfPrefix(shorter, n);
    }
  }

  lemma {:induction false} StartsCountNewlines(text: string)
    ensures var starts := LineStarts(text);
            |starts| == Newlines(text) + 1 && starts[|starts| - 1] + LastLineLength(text) == |text|
  {
    if text != "" {
      StartsCountNewlines(text[..|text| - 1]);
    }
  }

  // The position of an offset counts the newlines before it and the
  // characters since the last of them: what splitting the prefix into lines gives.
  lemma PositionCountsLines(text: string, offset: nat)
    requires offset <= |text|
    ensures PositionOf(LineStarts(text), offset) ==
            Position(Newlines(text[..offset]) + 1, LastLineLength(text[..offset]) + 1)
  {
    var starts, before := LineStarts(text), LineStarts(text[..offset]);
    StartsOfPrefix(text, offset);
    StartsCountNewlines(text[..offset]);
    var k := |before| - 1;
    assert starts[k] == before[k];
    LineDetermined(starts, offset, k);
  }

  lemma LineDetermined(starts: seq<nat>, offset: nat, k: nat)
    requires LineTable(starts) && k < |starts| && starts[k] <= offset
    requires k + 1 < |starts| ==> offset < starts[k + 1]
    ensures LineFrom(starts, offset, 0) == k
  {
    LineFromBrackets(starts, offset, 0);
  }
}
