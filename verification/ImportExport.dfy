/** Exporting rows as lines and reading lines back. */
module ImportExport {
  import opened Paths

  const CR: Unit := 0x0D
  const LF: Unit := 0x0A

  /** The UTF-16 units that are white space on their own. */
  predicate IsTrimUnit(unit: Unit) {
    || 0x09 <= unit <= 0x0D || unit == 0x20 || unit == 0x85 || unit == 0xA0 || unit == 0x1680
    || 0x2000 <= unit <= 0x200A || unit == 0x2028 || unit == 0x2029 || unit == 0x202F || unit == 0x205F || unit == 0x3000
  }

  function FirstKept(units: Text): (first: nat)
    ensures first <= |units|
    ensures forall i | 0 <= i < first :: IsTrimUnit(units[i])
    ensures first < |units| ==> !IsTrimUnit(units[first])
  {
    if units == [] || !IsTrimUnit(units[0]) then 0 else 1 + FirstKept(units[1..])
  }

  /** One past the last unit to keep; the first kept position when there is none. */
  function EndKept(units: Text): (end: nat)
    ensures FirstKept(units) <= end <= |units|
    ensures forall i | end <= i < |units| :: IsTrimUnit(units[i])
    ensures end == FirstKept(units) <==> FirstKept(units) == |units|
    ensures end > FirstKept(units) ==> !IsTrimUnit(units[end - 1])
  {
    var end := LastKept(units);
    if end == 0 then FirstKept(units) else end
  }

  function LastKept(units: Text): (end: nat)
    ensures end <= |units|
    ensures forall i | end <= i < |units| :: IsTrimUnit(units[i])
    ensures end > 0 ==> !IsTrimUnit(units[end - 1])
  {
    if units == [] then 0
    else if !IsTrimUnit(units[|units| - 1]) then |units|
    else LastKept(units[..|units| - 1])
  }

  function Trimmed(units: Text): Text {
    units[FirstKept(units)..EndKept(units)]
  }

  /** A line that import keeps as it is. */
  predicate IsLine(line: Text) {
    line != [] && !IsTrimUnit(line[0]) && !IsTrimUnit(line[|line| - 1]) && LF !in line
  }

  function FirstLineFeed(text: Text): (i: nat)
    ensures i <= |text|
    ensures forall k | 0 <= k < i :: text[k] != LF
    ensures i < |text| ==> text[i] == LF
  {
    if text == [] || text[0] == LF then 0 else 1 + FirstLineFeed(text[1..])
  }

  function KeptLine(piece: Text): seq<Text> {
    if Trimmed(piece) == [] then [] else [Trimmed(piece)]
  }

  /** Splits at line feeds, trims each piece and skips the blank ones. */
  function ParseImportLines(text: Text): seq<Text>
    decreases |text|
  {
    var i := FirstLineFeed(text);
    if i == |text| then KeptLine(text) else KeptLine(text[..i]) + ParseImportLines(text[i + 1..])
  }

  function ExportLines(lines: seq<Text>): Text {
    if lines == [] then [] else lines[0] + [CR, LF] + ExportLines(lines[1..])
  }

  lemma TrimmedIsLine(piece: Text)
    requires LF !in piece && Trimmed(piece) != []
    ensures IsLine(Trimmed(piece))
  {
    var line := Trimmed(piece);
    assert forall i | 0 <= i < |line| :: line[i] in piece;
  }

  lemma {:induction false} ParsedAreLines(text: Text)
    ensures forall k | 0 <= k < |ParseImportLines(text)| :: IsLine(ParseImportLines(text)[k])
    decreases |text|
  {
    hide Trimmed, FirstLineFeed, IsLine;
    ParseStep(text);
    var i := FirstLineFeed(text);
    if Trimmed(text[..i]) != [] { TrimmedIsLine(text[..i]); }
    if i < |text| { ParsedAreLines(text[i + 1..]); }
  }

  lemma LineSurvivesExport(line: Text)
    requires IsLine(line)
    ensures Trimmed(line + [CR]) == line
  {
    var piece := line + [CR];
    assert piece[0] == line[0] && FirstKept(piece) == 0;
    assert piece[|line| - 1] == line[|line| - 1] && piece[|line|] == CR;
    assert EndKept(piece) == |line|;
  }

  /** Lines that import would keep come back exactly. */
  lemma {:induction false} ParseUndoesExport(lines: seq<Text>)
    requires forall k | 0 <= k < |lines| :: IsLine(lines[k])
    ensures ParseImportLines(ExportLines(lines)) == lines
  {
    if lines != [] {
      var line, rest := lines[0], ExportLines(lines[1..]);
      var text := ExportLines(lines);
      var piece := line + [CR];
      assert text == piece + [LF] + rest;
      assert forall k | 0 <= k < |piece| :: text[k] == piece[k];
      assert text[|piece|] == LF;
      assert FirstLineFeed(text) == |piece|;
      assert text[..|piece|] == piece && text[|piece| + 1..] == rest;
      LineSurvivesExport(line);
      ParseUndoesExport(lines[1..]);
    }
  }

  /** For every text: exporting its lines and parsing again gives the same lines. */
  lemma ReparseIsStable(text: Text)
    ensures ParseImportLines(ExportLines(ParseImportLines(text))) == ParseImportLines(text)
  {
    ParsedAreLines(text);
    ParseUndoesExport(ParseImportLines(text));
  }

  lemma ParseStep(text: Text)
    ensures var i := FirstLineFeed(text);
            ParseImportLines(text) == KeptLine(text[..i]) + if i == |text| then [] else ParseImportLines(text[i + 1..])
  {
    hide Trimmed, FirstLineFeed, KeptLine;
    var i := FirstLineFeed(text);
    assert text[..|text|] == text;
  }

  lemma AddLine(all: seq<Text>, lines: seq<Text>, line: seq<Text>, ahead: seq<Text>)
    requires all == lines + (line + ahead)
    ensures all == lines + line + ahead && (line == [] ==> all == lines + ahead)
  {
    assert line == [] ==> line + ahead == ahead;
  }

  lemma CutLines(all: seq<Text>, lines: seq<Text>, ahead: seq<Text>, limit: nat)
    requires all == lines + ahead && |lines| > limit
    ensures |all| > limit && all[..limit] == lines[..limit]
  {
  }

  lemma KeptLineIs(piece: Text)
    ensures KeptLine(piece) == if Trimmed(piece) == [] then [] else [Trimmed(piece)]
  {
  }

  /** At most `limit` lines plus an exact overflow flag, read piece by piece. */
  method BoundedImportLines(text: Text, limit: nat) returns (lines: seq<Text>, overflow: bool)
    ensures var all := ParseImportLines(text);
            && overflow == (|all| > limit)
            && lines == if overflow then all[..limit] else all
  {
    hide Trimmed, ParseImportLines, FirstLineFeed, KeptLine;
    lines := [];
    var rest, finished := text, false;
    ghost var all, ahead := ParseImportLines(text), ParseImportLines(text);
    while !finished
      invariant |lines| <= limit && all == lines + ahead
      invariant ahead == if finished then [] else ParseImportLines(rest)
      invariant finished ==> all == lines
      decreases |rest|, !finished
    {
      ParseStep(rest);
      var i := FirstLineFeed(rest);
      var kept := Trimmed(rest[..i]);
      ghost var line := KeptLine(rest[..i]);
      KeptLineIs(rest[..i]);
      AddLine(all, lines, line, if i == |rest| then [] else ParseImportLines(rest[i + 1..]));
      if i == |rest| {
        finished, ahead := true, [];
        assert lines + line + ahead == lines + line;
      } else {
        rest := rest[i + 1..];
        ahead := ParseImportLines(rest);
      }
      if kept != [] {
        lines := lines + [kept];
        if |lines| > limit {
          CutLines(all, lines, ahead, limit);
          return lines[..limit], true;
        }
      }
    }
    overflow := false;
  }

  // ----- The parser in terms of the text -----

  /** The white space of Unicode among the UTF-16 units. */
  ghost predicate IsWhiteSpace(unit: Unit) {
    unit in {0x09, 0x0A, 0x0B, 0x0C, 0x0D, 0x20, 0x85, 0xA0, 0x1680, 0x2000, 0x2001, 0x2002, 0x2003, 0x2004, 0x2005, 0x2006,
             0x2007, 0x2008, 0x2009, 0x200A, 0x2028, 0x2029, 0x202F, 0x205F, 0x3000}
  }

  lemma TrimUnitMeaning(unit: Unit)
    ensures IsTrimUnit(unit) <==> IsWhiteSpace(unit)
  {}

  /** White space around a text is cut, and nothing else. */
  lemma TrimmedMeaning(before: Text, core: Text, after: Text)
    requires (forall u | u in before :: IsWhiteSpace(u)) && (forall u | u in after :: IsWhiteSpace(u))
    requires core != [] ==> !IsWhiteSpace(core[0]) && !IsWhiteSpace(core[|core| - 1])
    ensures Trimmed(before + core + after) == core
  {
    hide IsTrimUnit, IsWhiteSpace, FirstKept, EndKept;
    var text := before + core + after;
    forall unit: Unit ensures IsTrimUnit(unit) <==> IsWhiteSpace(unit) { TrimUnitMeaning(unit); }
    forall i | 0 <= i < |text| && !(|before| <= i < |before + core|) ensures IsTrimUnit(text[i]) {
      assert text[i] == if i < |before| then before[i] else after[i - |before + core|];
    }
    if core == [] {
      assert FirstKept(text) == |text|;
    } else {
      assert text[|before|] == core[0] && text[|before + core| - 1] == core[|core| - 1];
      assert FirstKept(text) == |before| && EndKept(text) == |before + core|;
    }
    assert text[|before|..|before + core|] == core;
  }

  /** A line feed separates what comes before it from what comes after. */
  lemma {:induction false} ParseSplits(a: Text, b: Text)
    ensures ParseImportLines(a + [0x0A] + b) == ParseImportLines(a) + ParseImportLines(b)
    decreases |a|
  {
    hide KeptLine, FirstLineFeed, ParseImportLines;
    var text, i := a + [0x0A] + b, FirstLineFeed(a);
    assert forall k | 0 <= k < |a| :: text[k] == a[k];
    FirstLineFeedIs(text, i);
    ParseStep(text);
    ParseStep(a);
    if i == |a| {
      assert text[..i] == a == a[..i] && text[i + 1..] == b;
    } else {
      assert text[..i] == a[..i] && text[i + 1..] == a[i + 1..] + [0x0A] + b;
      ParseSplits(a[i + 1..], b);
    }
  }

  lemma FirstLineFeedIs(text: Text, i: nat)
    requires i < |text| && text[i] == LF && forall k | 0 <= k < i :: text[k] != LF
    ensures FirstLineFeed(text) == i
  {}

  /** A line gives its core between the white space, and a blank one gives nothing. */
  lemma ParseLine(before: Text, core: Text, after: Text)
    requires (forall u | u in before :: IsWhiteSpace(u)) && (forall u | u in after :: IsWhiteSpace(u))
    requires core != [] ==> !IsWhiteSpace(core[0]) && !IsWhiteSpace(core[|core| - 1])
    requires 0x0A !in before + core + after
    ensures ParseImportLines(before + core + after) == if core == [] then [] else [core]
  {
    hide IsWhiteSpace, Trimmed;
    TrimmedMeaning(before, core, after);
    assert FirstLineFeed(before + core + after) == |before + core + after|;
  }

  /** Every exported line ends with a carriage return and a line feed. */
  lemma ExportOne(line: Text)
    ensures ExportLines([]) == [] && ExportLines([line]) == line + [0x0D, 0x0A]
  {
    var rest: seq<Text> := [line][1..];
    assert rest == [];
  }

  lemma {:induction false} ExportSplits(a: seq<Text>, b: seq<Text>)
    ensures ExportLines(a + b) == ExportLines(a) + ExportLines(b)
  {
    if a == [] {
      assert a + b == b;
    } else {
      assert (a + b)[1..] == a[1..] + b;
      ExportSplits(a[1..], b);
    }
  }
}
