/** `SourceCodeContext.text_at_range` of client/commands/source_code_context.py: cutting text out
    of a document by line and column, related to cutting by flat offsets. */
module TextRanges {
  import opened Outcomes

  datatype Position = Position(line: int, character: int)

  /** The document with its lines joined by newlines again. */
  function Joined(lines: seq<string>): string {
    if lines == [] then ""
    else if |lines| == 1 then lines[0]
    else lines[0] + "\n" + Joined(lines[1..])
  }

  /** The flat offset at which a line begins. */
  function LineOffset(lines: seq<string>, line: nat): nat
    requires line < |lines|
  {
    if line == 0 then 0 else |lines[0]| + 1 + LineOffset(lines[1..], line - 1)
  }

  /** A position is on a line and not past its end. */
  predicate InDocument(lines: seq<string>, p: Position) {
    0 <= p.line < |lines| && 0 <= p.character <= |lines[p.line]|
  }

  function Offset(lines: seq<string>, p: Position): nat
    requires InDocument(lines, p)
  {
    LineOffset(lines, p.line) + p.character
  }

  predicate Before(a: Position, b: Position) {
    a.line < b.line || (a.line == b.line && a.character <= b.character)
  }

  /** The ranges that the code accepts: the start must be on a character, the end may be at the
      end of a line. */
  predicate ValidRange(lines: seq<string>, start: Position, end: Position) {
    && InDocument(lines, start) && start.character < |lines[start.line]|
    && InDocument(lines, end)
    && Before(start, end)
  }

  lemma {:induction false} LineInJoined(lines: seq<string>, line: nat)
    requires line < |lines|
    ensures var o := LineOffset(lines, line);
            && o + |lines[line]| <= |Joined(lines)|
            && Joined(lines)[o..o + |lines[line]|] == lines[line]
            && (line + 1 < |lines| ==> o + |lines[line]| < |Joined(lines)|
                                       && Joined(lines)[o + |lines[line]|] == '\n'
                                       && LineOffset(lines, line + 1) == o + |lines[line]| + 1)
  {
    if line == 0 {
    } else {
      LineInJoined(lines[1..], line - 1);
      var skip, o, n := |lines[0]| + 1, LineOffset(lines[1..], line - 1), |lines[line]|;
      var whole, tail := Joined(lines), Joined(lines[1..]);
      assert whole == (lines[0] + "\n") + tail;
      SliceOfSlice(whole, skip, tail, o, o + n);
    }
  }

  /** A line ends before a later one begins. */
  lemma {:induction false} LinesAreOrdered(lines: seq<string>, i: nat, j: nat)
    requires i < j < |lines|
    ensures LineOffset(lines, i) + |lines[i]| < LineOffset(lines, j)
  {
    LineInJoined(lines, j - 1);
    if i == j - 1 {
    } else {
      LinesAreOrdered(lines, i, j - 1);
    }
  }

  /** Offsets order positions exactly as lines and columns do. */
  lemma OffsetsAreOrdered(lines: seq<string>, a: Position, b: Position)
    requires InDocument(lines, a) && InDocument(lines, b)
    ensures Before(a, b) <==> Offset(lines, a) <= Offset(lines, b)
    ensures a != b <==> Offset(lines, a) != Offset(lines, b)
    ensures Offset(lines, b) <= |Joined(lines)|
  {
    LineInJoined(lines, b.line);
    if a.line < b.line {
      LinesAreOrdered(lines, a.line, b.line);
    } else if b.line < a.line {
      LinesAreOrdered(lines, b.line, a.line);
    }
  }

  /** The reference: a slice of the joined document between two flat offsets. */
  function FlatSlice(lines: seq<string>, start: Position, end: Position): Option<string> {
    if ValidRange(lines, start, end) then
      OffsetsAreOrdered(lines, start, end);
      Some(Joined(lines)[Offset(lines, start)..Offset(lines, end)])
    else
      None
  }

  method TextAtRange(lines: seq<string>, start: Position, end: Position) returns (r: Option<string>)
    ensures r == FlatSlice(lines, start, end)
    ensures r.Some? <==>
              && 0 <= start.line < |lines| && 0 <= start.character < |lines[start.line]|
              && 0 <= end.line < |lines| && 0 <= end.character <= |lines[end.line]|
              && (start.line < end.line || (start.line == end.line && start.character <= end.character))
  {
    if start.line >= |lines| || start.line < 0 || start.character < 0 || start.character >= |lines[start.line]| {
      return None;
    }
    if end.line >= |lines| || end.line < 0 || end.character < 0 || end.character > |lines[end.line]| {
      return None;
    }
    if start.line > end.line || (start.line == end.line && start.character > end.character) {
      return None;
    }
    if start.line == end.line {
      SliceOfLine(lines, start.line, start.character, end.character);
      return Some(lines[start.line][start.character..end.character]);
    }
    var result := SeveralLines(lines, start, end);
    return Some(result);
  }

  /** The rest of the first line, the lines in between, the beginning of the last line. */
  method SeveralLines(lines: seq<string>, start: Position, end: Position) returns (result: string)
    requires ValidRange(lines, start, end) && start.line < end.line
    ensures Some(result) == FlatSlice(lines, start, end)
  {
    ghost var from := Offset(lines, start);
    FirstLine(lines, start);
    result := lines[start.line][start.character..];
    for n := start.line + 1 to end.line
      invariant IsSliceUpToLine(Joined(lines), from, result, LineOffset(lines, n))
    {
      NextLine(lines, from, result, n);
      result := result + "\n" + lines[n];
    }
    LastLine(lines, from, result, end);
    result := result + "\n" + lines[end.line][..end.character];
  }

  /** `text` is what `whole` holds from `from` up to the newline before offset `next`. */
  ghost predicate IsSliceUpToLine(whole: string, from: nat, text: string, next: nat) {
    from + |text| + 1 == next <= |whole| && text == whole[from..next - 1] && whole[next - 1] == '\n'
  }

  lemma AppendSlice(whole: string, from: nat, head: string, tail: string, next: nat)
    requires IsSliceUpToLine(whole, from, head, next)
    requires next + |tail| <= |whole| && tail == whole[next..next + |tail|]
    ensures head + "\n" + tail == whole[from..next + |tail|]
  {
  }

  lemma FirstLine(lines: seq<string>, start: Position)
    requires InDocument(lines, start) && start.line + 1 < |lines|
    ensures IsSliceUpToLine(Joined(lines), Offset(lines, start), lines[start.line][start.character..],
                            LineOffset(lines, start.line + 1))
  {
    var line, c := lines[start.line], start.character;
    LineInJoined(lines, start.line);
    SliceOfLine(lines, start.line, c, |line|);
    assert line[c..] == line[c..|line|];
  }

  lemma NextLine(lines: seq<string>, from: nat, text: string, n: nat)
    requires n + 1 < |lines| && IsSliceUpToLine(Joined(lines), from, text, LineOffset(lines, n))
    ensures IsSliceUpToLine(Joined(lines), from, text + "\n" + lines[n], LineOffset(lines, n + 1))
  {
    LineInJoined(lines, n);
    AppendSlice(Joined(lines), from, text, lines[n], LineOffset(lines, n));
  }

  lemma LastLine(lines: seq<string>, from: nat, text: string, end: Position)
    requires InDocument(lines, end) && IsSliceUpToLine(Joined(lines), from, text, LineOffset(lines, end.line))
    ensures from <= Offset(lines, end) <= |Joined(lines)|
    ensures text + "\n" + lines[end.line][..end.character] == Joined(lines)[from..Offset(lines, end)]
  {
    SliceOfLine(lines, end.line, 0, end.character);
    AppendSlice(Joined(lines), from, text, lines[end.line][..end.character], LineOffset(lines, end.line));
  }

  lemma SliceOfSlice(whole: string, o: nat, part: string, i: nat, j: nat)
    requires o + |part| <= |whole| && whole[o..o + |part|] == part && i <= j <= |part|
    ensures whole[o + i..o + j] == part[i..j]
  {
    var slice := whole[o + i..o + j];
    forall k | 0 <= k < j - i ensures slice[k] == part[i..j][k] {
      assert whole[o..o + |part|][i + k] == whole[o + (i + k)];
    }
  }

  lemma SliceOfLine(lines: seq<string>, line: nat, i: nat, j: nat)
    requires line < |lines| && i <= j <= |lines[line]|
    ensures LineOffset(lines, line) + j <= |Joined(lines)|
    ensures Joined(lines)[LineOffset(lines, line) + i..LineOffset(lines, line) + j] == lines[line][i..j]
  {
    LineInJoined(lines, line);
    SliceOfSlice(Joined(lines), LineOffset(lines, line), lines[line], i, j);
  }

  /** The texts of two adjacent ranges make up the text of the whole range. */
  lemma AdjacentRanges(lines: seq<string>, a: Position, b: Position, c: Position)
    requires ValidRange(lines, a, b) && ValidRange(lines, b, c)
    ensures FlatSlice(lines, a, c) == Some(FlatSlice(lines, a, b).value + FlatSlice(lines, b, c).value)
  {
    var whole, x, y, z := Joined(lines), Offset(lines, a), Offset(lines, b), Offset(lines, c);
    OffsetsAreOrdered(lines, a, b);
    OffsetsAreOrdered(lines, b, c);
    assert whole[x..y] + whole[y..z] == whole[x..z];
  }
}
