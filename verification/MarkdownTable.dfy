/** The Markdown tables of scripts/summarize_results.py: `append_table` prints cells between
    pipes with the pipes inside cells escaped, and a reader in the manner of section 4.10 of the
    GitHub Flavored Markdown specification takes a printed table apart again. */
module MarkdownTable {
  import opened Prelude

  datatype Table = Table(headings: seq<string>, rows: seq<seq<string>>)

  // ----- printing

  /** A backslash goes in front of every pipe. */
  function Escape(s: string): string {
    if s == "" then "" else (if s[0] == '|' then "\\|" else [s[0]]) + Escape(s[1..])
  }

  function EscapeAll(cells: seq<string>): (r: seq<string>)
    ensures |r| == |cells| && forall i :: 0 <= i < |r| ==> r[i] == Escape(cells[i])
  {
    seq(|cells|, i requires 0 <= i < |cells| => Escape(cells[i]))
  }

  function Join(sep: string, parts: seq<string>): string {
    if parts == [] then ""
    else if |parts| == 1 then parts[0]
    else parts[0] + sep + Join(sep, parts[1..])
  }

  /** One line: the cells as they are. */
  function Line(cells: seq<string>): string { "| " + Join(" | ", cells) + " |" }

  function Dashes(n: nat): (r: seq<string>)
    ensures |r| == n && forall i :: 0 <= i < n ==> r[i] == "---"
  {
    seq(n, _ => "---")
  }

  function RowLines(rows: seq<seq<string>>): (r: seq<string>)
    ensures |r| == |rows|
  {
    seq(|rows|, i requires 0 <= i < |rows| => Line(EscapeAll(rows[i])))
  }

  /** The lines `append_table` appends. */
  function TableLines(t: Table): seq<string> {
    [Line(t.headings), Line(Dashes(|t.headings|))] + RowLines(t.rows) + [""]
  }

  class Report {
    var lines: seq<string>

    constructor ()
      ensures lines == []
    {
      lines := [];
    }

    method Append(line: string)
      modifies this
      ensures lines == old(lines) + [line]
    {
      lines := lines + [line];
    }

    method AppendTable(headings: seq<string>, rows: seq<seq<string>>)
      modifies this
      ensures lines == old(lines) + TableLines(Table(headings, rows))
    {
      Append(Line(headings));
      Append(Line(Dashes(|headings|)));
      var n := 0;
      while n < |rows|
        invariant n <= |rows|
        invariant lines == old(lines) + [Line(headings), Line(Dashes(|headings|))] + RowLines(rows)[..n]
      {
        Append(Line(EscapeAll(rows[n])));
        n := n + 1;
      }
      Append("");
    }
  }

  // ----- reading

  /** The pieces of a line between pipes that no backslash stands before; prev is the
      character in front of s. */
  function Segments(s: string, prev: char): (r: seq<string>)
    ensures |r| >= 1
  {
    if s == "" then [""]
    else
      var rest := Segments(s[1..], s[0]);
      if s[0] == '|' && prev != '\\' then [""] + rest
      else [[s[0]] + rest[0]] + rest[1..]
  }

  /** One padding space off each side. */
  function Unpad(s: string): string {
    if |s| >= 2 && s[0] == ' ' && s[|s| - 1] == ' ' then s[1..|s| - 1] else s
  }

  /** The backslash before each pipe goes. */
  function Unescape(s: string): string {
    if s == "" then ""
    else if |s| >= 2 && s[0] == '\\' && s[1] == '|' then "|" + Unescape(s[2..])
    else [s[0]] + Unescape(s[1..])
  }

  function ReadCells(segments: seq<string>): (r: seq<string>)
    ensures |r| == |segments|
  {
    seq(|segments|, i requires 0 <= i < |segments| => Unescape(Unpad(segments[i])))
  }

  /** The cells between the first and the last pipe of a line. */
  function ReadRow(line: string): seq<string> {
    var segments := Segments(line, ' ');
    if |segments| < 2 then [] else ReadCells(segments[1..|segments| - 1])
  }

  function ReadRows(lines: seq<string>): (r: seq<seq<string>>)
    ensures |r| == |lines|
  {
    seq(|lines|, i requires 0 <= i < |lines| => ReadRow(lines[i]))
  }

  /** Hyphens, at least one, with a colon at either end or at none. */
  predicate IsDelimiter(cell: string) {
    var from, to := if cell != "" && cell[0] == ':' then 1 else 0, if cell != "" && cell[|cell| - 1] == ':' then |cell| - 1 else |cell|;
    from < to && forall i :: from <= i < to ==> cell[i] == '-'
  }

  predicate IsDelimiterRow(cells: seq<string>, width: nat) {
    |cells| == width && forall i :: 0 <= i < |cells| ==> IsDelimiter(cells[i])
  }

  /** A heading line, a delimiter line of the same width, the rows, and an empty line. */
  function ReadTable(lines: seq<string>): Option<Table> {
    if |lines| >= 3 && lines[|lines| - 1] == "" && IsDelimiterRow(ReadRow(lines[1]), |ReadRow(lines[0])|)
    then Some(Table(ReadRow(lines[0]), ReadRows(lines[2..|lines| - 1])))
    else None
  }

  // ----- escaping is undone

  lemma {:induction false} UnescapeUndoesEscape(s: string)
    ensures Unescape(Escape(s)) == s
    ensures Escape(s) != "" ==> Escape(s)[0] != '|'
  {
    if s != "" {
      UnescapeUndoesEscape(s[1..]);
      EscapeStep(s);
      hide Escape, Unescape;
      UnescapeStep(s[0], Escape(s[1..]));
      assert s == [s[0]] + s[1..];
    }
  }

  lemma EscapeStep(s: string)
    requires s != ""
    ensures Escape(s) == (if s[0] == '|' then "\\|" else [s[0]]) + Escape(s[1..])
  {
  }

  lemma UnescapeStep(c: char, e: string)
    requires e != "" ==> e[0] != '|'
    ensures Unescape((if c == '|' then "\\|" else [c]) + e) == [c] + Unescape(e)
  {
    if c == '|' {
      assert ("\\|" + e)[2..] == e;
    } else {
      assert ([c] + e)[1..] == e;
    }
  }

  lemma {:induction false} UnescapeOfPlain(s: string)
    requires '|' !in s
    ensures Unescape(s) == s
  {
    if s != "" {
      UnescapeOfPlain(s[1..]);
    }
  }

  lemma {:induction false} UnescapeShrinks(s: string)
    ensures |Unescape(s)| <= |s|
  {
    if s != "" {
      if |s| >= 2 && s[0] == '\\' && s[1] == '|' { UnescapeShrinks(s[2..]); } else { UnescapeShrinks(s[1..]); }
    }
  }

  // ----- where lines are cut

  /** Number of pipes that cut: no backslash before them. */
  function Cuts(s: string, prev: char): nat {
    if s == "" then 0 else (if s[0] == '|' && prev != '\\' then 1 else 0) + Cuts(s[1..], s[0])
  }

  function LastChar(s: string, prev: char): char { if s == "" then prev else s[|s| - 1] }

  lemma {:induction false} SegmentsOfConcat(x: string, y: string, prev: char)
    requires Cuts(x, prev) == 0
    ensures var r := Segments(y, LastChar(x, prev));
            Segments(x + y, prev) == [x + r[0]] + r[1..]
  {
    var r := Segments(y, LastChar(x, prev));
    if x == "" {
      assert x + y == y && x + r[0] == r[0];
    } else {
      assert (x + y)[1..] == x[1..] + y;
      SegmentsOfConcat(x[1..], y, x[0]);
      assert [x[0]] + (x[1..] + r[0]) == x + r[0];
    }
  }

  lemma {:induction false} CutsOfConcat(x: string, y: string, prev: char)
    ensures Cuts(x + y, prev) == Cuts(x, prev) + Cuts(y, LastChar(x, prev))
  {
    if x == "" {
      assert x + y == y;
    } else {
      assert (x + y)[1..] == x[1..] + y;
      CutsOfConcat(x[1..], y, x[0]);
    }
  }

  lemma {:induction false} SegmentsAreCuts(s: string, prev: char)
    ensures |Segments(s, prev)| == Cuts(s, prev) + 1
  {
    if s != "" {
      SegmentsAreCuts(s[1..], s[0]);
    }
  }

  lemma {:induction false} EscapedHasNoCuts(s: string, prev: char)
    ensures Cuts(Escape(s), prev) == 0
  {
    if s != "" {
      var e := Escape(s[1..]);
      EscapedHasNoCuts(s[1..], s[0]);
      if s[0] == '|' {
        assert ("\\|" + e)[1..] == "|" + e && ("|" + e)[1..] == e;
      } else {
        assert ([s[0]] + e)[1..] == e;
      }
    }
  }

  // ----- reading a line

  /** What follows the first pipe of a line. */
  function Body(cells: seq<string>): string {
    if cells == [] then "" else " " + cells[0] + " |" + Body(cells[1..])
  }

  lemma {:induction false} LineIsBody(cells: seq<string>)
    requires cells != []
    ensures Line(cells) == "|" + Body(cells)
  {
    if |cells| == 1 {
      assert cells[1..] == [];
      assert Body(cells) == " " + cells[0] + " |";
    } else {
      LineIsBody(cells[1..]);
      Regroup(cells[0], Join(" | ", cells[1..]), Body(cells[1..]));
    }
  }

  lemma Regroup(c: string, joined: string, body: string)
    requires "| " + joined + " |" == "|" + body
    ensures "| " + (c + " | " + joined) + " |" == "|" + (" " + c + " |" + body)
  {
    assert "| " + (c + " | " + joined) + " |" == "| " + c + " " + ("| " + joined + " |");
  }

  function Padded(cells: seq<string>): (r: seq<string>)
    ensures |r| == |cells| && forall i :: 0 <= i < |r| ==> r[i] == " " + cells[i] + " "
  {
    seq(|cells|, i requires 0 <= i < |cells| => " " + cells[i] + " ")
  }

  ghost predicate Uncut(cells: seq<string>) {
    forall i :: 0 <= i < |cells| ==> Cuts(cells[i], ' ') == 0
  }

  lemma PaddedCuts(c: string)
    ensures Cuts(" " + c + " ", '|') == Cuts(c, ' ')
  {
    assert (" " + c)[1..] == c;
    CutsOfConcat(" " + c, " ", '|');
    assert " "[1..] == "";
  }

  lemma {:induction false} SegmentsOfBody(cells: seq<string>)
    requires Uncut(cells)
    ensures Segments(Body(cells), '|') == Padded(cells) + [""]
  {
    if cells == [] {
    } else {
      assert Cuts(cells[0], ' ') == 0 && Uncut(cells[1..]);
      BodyStep(cells);
      hide *;
      SegmentsOfBody(cells[1..]);
      PaddedCuts(cells[0]);
      SegmentsUpToPipe(" " + cells[0] + " ", Body(cells[1..]));
      Prepended(" " + cells[0] + " ", Padded(cells[1..]));
    }
  }

  lemma BodyStep(cells: seq<string>)
    requires cells != []
    ensures Body(cells) == " " + cells[0] + " " + ("|" + Body(cells[1..]))
    ensures Padded(cells) == [" " + cells[0] + " "] + Padded(cells[1..])
  {
    SplitPadding(cells[0], Body(cells[1..]));
    PaddedStep(cells);
  }

  lemma PaddedStep(cells: seq<string>)
    requires cells != []
    ensures Padded(cells) == [" " + cells[0] + " "] + Padded(cells[1..])
  {
  }

  lemma SplitPadding(c: string, rest: string)
    ensures " " + c + " |" + rest == " " + c + " " + ("|" + rest)
  {
    assert " |" == " " + "|";
  }

  lemma Prepended(cell: string, cells: seq<string>)
    ensures [cell] + (cells + [""]) == [cell] + cells + [""]
  {
  }

  /** The first piece of a line ends at the first pipe that cuts. */
  lemma SegmentsUpToPipe(c: string, rest: string)
    requires Cuts(c, '|') == 0 && c != "" && c[|c| - 1] == ' '
    ensures Segments(c + ("|" + rest), '|') == [c] + Segments(rest, '|')
  {
    SegmentsOfConcat(c, "|" + rest, '|');
    assert ("|" + rest)[1..] == rest;
    assert Segments("|" + rest, ' ') == [""] + Segments(rest, '|');
    assert c + "" == c;
  }

  lemma {:induction false} CutsOfBody(cells: seq<string>)
    ensures Cuts(Body(cells), '|') >= |cells|
    ensures !Uncut(cells) ==> Cuts(Body(cells), '|') > |cells|
  {
    if cells != [] {
      var c, rest := " " + cells[0] + " ", Body(cells[1..]);
      CutsOfBody(cells[1..]);
      PaddedCuts(cells[0]);
      assert Body(cells) == c + ("|" + rest);
      CutsOfConcat(c, "|" + rest, '|');
      assert ("|" + rest)[1..] == rest;
      if Cuts(cells[0], ' ') == 0 && !Uncut(cells) {
        var i :| 0 <= i < |cells| && Cuts(cells[i], ' ') != 0;
        assert cells[1..][i - 1] == cells[i];
      }
    }
  }

  lemma UnpadPadded(c: string)
    ensures Unpad(" " + c + " ") == c
  {
  }

  /** A line without cutting pipes in its cells is read cell by cell. */
  lemma ReadUncutLine(cells: seq<string>)
    requires cells != [] && Uncut(cells)
    ensures |ReadRow(Line(cells))| == |cells|
    ensures forall i :: 0 <= i < |cells| ==> ReadRow(Line(cells))[i] == Unescape(cells[i])
  {
    var body := Body(cells);
    LineIsBody(cells);
    SegmentsOfBody(cells);
    assert ("|" + body)[1..] == body;
    var segments := Segments("|" + body, ' ');
    assert segments == [""] + (Padded(cells) + [""]);
    assert segments[1..|segments| - 1] == Padded(cells);
    forall i | 0 <= i < |cells|
      ensures ReadRow(Line(cells))[i] == Unescape(cells[i])
    {
      UnpadPadded(cells[i]);
    }
  }

  /** With a cutting pipe in a cell, more cells come back than were printed. */
  lemma ReadCutLine(cells: seq<string>)
    requires cells != [] && !Uncut(cells)
    ensures |ReadRow(Line(cells))| > |cells|
  {
    var body := Body(cells);
    LineIsBody(cells);
    CutsOfBody(cells);
    SegmentsAreCuts("|" + body, ' ');
    assert ("|" + body)[1..] == body;
  }

  /** A row without cells is printed like a row with one empty cell. */
  lemma EmptyLine()
    ensures ReadRow(Line([])) == [""]
  {
    assert Line([]) == Line([""]);
    ReadUncutLine([""]);
  }

  lemma RowIsReadBackExactlyWhen(cells: seq<string>)
    ensures ReadRow(Line(EscapeAll(cells))) == cells <==> cells != []
  {
    var escaped := EscapeAll(cells);
    if cells == [] {
      EmptyLine();
      return;
    }
    forall i | 0 <= i < |cells|
      ensures Cuts(escaped[i], ' ') == 0 && Unescape(escaped[i]) == cells[i]
    {
      EscapedHasNoCuts(cells[i], ' ');
      UnescapeUndoesEscape(cells[i]);
    }
    ReadUncutLine(escaped);
  }

  ghost predicate PipeFree(cells: seq<string>) {
    forall i :: 0 <= i < |cells| ==> '|' !in cells[i]
  }

  lemma {:induction false} PlainHasNoCuts(s: string, prev: char)
    requires '|' !in s
    ensures Cuts(s, prev) == 0
  {
    if s != "" {
      PlainHasNoCuts(s[1..], s[0]);
    }
  }

  /** A pipe in s either cuts or disappears in favour of the backslash before it. */
  lemma {:induction false} PipeIsNoticed(s: string, prev: char)
    requires '|' in s && Cuts(s, prev) == 0 && s[0] != '|'
    ensures |Unescape(s)| < |s|
  {
    if |s| >= 2 && s[0] == '\\' && s[1] == '|' {
      UnescapeShrinks(s[2..]);
    } else {
      assert s == [s[0]] + s[1..];
      PipeIsNoticed(s[1..], s[0]);
    }
  }

  lemma HeadingsAreReadBackExactlyWhen(headings: seq<string>)
    ensures ReadRow(Line(headings)) == headings <==> headings != [] && PipeFree(headings)
  {
    if headings == [] {
      EmptyLine();
    } else if PipeFree(headings) {
      forall i | 0 <= i < |headings|
        ensures Cuts(headings[i], ' ') == 0 && Unescape(headings[i]) == headings[i]
      {
        PlainHasNoCuts(headings[i], ' ');
        UnescapeOfPlain(headings[i]);
      }
      ReadUncutLine(headings);
    } else if Uncut(headings) {
      var i :| 0 <= i < |headings| && '|' in headings[i];
      ReadUncutLine(headings);
      PipeIsNoticed(headings[i], ' ');
    } else {
      ReadCutLine(headings);
    }
  }

  /** No line without cells. */
  ghost predicate HasCells(t: Table) {
    t.headings != [] && forall i :: 0 <= i < |t.rows| ==> t.rows[i] != []
  }

  /** Printing a table and reading it gives back exactly the headings and cells, if and only if
      every line has cells and no heading contains a pipe: headings are printed unescaped.
      Cells may contain anything, pipes and backslashes included. */
  lemma TableIsReadBackExactlyWhen(t: Table)
    ensures ReadTable(TableLines(t)) == Some(t) <==> HasCells(t) && PipeFree(t.headings)
  {
    var lines, dashes := TableLines(t), Dashes(|t.headings|);
    HeadingsAreReadBackExactlyWhen(t.headings);
    HeadingsAreReadBackExactlyWhen(dashes);
    assert IsDelimiter("---");
    assert lines[2..|lines| - 1] == RowLines(t.rows);
    forall i | 0 <= i < |t.rows|
      ensures ReadRows(RowLines(t.rows))[i] == t.rows[i] <==> t.rows[i] != []
    {
      RowIsReadBackExactlyWhen(t.rows[i]);
    }
    if HasCells(t) {
      assert ReadRows(RowLines(t.rows)) == t.rows;
    }
  }

  // ----- from lines to text

  /** The pieces of a text between line breaks. */
  function SplitLines(text: string): (r: seq<string>)
    ensures |r| >= 1
  {
    if text == "" then [""]
    else
      var rest := SplitLines(text[1..]);
      if text[0] == '\n' then [""] + rest else [[text[0]] + rest[0]] + rest[1..]
  }

  lemma {:induction false} SplitConcat(x: string, y: string)
    requires '\n' !in x
    ensures SplitLines(x + y) == [x + SplitLines(y)[0]] + SplitLines(y)[1..]
  {
    var r := SplitLines(y);
    if x == "" {
      assert x + y == y && x + r[0] == r[0];
    } else {
      assert (x + y)[1..] == x[1..] + y;
      SplitConcat(x[1..], y);
      assert [x[0]] + (x[1..] + SplitLines(y)[0]) == x + SplitLines(y)[0];
    }
  }

  ghost predicate BreakFree(cells: seq<string>) {
    forall i :: 0 <= i < |cells| ==> '\n' !in cells[i]
  }

  lemma {:induction false} SplitsHaveNoBreaks(text: string)
    ensures BreakFree(SplitLines(text))
  {
    if text != "" {
      SplitsHaveNoBreaks(text[1..]);
    }
  }

  /** Joined lines come apart again if and only if none of them contains a line break. */
  lemma {:induction false} LinesAreReadBackExactlyWhen(lines: seq<string>)
    requires lines != []
    ensures SplitLines(Join("\n", lines)) == lines <==> BreakFree(lines)
  {
    SplitsHaveNoBreaks(Join("\n", lines));
    if BreakFree(lines) {
      JoinThenSplit(lines);
    }
  }

  lemma {:induction false} JoinThenSplit(lines: seq<string>)
    requires lines != [] && BreakFree(lines)
    ensures SplitLines(Join("\n", lines)) == lines
  {
    if |lines| == 1 {
      SplitConcat(lines[0], "");
      assert SplitLines("") == [""] && [""][1..] == [];
      assert lines[0] + "" == lines[0] && lines == [lines[0]];
    } else {
      var rest := Join("\n", lines[1..]);
      JoinThenSplit(lines[1..]);
      assert Join("\n", lines) == lines[0] + ("\n" + rest);
      SplitConcat(lines[0], "\n" + rest);
      assert ("\n" + rest)[1..] == rest;
      assert SplitLines("\n" + rest) == [""] + lines[1..];
      assert lines[0] + "" == lines[0];
    }
  }

  lemma {:induction false} JoinAddsNoBreak(sep: string, parts: seq<string>)
    requires BreakFree(parts) && '\n' !in sep
    ensures '\n' !in Join(sep, parts)
  {
    if |parts| > 1 {
      JoinAddsNoBreak(sep, parts[1..]);
    }
  }

  lemma {:induction false} EscapeAddsNoBreak(s: string)
    requires '\n' !in s
    ensures '\n' !in Escape(s)
  {
    if s != "" {
      EscapeAddsNoBreak(s[1..]);
    }
  }

  lemma {:induction false} UnescapeAddsNoBreak(s: string)
    requires '\n' !in s
    ensures '\n' !in Unescape(s)
  {
    if s != "" {
      if |s| >= 2 && s[0] == '\\' && s[1] == '|' { UnescapeAddsNoBreak(s[2..]); } else { UnescapeAddsNoBreak(s[1..]); }
    }
  }

  lemma {:induction false} SegmentsAddNoBreak(s: string, prev: char)
    requires '\n' !in s
    ensures BreakFree(Segments(s, prev))
  {
    if s != "" {
      SegmentsAddNoBreak(s[1..], s[0]);
    }
  }

  lemma ReadRowAddsNoBreak(line: string)
    requires '\n' !in line
    ensures BreakFree(ReadRow(line))
  {
    var segments := Segments(line, ' ');
    SegmentsAddNoBreak(line, ' ');
    forall i | 0 <= i < |segments|
      ensures '\n' !in Unescape(Unpad(segments[i]))
    {
      UnescapeAddsNoBreak(Unpad(segments[i]));
    }
  }

  lemma LineAddsNoBreak(cells: seq<string>)
    requires BreakFree(cells)
    ensures '\n' !in Line(cells) && '\n' !in Line(EscapeAll(cells))
  {
    forall i | 0 <= i < |cells|
      ensures '\n' !in EscapeAll(cells)[i]
    {
      EscapeAddsNoBreak(cells[i]);
    }
    JoinAddsNoBreak(" | ", cells);
    JoinAddsNoBreak(" | ", EscapeAll(cells));
  }

  lemma TableLinesAddNoBreak(t: Table)
    requires BreakFree(t.headings) && forall i :: 0 <= i < |t.rows| ==> BreakFree(t.rows[i])
    ensures BreakFree(TableLines(t))
  {
    LineAddsNoBreak(t.headings);
    LineAddsNoBreak(Dashes(|t.headings|));
    hide Line, EscapeAll;
    forall i | 0 <= i < |t.rows|
      ensures '\n' !in RowLines(t.rows)[i]
    {
      LineAddsNoBreak(t.rows[i]);
    }
  }

  /** What is read from a text has no line breaks in it. */
  lemma ReadTableIsBreakFree(text: string)
    ensures match ReadTable(SplitLines(text))
            case None => true
            case Some(t) => BreakFree(t.headings) && forall i :: 0 <= i < |t.rows| ==> BreakFree(t.rows[i])
  {
    var lines := SplitLines(text);
    SplitsHaveNoBreaks(text);
    hide SplitLines, ReadRow;
    forall i | 0 <= i < |lines|
      ensures BreakFree(ReadRow(lines[i]))
    {
      ReadRowAddsNoBreak(lines[i]);
    }
  }

  /** The text of a table, read line by line and then cell by cell, gives the table back if and
      only if every line has cells, no heading contains a pipe, and no heading and no cell
      contains a line break. */
  lemma TableTextIsReadBackExactlyWhen(t: Table)
    ensures ReadTable(SplitLines(Join("\n", TableLines(t)))) == Some(t)
       <==> HasCells(t) && PipeFree(t.headings) && BreakFree(t.headings)
            && forall i :: 0 <= i < |t.rows| ==> BreakFree(t.rows[i])
  {
    hide ReadTable, HasCells;
    ReadTableIsBreakFree(Join("\n", TableLines(t)));
    TableIsReadBackExactlyWhen(t);
    if BreakFree(t.headings) && forall i :: 0 <= i < |t.rows| ==> BreakFree(t.rows[i]) {
      TableLinesAddNoBreak(t);
      LinesAreReadBackExactlyWhen(TableLines(t));
    }
  }
}
